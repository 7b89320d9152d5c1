/**
 The blob branch of MinerEngine::workerLoop: choosing the four-byte slot the nonce
 is written to, patching it, and the raw inputs of one batch.
 */
module Blob {
  import opened Powers
  import opened Divisibility
  import opened Hex
  import opened Nonces

  const PROBE := "01234567"

  /** The eight characters of the slot at a byte offset already spell the probe. */
  predicate Holds(blob: string, off: nat)
    requires 2 * off + 8 <= |blob|
  {
    blob[2 * off..2 * off + 8] == PROBE
  }

  /** Where the nonce goes, by blob length and content. */
  function Slot(blob: string): nat {
    var bytes := |blob| / 2;
    if bytes < 8 then 0
    else if bytes >= 12 && Holds(blob, bytes - 4) then bytes - 5
    else bytes - 4
  }

  /** The eight characters from c on replaced. */
  function Overwrite(s: string, c: nat, digits: string): string
    requires |digits| == 8 && c + 8 <= |s|
  {
    s[..c] + digits + s[c + 8..]
  }

  /** The four-pair loop that writes eight digits into a copy of the blob. */
  method WriteDigits(s: string, c: nat, digits: string) returns (t: string)
    requires |digits| == 8 && c + 8 <= |s|
    ensures t == Overwrite(s, c, digits)
  {
    t := s;
    for b := 0 to 4
      invariant |t| == |s| && t == s[..c] + digits[..2 * b] + s[c + 2 * b..]
    {
      t := t[c + b * 2 := digits[b * 2]];
      t := t[c + b * 2 + 1 := digits[b * 2 + 1]];
    }
  }

  /** The four-pair loop that compares the probe with the blob. */
  method Differs(p: string, s: string, c: nat) returns (changed: bool)
    requires |p| == |s| && c + 8 <= |s|
    ensures changed <==> p[c..c + 8] != s[c..c + 8]
  {
    for b := 0 to 4
      invariant p[c..c + 2 * b] == s[c..c + 2 * b]
    {
      var k := c + b * 2;
      if p[k..k + 2] != s[k..k + 2] {
        SubSlice(p, c, 2 * b);
        SubSlice(s, c, 2 * b);
        return true;
      }
      assert p[c..c + 2 * (b + 1)] == p[c..k] + p[k..k + 2];
      assert s[c..c + 2 * (b + 1)] == s[c..k] + s[k..k + 2];
    }
    return false;
  }

  lemma SubSlice(s: string, c: nat, i: nat)
    requires i <= 6 && c + 8 <= |s|
    ensures s[c..c + 8][i..i + 2] == s[c + i..c + i + 2]
  {
    var a, b := s[c..c + 8][i..i + 2], s[c + i..c + i + 2];
    assert |a| == |b| == 2 && a[0] == b[0] && a[1] == b[1];
  }

  /** Writes the probe into a copy of the blob and tells whether that changed it. */
  method ProbeChanges(blob: string, off: nat) returns (changed: bool)
    requires 2 * off + 8 <= |blob|
    ensures changed <==> !Holds(blob, off)
  {
    var probe := WriteDigits(blob, off * 2, PROBE);
    changed := Differs(probe, blob, off * 2);
    assert probe[off * 2..off * 2 + 8] == PROBE;
  }

  lemma HoldsChars(blob: string, off: nat)
    requires 2 * off + 8 <= |blob| && Holds(blob, off)
    ensures blob[2 * off] == '0' && blob[2 * off + 2] == '2'
  {
    var slot := blob[2 * off..2 * off + 8];
    assert slot[0] == PROBE[0] && slot[2] == PROBE[2];
  }

  /** Two copies of the probe cannot overlap by three bytes. */
  lemma NoOverlap(blob: string, off: nat)
    requires off > 0 && 2 * off + 8 <= |blob|
    requires Holds(blob, off)
    ensures !Holds(blob, off - 1)
  {
    HoldsChars(blob, off);
    if Holds(blob, off - 1) {
      HoldsChars(blob, off - 1);
    }
  }

  /** The slot search: probe the end, and if the probe changes nothing scan backwards. */
  method ChooseSlot(blob: string) returns (offset: nat, fellBack: bool)
    requires |blob| >= 8
    ensures offset == Slot(blob) && !fellBack
  {
    hide Holds;
    var bytes := |blob| / 2;
    var chosen: int := if bytes >= 8 then bytes - 4 else 0;
    fellBack := false;
    var changed := ProbeChanges(blob, chosen);
    if !changed && bytes >= 12 {
      NoOverlap(blob, chosen);
      var found := false;
      var off := bytes - 4;
      while off > 0
        invariant bytes - 5 <= off <= bytes - 4 && !found
        invariant off == bytes - 5 ==> !Holds(blob, off)
      {
        var ch := ProbeChanges(blob, off);
        if ch {
          chosen, found := off, true;
          break;
        }
        off := off - 1;
      }
      if !found {
        chosen, fellBack := bytes - 4, true;
      }
    }
    offset := chosen;
  }

  /**
   The guard before the search asks for four characters where four bytes are meant:
   the slot lies inside the blob exactly when the blob has eight characters.
   */
  lemma SlotInBounds(blob: string)
    requires |blob| >= 4
    ensures 2 * Slot(blob) + 8 <= |blob| <==> |blob| >= 8
  {
  }

  // ------------------------------------------------------------------ patching

  function Patched(blob: string, nonce: nat): string
    requires |blob| >= 8 && nonce < MODULUS
  {
    FitsEight(nonce);
    Overwrite(blob, 2 * Slot(blob), ToHex(nonce, 8))
  }

  lemma FitsEight(nonce: nat)
    requires nonce < MODULUS
    ensures |ToHex(nonce, 8)| == 8
  {
    assert Power(16, 4) == 0x1_0000 && Power(16, 8) == 0x1_0000 * Power(16, 4);
    ToHexLength(nonce, 8);
  }

  /** Only the slot changes, and the slot decodes to the nonce. */
  lemma PatchIsLocal(blob: string, nonce: nat)
    requires |blob| >= 8 && AllHex(blob) && nonce < MODULUS
    ensures var p, c := Patched(blob, nonce), 2 * Slot(blob);
            |p| == |blob| && AllHex(p) && p[..c] == blob[..c] && p[c + 8..] == blob[c + 8..] &&
            HexValue(p[c..c + 8]) == nonce
  {
    FitsEight(nonce);
    ToHexValue(nonce, 8);
    hide ToHex, AllHex, HexValue, Overwrite;
    OverwriteIsLocal(blob, 2 * Slot(blob), ToHex(nonce, 8));
  }

  lemma OverwriteIsLocal(s: string, c: nat, digits: string)
    requires |digits| == 8 && c + 8 <= |s| && AllHex(s) && AllHex(digits)
    ensures var p := Overwrite(s, c, digits);
            |p| == |s| && AllHex(p) && p[..c] == s[..c] && p[c + 8..] == s[c + 8..] && p[c..c + 8] == digits
  {
    hide IsHex;
    var p := Overwrite(s, c, digits);
    forall i | 0 <= i < |p| ensures IsHex(p[i]) {
      assert p[i] == if c <= i < c + 8 then digits[i - c] else s[i];
    }
  }

  function SlotValue(raw: seq<nat>, off: nat): nat
    requires off + 4 <= |raw|
  {
    ((raw[off] * 256 + raw[off + 1]) * 256 + raw[off + 2]) * 256 + raw[off + 3]
  }

  /** In the raw bytes the slot holds the nonce most significant byte first. */
  lemma RawHoldsNonce(blob: string, nonce: nat)
    requires |blob| >= 8 && AllHex(blob) && nonce < MODULUS
    ensures AllHex(Patched(blob, nonce)) && |Patched(blob, nonce)| == |blob|
    ensures SlotValue(RawBytes(Patched(blob, nonce)), Slot(blob)) == nonce
  {
    PatchIsLocal(blob, nonce);
    var p, off := Patched(blob, nonce), Slot(blob);
    var c := 2 * off;
    var digits := p[c..c + 8];
    assert 2 * off + 8 <= |p|;
    hide Patched, Slot, HexValue, PairValue, AllHex;
    EightDigits(digits);
    SlicePairs(p, off);
    RawSlot(p, off);
    hide RawBytes, SlotValue;
  }

  lemma RawSlot(p: string, off: nat)
    requires AllHex(p) && 2 * off + 8 <= |p|
    ensures SlotValue(RawBytes(p), off)
         == ((PairValue(p, off) * 256 + PairValue(p, off + 1)) * 256 + PairValue(p, off + 2)) * 256
            + PairValue(p, off + 3)
  {
    hide AllHex, PairValue;
  }

  lemma SlicePairs(p: string, off: nat)
    requires AllHex(p) && 2 * off + 8 <= |p|
    ensures AllHex(p[2 * off..2 * off + 8])
    ensures var digits := p[2 * off..2 * off + 8];
            PairValue(digits, 0) == PairValue(p, off) && PairValue(digits, 1) == PairValue(p, off + 1) &&
            PairValue(digits, 2) == PairValue(p, off + 2) && PairValue(digits, 3) == PairValue(p, off + 3)
  {
  }

  /** Distinct nonces give distinct hash inputs. */
  lemma RawDistinct(blob: string, m: nat, n: nat)
    requires |blob| >= 8 && AllHex(blob) && m < MODULUS && n < MODULUS
    ensures AllHex(Patched(blob, m)) && AllHex(Patched(blob, n))
    ensures RawBytes(Patched(blob, m)) == RawBytes(Patched(blob, n)) <==> m == n
  {
    RawHoldsNonce(blob, m);
    RawHoldsNonce(blob, n);
  }

  // ----------------------------------------------------------------- one batch

  /** The inputs one batch hashes, and the blobs a share would submit. */
  method BlobBatch(blob: string, baseNonce: nat, step: nat) returns (inputs: seq<seq<nat>>, blobs: seq<string>)
    requires |blob| >= 8 && AllHex(blob) && baseNonce < MODULUS
    ensures |inputs| == BATCH && |blobs| == BATCH
    ensures forall i :: 0 <= i < BATCH ==> blobs[i] == Patched(blob, NonceAt(baseNonce, step, i))
    ensures forall i :: 0 <= i < BATCH ==> AllHex(blobs[i]) && inputs[i] == RawBytes(blobs[i])
  {
    SlotInBounds(blob);
    hide Slot, Overwrite, ToHex, RawBytes;
    var offset, fellBack := ChooseSlot(blob);
    var workBlob := blob;
    inputs, blobs := [], [];
    for i := 0 to BATCH
      invariant SameOutside(workBlob, blob, offset * 2)
      invariant |inputs| == i && |blobs| == i
      invariant forall k :: 0 <= k < i ==> blobs[k] == Patched(blob, NonceAt(baseNonce, step, k))
      invariant forall k :: 0 <= k < i ==> AllHex(blobs[k]) && inputs[k] == RawBytes(blobs[k])
    {
      var nonce := (baseNonce + i * step) % MODULUS;
      hide AllHex, SameOutside, Patched;
      var rawBlob;
      workBlob, rawBlob := PatchOnce(workBlob, blob, offset, nonce);
      inputs := inputs + [rawBlob];
      blobs := blobs + [workBlob];
    }
  }

  /** One turn of the batch loop: write the nonce into the working copy and decode it. */
  method PatchOnce(workBlob: string, ghost blob: string, offset: nat, nonce: nat)
    returns (patched: string, raw: seq<nat>)
    requires |blob| >= 8 && AllHex(blob) && nonce < MODULUS
    requires offset == Slot(blob) && SameOutside(workBlob, blob, offset * 2)
    ensures patched == Patched(blob, nonce) && SameOutside(patched, blob, offset * 2)
    ensures AllHex(patched) && raw == RawBytes(patched)
  {
    FitsEight(nonce);
    PatchIsLocal(blob, nonce);
    assert Patched(blob, nonce) == Overwrite(blob, offset * 2, ToHex(nonce, 8));
    hide Slot, ToHex, AllHex, RawBytes, Overwrite, Patched, HexValue, SameOutside;
    var nonceHex := ToHex(nonce, 8);
    OutsideFits(workBlob, blob, offset * 2);
    OverwriteAgain(workBlob, blob, offset * 2, nonceHex);
    patched := WriteDigits(workBlob, offset * 2, nonceHex);
    raw := DecodeBlob(patched);
  }

  /** Equal but for the eight characters from c on. */
  predicate SameOutside(s: string, t: string, c: nat) {
    |s| == |t| && c + 8 <= |s| && s[..c] == t[..c] && s[c + 8..] == t[c + 8..]
  }

  lemma OutsideFits(s: string, t: string, c: nat)
    requires SameOutside(s, t, c)
    ensures |s| == |t| && c + 8 <= |s|
  {
  }

  lemma OverwriteAgain(s: string, t: string, c: nat, digits: string)
    requires |digits| == 8 && SameOutside(s, t, c)
    ensures Overwrite(s, c, digits) == Overwrite(t, c, digits)
    ensures SameOutside(Overwrite(s, c, digits), t, c)
  {
  }

  /** A batch without repetition: no two of its nonces agree. */
  ghost predicate AllDistinct(base: nat, step: nat) {
    forall i, j :: 0 <= i < j < BATCH ==> NonceAt(base, step, i) != NonceAt(base, step, j)
  }

  lemma EvenMultiple(p: int, q: int)
    ensures ((2 * p) * q) % 2 == 0
  {
    MulAssoc(2, p, q);
  }

  lemma {:induction false} TwosDivides(n: nat, k: nat)
    requires n > 0
    ensures Divides(Power(2, k), n) <==> k <= Twos(n)
  {
    Factor(n);
    var t, odd := Twos(n), OddPart(n);
    if k <= t {
      Pow2Add(k, t - k);
      MulAssoc(Power(2, k), Power(2, t - k), odd);
      DividesBy(Power(2, k), n, Power(2, t - k) * odd);
    } else {
      Pow2Add(t, k - t);
      CancelFactor(Power(2, t), Power(2, k - t), odd);
      if Divides(Power(2, k - t), odd) {
        var q := Quotient(Power(2, k - t), odd);
        EvenMultiple(Power(2, k - t - 1), q);
      }
    }
  }

  lemma {:induction false} Pow2Grows(a: nat, b: nat)
    requires a <= b
    ensures Power(2, a) <= Power(2, b)
  {
    Pow2Add(a, b - a);
    AtLeast(Power(2, a), Power(2, b - a));
  }

  /** The period is at least a batch unless 2^22 divides the step. */
  lemma PeriodCoversBatch(step: nat)
    requires 0 < step < MODULUS
    ensures Period(step) >= BATCH <==> step % 0x40_0000 != 0
    ensures step % 0x40_0000 == 0 ==> 0 < Period(step) < BATCH
  {
    FewTwos(step);
    ModulusIsPow2();
    var t := Twos(step);
    TwosDivides(step, 22);
    SameResidue(step, 0, 0x40_0000);
    assert Power(2, 11) == 2 * Power(2, 10);
    hide Twos;
    if t <= 21 {
      Pow2Grows(11, 32 - t);
    } else {
      Pow2Grows(32 - t, 10);
    }
  }

  /** The nonces of a batch are pairwise distinct exactly when 2^22 does not divide the step. */
  lemma BatchDistinct(base: nat, step: nat)
    requires 0 < step < MODULUS
    ensures AllDistinct(base, step) <==> step % 0x40_0000 != 0
  {
    PeriodCoversBatch(step);
    var period := Period(step);
    hide Period, NonceAt;
    if period >= BATCH {
      forall i, j | 0 <= i < j < BATCH ensures NonceAt(base, step, i) != NonceAt(base, step, j) {
        WalkRepeats(base, step, i, j);
        SmallMultiple(period, i - j);
      }
    } else {
      WalkRepeats(base, step, 0, period);
      DividesBy(period, 0 - period, -1);
    }
  }

  /** The inputs of one batch are pairwise distinct exactly when its nonces are. */
  ghost predicate InputsDistinct(blob: string, base: nat, step: nat)
    requires |blob| >= 8 && AllHex(blob)
  {
    forall i, j | 0 <= i < j < BATCH ::
      PatchIsLocal(blob, NonceAt(base, step, i));
      PatchIsLocal(blob, NonceAt(base, step, j));
      RawBytes(Patched(blob, NonceAt(base, step, i))) != RawBytes(Patched(blob, NonceAt(base, step, j)))
  }

  lemma BatchInputsDistinct(blob: string, base: nat, step: nat)
    requires |blob| >= 8 && AllHex(blob) && 0 < step < MODULUS
    ensures InputsDistinct(blob, base, step) <==> step % 0x40_0000 != 0
  {
    BatchDistinct(base, step);
    forall i, j | 0 <= i < j < BATCH
      ensures AllHex(Patched(blob, NonceAt(base, step, i))) && AllHex(Patched(blob, NonceAt(base, step, j)))
      ensures RawBytes(Patched(blob, NonceAt(base, step, i))) == RawBytes(Patched(blob, NonceAt(base, step, j)))
         <==> NonceAt(base, step, i) == NonceAt(base, step, j)
    {
      RawDistinct(blob, NonceAt(base, step, i), NonceAt(base, step, j));
    }
    hide NonceAt, Patched, RawBytes;
  }

  // -------------------------------------------------------------- many workers

  /** Two walks are at the same nonce exactly when their bases are a number of steps apart, modulo 2^32. */
  lemma SameNonceIff(b: nat, i: nat, c: nat, j: nat, step: nat)
    ensures NonceAt(b, step, i) == NonceAt(c, step, j) <==> Apart(b, c, step, i - j)
  {
    SameResidue(c + j * step, b + i * step, MODULUS);
    assert (c + j * step) - (b + i * step) == c - b - (i - j) * step;
  }

  /** The base c is d steps ahead of the base b, modulo 2^32. */
  ghost predicate Apart(b: nat, c: nat, step: nat, d: int) {
    Divides(MODULUS, c - b - d * step)
  }

  /** One of the first m nonces from b is one of the first n nonces from c. */
  ghost predicate Meet(b: nat, m: nat, c: nat, n: nat, step: nat) {
    exists i, j :: 0 <= i < m && 0 <= j < n && NonceAt(b, step, i) == NonceAt(c, step, j)
  }

  /** Two stretches meet, from whatever bases, exactly when these are fewer steps apart than the stretches are long. */
  lemma MeetIffApart(b: nat, m: nat, c: nat, n: nat, step: nat)
    requires m > 0 && n > 0
    ensures Meet(b, m, c, n, step) <==> exists d: int :: d < m && -d < n && Apart(b, c, step, d)
  {
    hide NonceAt, Apart;
    if Meet(b, m, c, n, step) {
      var i, j :| 0 <= i < m && 0 <= j < n && NonceAt(b, step, i) == NonceAt(c, step, j);
      SameNonceIff(b, i, c, j, step);
    }
    forall d: int | d < m && -d < n && Apart(b, c, step, d) ensures Meet(b, m, c, n, step) {
      var i, j := if d > 0 then d else 0, if d > 0 then 0 else -d;
      SameNonceIff(b, i, c, j, step);
    }
  }

  /** Two whole batches, from whatever bases. */
  ghost predicate Overlap(b: nat, c: nat, step: nat) {
    exists d: int :: d < BATCH && -d < BATCH && Apart(b, c, step, d)
  }

  lemma BatchesMeetIff(b: nat, c: nat, step: nat)
    ensures Meet(b, BATCH, c, BATCH, step) <==> Overlap(b, c, step)
  {
    MeetIffApart(b, BATCH, c, BATCH, step);
  }

  /** 4096 classic batches of one of two workers bring it to where the other one starts. */
  lemma ClassicWorkMovesBase()
    ensures NonceAt(StartNonce(0), 2, 4096 * BATCH) == StartNonce(1)
    ensures Overlap(NonceAt(StartNonce(0), 2, 4096 * BATCH), StartNonce(1), 2)
  {
    SameNonceIff(StartNonce(1), 0, StartNonce(1), 0, 2);
    assert Apart(StartNonce(1), StartNonce(1), 2, 0);
  }

  /** No nonce of a batch of worker v is one of a batch of worker w, both from their first nonces. */
  ghost predicate Disjoint(v: nat, w: nat, step: nat) {
    !Overlap(StartNonce(v), StartNonce(w), step)
  }

  lemma TopByte(w: nat, step: nat, i: nat)
    requires w < 256 && step <= 256 && i < BATCH
    ensures NonceAt(StartNonce(w), step, i) / WORKER_STRIDE == w
  {
    SmallAdvance(i, step);
    TopByteOf(w, i * step);
  }

  lemma TopByteOf(w: nat, z: nat)
    requires w < 256 && z < WORKER_STRIDE
    ensures (StartNonce(w) + z) % MODULUS / WORKER_STRIDE == w
  {
    RemainderIs(w * WORKER_STRIDE, MODULUS, 0, w * WORKER_STRIDE);
    RemainderIs(w * WORKER_STRIDE + z, MODULUS, 0, w * WORKER_STRIDE + z);
    RemainderIs(w * WORKER_STRIDE + z, WORKER_STRIDE, w, z);
  }

  lemma SmallAdvance(i: nat, step: nat)
    requires step <= 256 && i < BATCH
    ensures i * step < WORKER_STRIDE
  {
    Distribute(i, 256, 256 - step);
    if step < 256 && i > 0 {
      AtLeast(256 - step, i);
    }
  }

  lemma FreshDisjoint(v: nat, w: nat, step: nat)
    requires v != w && v < 256 && w < 256 && step <= 256
    ensures Disjoint(v, w, step)
  {
    hide NonceAt, StartNonce, Overlap;
    BatchesMeetIff(StartNonce(v), StartNonce(w), step);
    forall i, j | 0 <= i < BATCH && 0 <= j < BATCH
      ensures NonceAt(StartNonce(v), step, i) != NonceAt(StartNonce(w), step, j)
    {
      TopByte(v, step, i);
      TopByte(w, step, j);
    }
  }

  /**
   From their first nonces, and with as many workers as the step, each mines its own
   nonces of a blob if and only if there are at most 256 of them: starts are 2^24
   apart and wrap after that.
   */
  lemma BlobWorkDisjoint(workers: nat)
    requires workers < MODULUS
    ensures (forall v, w :: 0 <= v < w < workers ==> Disjoint(v, w, workers)) <==> workers <= 256
  {
    if workers <= 256 {
      forall v, w | 0 <= v < w < workers ensures Disjoint(v, w, workers) {
        FreshDisjoint(v, w, workers);
      }
    } else {
      assert StartNonce(0) == StartNonce(256);
      SameNonceIff(StartNonce(0), 0, StartNonce(256), 0, workers);
      assert Apart(StartNonce(0), StartNonce(256), workers, 0);
      assert !Disjoint(0, 256, workers);
    }
  }
}
