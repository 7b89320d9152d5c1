/**
 What an algorithm hashes of a patched blob: all of it, or its first 72 bytes, of which
 the nonce may lie outside.
 */
module BlobInputs {
  import opened Powers
  import opened Divisibility
  import opened Hex
  import opened Nonces
  import opened Octets
  import opened Blob
  import opened ClassicWork
  import Cryptonight

  predicate ByteRaw(raw: seq<nat>) {
    forall i :: 0 <= i < |raw| ==> raw[i] < 256
  }

  function RawOctets(raw: seq<nat>): (r: seq<bv8>)
    requires ByteRaw(raw)
    ensures |r| == |raw|
  {
    seq(|raw|, i requires 0 <= i < |raw| => Octet(raw[i]))
  }

  lemma RawIsBytes(s: string)
    requires AllHex(s)
    ensures ByteRaw(RawBytes(s)) && |RawBytes(s)| == |s| / 2
  {
    hide PairValue;
  }

  /** The data of one hash of a blob. */
  function BlobData(blob: string, nonce: nat): (r: seq<bv8>)
    requires |blob| >= 8 && AllHex(blob) && nonce < MODULUS
    ensures |r| == |blob| / 2
  {
    PatchIsLocal(blob, nonce);
    RawIsBytes(Patched(blob, nonce));
    RawOctets(RawBytes(Patched(blob, nonce)))
  }

  /** The engine hands a blob over with nonce zero: its own nonce is in the data. */
  function BlobInput(a: Algorithm, blob: string, nonce: nat): seq<bv8>
    requires |blob| >= 8 && AllHex(blob) && nonce < MODULUS
  {
    HashInput(a, BlobData(blob, nonce), 0)
  }

  /** The buffer of sha256d holds a blob and a nonce exactly up to 505 characters. */
  lemma BlobFits(blob: string, nonce: nat)
    requires |blob| >= 8 && AllHex(blob) && nonce < MODULUS
    ensures |BlobData(blob, nonce)| + 4 <= 256 <==> |blob| <= 505
  {
  }

  /** How many of the four nonce bytes, most significant first, are hashed. */
  function Kept(a: Algorithm, slot: nat): (k: nat)
    ensures k <= 4
  {
    match a
    case Sha256d => 4
    case Cryptonight =>
      if slot >= Cryptonight.DATA_BYTES then 0
      else if slot + 4 <= Cryptonight.DATA_BYTES then 4
      else Cryptonight.DATA_BYTES - slot
  }

  /** The nonces that share the bytes hashed: one, 2^8, 2^16, 2^24, or all. */
  function Lost(a: Algorithm, blob: string): (n: nat)
    ensures n > 0
  {
    Power(256, 4 - Kept(a, Slot(blob)))
  }

  lemma Powers256()
    ensures Power(256, 0) == 1 && Power(256, 1) == 0x100 && Power(256, 2) == 0x1_0000
    ensures Power(256, 3) == 0x100_0000 && Power(256, 4) == 0x1_0000_0000
  {
    assert Power(256, 1) == 256 * Power(256, 0) && Power(256, 2) == 256 * Power(256, 1);
    assert Power(256, 3) == 256 * Power(256, 2) && Power(256, 4) == 256 * Power(256, 3);
  }

  /** Dropping the last bytes of a four-byte value leaves the first. */
  lemma LeadingBytes(b0: nat, b1: nat, b2: nat, b3: nat)
    requires b0 < 256 && b1 < 256 && b2 < 256 && b3 < 256
    ensures var x := ((b0 * 256 + b1) * 256 + b2) * 256 + b3;
            && x / 0x100 == (b0 * 256 + b1) * 256 + b2 && x / 0x1_0000 == b0 * 256 + b1
            && x / 0x100_0000 == b0 && x / 0x1_0000_0000 == 0
  {
    var x := ((b0 * 256 + b1) * 256 + b2) * 256 + b3;
    RemainderIs(x, 0x100, (b0 * 256 + b1) * 256 + b2, b3);
    RemainderIs(x, 0x1_0000, b0 * 256 + b1, b2 * 256 + b3);
    RemainderIs(x, 0x100_0000, b0, (b1 * 256 + b2) * 256 + b3);
    RemainderIs(x, 0x1_0000_0000, 0, x);
  }

  predicate Agree(r: seq<nat>, s: seq<nat>, from: nat, to: nat)
    requires to <= |r| && |r| == |s|
  {
    forall j :: from <= j < to ==> r[j] == s[j]
  }

  /** The value of the first k of the four bytes. */
  function Leading(r: seq<nat>, off: nat, k: nat): nat
    requires k <= 4 && off + 4 <= |r|
  {
    if k == 0 then 0 else Leading(r, off, k - 1) * 256 + r[off + k - 1]
  }

  lemma DropBytes(r: seq<nat>, off: nat, k: nat)
    requires k <= 4 && off + 4 <= |r| && ByteRaw(r)
    ensures SlotValue(r, off) / Power(256, 4 - k) == Leading(r, off, k)
  {
    Powers256();
    LeadingBytes(r[off], r[off + 1], r[off + 2], r[off + 3]);
    assert Leading(r, off, 1) == r[off] && Leading(r, off, 2) == r[off] * 256 + r[off + 1];
    assert Leading(r, off, 3) == (r[off] * 256 + r[off + 1]) * 256 + r[off + 2];
    assert Leading(r, off, 4) == SlotValue(r, off);
    hide Power, Leading, SlotValue;
    match k
    case 0 =>
      assert Leading(r, off, 0) == 0 by { NoBytes(r, off); }
    case _ =>
  }

  lemma NoBytes(r: seq<nat>, off: nat)
    requires off + 4 <= |r|
    ensures Leading(r, off, 0) == 0
  {
  }

  lemma {:induction false} LeadingAgree(r: seq<nat>, s: seq<nat>, off: nat, k: nat)
    requires k <= 4 && off + 4 <= |r| && |r| == |s| && ByteRaw(r) && ByteRaw(s)
    ensures Leading(r, off, k) == Leading(s, off, k) <==> Agree(r, s, off, off + k)
  {
    if k > 0 {
      LeadingAgree(r, s, off, k - 1);
      LastDigit(Leading(r, off, k - 1), r[off + k - 1], Leading(s, off, k - 1), s[off + k - 1]);
      hide Leading;
      assert Agree(r, s, off, off + k) <==> Agree(r, s, off, off + k - 1) && r[off + k - 1] == s[off + k - 1];
    }
  }

  lemma LastDigit(x: nat, b: nat, y: nat, c: nat)
    requires b < 256 && c < 256
    ensures x * 256 + b == y * 256 + c <==> x == y && b == c
  {
  }

  /** The first k slot bytes agree exactly when the nonces do after dropping the other bytes. */
  lemma FirstBytesAgree(r: seq<nat>, s: seq<nat>, off: nat, k: nat)
    requires k <= 4 && off + 4 <= |r| && |r| == |s| && ByteRaw(r) && ByteRaw(s)
    ensures Agree(r, s, off, off + k)
       <==> SlotValue(r, off) / Power(256, 4 - k) == SlotValue(s, off) / Power(256, 4 - k)
  {
    DropBytes(r, off, k);
    DropBytes(s, off, k);
    LeadingAgree(r, s, off, k);
    hide Power, Leading, SlotValue;
  }

  /** Outside the slot the raw bytes are the blob's own. */
  lemma OutsideSlot(blob: string, m: nat, n: nat, j: nat)
    requires |blob| >= 8 && AllHex(blob) && m < MODULUS && n < MODULUS
    requires j < |blob| / 2 && (j < Slot(blob) || j >= Slot(blob) + 4)
    ensures AllHex(Patched(blob, m)) && AllHex(Patched(blob, n))
    ensures |RawBytes(Patched(blob, m))| == |RawBytes(Patched(blob, n))| == |blob| / 2
    ensures RawBytes(Patched(blob, m))[j] == RawBytes(Patched(blob, n))[j]
  {
    PatchIsLocal(blob, m);
    PatchIsLocal(blob, n);
    hide Patched, Slot;
    OutsidePairs(Patched(blob, m), Patched(blob, n), 2 * Slot(blob), j);
  }

  lemma OutsidePairs(p: string, q: string, c: nat, j: nat)
    requires AllHex(p) && AllHex(q) && |p| == |q| && c % 2 == 0 && c + 8 <= |p|
    requires p[..c] == q[..c] && p[c + 8..] == q[c + 8..]
    requires 2 * j + 2 <= |p| && (2 * j < c || 2 * j >= c + 8)
    ensures PairValue(p, j) == PairValue(q, j)
  {
    if 2 * j < c {
      assert p[..c][2 * j] == q[..c][2 * j] && p[..c][2 * j + 1] == q[..c][2 * j + 1];
    } else {
      assert p[c + 8..][2 * j - c - 8] == q[c + 8..][2 * j - c - 8];
      assert p[c + 8..][2 * j + 1 - c - 8] == q[c + 8..][2 * j + 1 - c - 8];
    }
  }

  /** Octets agree up to a length exactly when the numbers do. */
  lemma OctetsAgree(r: seq<nat>, s: seq<nat>, size: nat)
    requires ByteRaw(r) && ByteRaw(s) && |r| == |s| && size <= |r|
    ensures RawOctets(r)[..size] == RawOctets(s)[..size] <==> Agree(r, s, 0, size)
  {
    var x, y := RawOctets(r), RawOctets(s);
    forall j | 0 <= j < size ensures x[..size][j] == y[..size][j] <==> r[j] == s[j] {
      OctetValue(r[j]);
      OctetValue(s[j]);
    }
    if x[..size] == y[..size] {
      forall j | 0 <= j < size ensures r[j] == s[j] {
        assert x[..size][j] == y[..size][j];
      }
    }
  }

  /** Up to a size, the data of two nonces agree exactly when the slot bytes below it do. */
  lemma DataAgree(blob: string, m: nat, n: nat, size: nat, k: nat)
    requires |blob| >= 8 && AllHex(blob) && m < MODULUS && n < MODULUS && size <= |blob| / 2
    requires k == if size <= Slot(blob) then 0 else if size >= Slot(blob) + 4 then 4 else size - Slot(blob)
    ensures BlobData(blob, m)[..size] == BlobData(blob, n)[..size] <==> m / Power(256, 4 - k) == n / Power(256, 4 - k)
  {
    RawHoldsNonce(blob, m);
    RawHoldsNonce(blob, n);
    SlotInBounds(blob);
    var r, s, off := RawBytes(Patched(blob, m)), RawBytes(Patched(blob, n)), Slot(blob);
    RawIsBytes(Patched(blob, m));
    RawIsBytes(Patched(blob, n));
    OctetsAgree(r, s, size);
    FirstBytesAgree(r, s, off, k);
    forall j | 0 <= j < size && (j < off || j >= off + 4) ensures r[j] == s[j] {
      OutsideSlot(blob, m, n, j);
    }
    hide Patched, RawBytes, Slot, SlotValue, Power;
    SlotDecides(r, s, off, size, k);
  }

  lemma SlotDecides(r: seq<nat>, s: seq<nat>, off: nat, size: nat, k: nat)
    requires |r| == |s| && size <= |r| && off + 4 <= |r|
    requires k == if size <= off then 0 else if size >= off + 4 then 4 else size - off
    requires forall j :: 0 <= j < size && (j < off || j >= off + 4) ==> r[j] == s[j]
    ensures Agree(r, s, 0, size) <==> Agree(r, s, off, off + k)
  {
  }

  /** How much of the data is hashed. */
  function DataReach(a: Algorithm, size: nat): (n: nat)
    ensures n <= size
  {
    match a
    case Sha256d => size
    case Cryptonight => if size > Cryptonight.DATA_BYTES then Cryptonight.DATA_BYTES else size
  }

  lemma InputsOfData(a: Algorithm, c: seq<bv8>, d: seq<bv8>)
    requires |c| == |d|
    ensures HashInput(a, c, 0) == HashInput(a, d, 0) <==> c[..DataReach(a, |c|)] == d[..DataReach(a, |c|)]
  {
    hide HashInput;
    match a
    case Sha256d =>
      Sha256dInputs(c, 0, d, 0);
      assert c[..|c|] == c && d[..|c|] == d;
    case Cryptonight =>
      CryptonightInputs(c, 0, d, 0);
      assert c[..|c|] == c && d[..|c|] == d;
  }

  /** Two nonces of a blob give one input exactly when they differ only in bytes that are not hashed. */
  lemma BlobInputsAgree(a: Algorithm, blob: string, m: nat, n: nat)
    requires |blob| >= 8 && AllHex(blob) && m < MODULUS && n < MODULUS
    ensures BlobInput(a, blob, m) == BlobInput(a, blob, n) <==> m / Lost(a, blob) == n / Lost(a, blob)
  {
    SlotInBounds(blob);
    InputsOfData(a, BlobData(blob, m), BlobData(blob, n));
    DataAgree(blob, m, n, DataReach(a, |blob| / 2), Kept(a, Slot(blob)));
    hide BlobData, HashInput, Power, Slot, AllHex;
  }

  /** From their first nonces different workers hash different inputs, unless no nonce byte is hashed. */
  lemma FreshInputsDiffer(a: Algorithm, blob: string, v: nat, i: nat, w: nat, j: nat, step: nat)
    requires |blob| >= 8 && AllHex(blob) && v != w && v < 256 && w < 256 && step <= 256 && i < BATCH && j < BATCH
    ensures BlobInput(a, blob, NonceAt(StartNonce(v), step, i)) == BlobInput(a, blob, NonceAt(StartNonce(w), step, j))
       <==> Kept(a, Slot(blob)) == 0
  {
    LostSizes(a, blob);
    FreshTops(v, i, w, j, step, Lost(a, blob));
    BlobInputsAgree(a, blob, NonceAt(StartNonce(v), step, i), NonceAt(StartNonce(w), step, j));
    hide NonceAt, StartNonce, Slot, BlobInput, Kept, Lost, AllHex;
  }

  predicate WholeBytes(lost: nat) {
    lost == 1 || lost == 0x100 || lost == 0x1_0000 || lost == 0x100_0000 || lost == 0x1_0000_0000
  }

  lemma LostSizes(a: Algorithm, blob: string)
    ensures WholeBytes(Lost(a, blob)) && (Lost(a, blob) == 0x1_0000_0000 <==> Kept(a, Slot(blob)) == 0)
    ensures Lost(a, blob) == 1 <==> Kept(a, Slot(blob)) == 4
  {
    Powers256();
    hide Power, Kept, Slot;
  }

  lemma FreshTops(v: nat, i: nat, w: nat, j: nat, step: nat, lost: nat)
    requires v != w && v < 256 && w < 256 && step <= 256 && i < BATCH && j < BATCH && WholeBytes(lost)
    ensures NonceAt(StartNonce(v), step, i) / lost == NonceAt(StartNonce(w), step, j) / lost
       <==> lost == 0x1_0000_0000
  {
    TopByte(v, step, i);
    TopByte(w, step, j);
    assert NonceAt(StartNonce(v), step, i) < MODULUS && NonceAt(StartNonce(w), step, j) < MODULUS;
    hide NonceAt, StartNonce;
    TopSurvives(NonceAt(StartNonce(v), step, i), NonceAt(StartNonce(w), step, j), lost);
  }

  lemma TopSurvives(m: nat, n: nat, lost: nat)
    requires m < MODULUS && n < MODULUS && m / WORKER_STRIDE != n / WORKER_STRIDE
    requires WholeBytes(lost)
    ensures m / lost == n / lost <==> lost == 0x1_0000_0000
  {
    if lost == 0x100 {
      QuotientTwice(m, 0x100, 0x1_0000);
      QuotientTwice(n, 0x100, 0x1_0000);
    } else if lost == 0x1_0000 {
      QuotientTwice(m, 0x1_0000, 0x100);
      QuotientTwice(n, 0x1_0000, 0x100);
    } else if lost == 0x1_0000_0000 {
      RemainderIs(m, lost, 0, m);
      RemainderIs(n, lost, 0, n);
    }
  }

  lemma QuotientTwice(x: nat, d: nat, e: nat)
    requires (d == 0x100 && e == 0x1_0000) || (d == 0x1_0000 && e == 0x100)
    ensures x / d / e == x / WORKER_STRIDE
  {
    var q := x / d;
    RemainderIs(x, WORKER_STRIDE, q / e, q % e * d + x % d);
  }
}
