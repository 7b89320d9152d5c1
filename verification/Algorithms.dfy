/**
 What is hashed over whole runs, by either algorithm: when an input comes back, to the
 same worker or to another.
 */
module Algorithms {
  import opened Wrappers
  import opened Stratum
  import opened Hex
  import opened Nonces
  import opened Divisibility
  import opened Blob
  import opened ClassicWork
  import opened BlobInputs
  import opened Workers
  import opened BlobRuns

  // ----------------------------------------------------------- the bytes hashed

  predicate ByteAttempt(a: Workers.Attempt) {
    match a
    case HeaderAttempt(header, nonce) => ByteText(header) && nonce < MODULUS
    case BlobAttempt(raw) => ByteRaw(raw)
  }

  function DataOf(a: Workers.Attempt): seq<bv8>
    requires ByteAttempt(a)
  {
    match a
    case HeaderAttempt(header, _) => Bytes(header)
    case BlobAttempt(raw) => RawOctets(raw)
  }

  function NonceOf(a: Workers.Attempt): nat
    requires ByteAttempt(a)
    ensures NonceOf(a) < MODULUS
  {
    match a
    case HeaderAttempt(_, nonce) => nonce
    case BlobAttempt(_) => 0
  }

  function InputOf(g: Algorithm, a: Workers.Attempt): seq<bv8>
    requires ByteAttempt(a)
  {
    HashInput(g, DataOf(a), NonceOf(a))
  }

  /** A hash on a job of bytes. */
  predicate Readable(x: Tried) {
    Placed(x) && (Classic(x.job) ==> ByteTemplate(TemplateOf(x.job)))
  }

  lemma AttemptIsBytes(u: Setup, x: Tried)
    requires Readable(x)
    ensures ByteAttempt(AttemptOf(u, x))
  {
    if Classic(x.job) {
      HeaderIsBytes(TemplateOf(x.job), x.worker);
    } else {
      PatchIsLocal(x.job.blob, BlobNonce(u, x));
      RawIsBytes(Patched(x.job.blob, BlobNonce(u, x)));
    }
  }

  function Hashed(g: Algorithm, u: Setup, x: Tried): seq<bv8>
    requires Readable(x)
  {
    AttemptIsBytes(u, x);
    InputOf(g, AttemptOf(u, x))
  }

  /** How far the worker is into its walk, counting the unreturned steps of a blob batch. */
  function Place(x: Tried): nat {
    if Classic(x.job) then x.turn else x.turn + x.made
  }

  function PlaceNonce(u: Setup, x: Tried): nat {
    NonceAt(StartNonce(x.worker), u.step, Place(x))
  }

  /** An entry of the log: its nonce is that of its place. */
  lemma EntryFacts(u: Setup, steps: seq<Step>, e: Engine, x: Tried)
    requires Proper(u) && After(u, steps) == Some(e) && x in e.log
    ensures Placed(x) && x.nonce == NonceAt(StartNonce(x.worker), u.step, x.turn)
    ensures PlaceNonce(u, x) == if Classic(x.job) then x.nonce else BlobNonce(u, x)
  {
    hide After, NonceAt, StartNonce;
    ReachableHolds(u, steps, e);
    var k :| 0 <= k < |e.log| && e.log[k] == x;
    assert TriedHolds(u, e, x);
    WalkOn(StartNonce(x.worker), u.step, x.turn, x.made);
  }

  // ------------------------------------------------------- any two hashes of a run

  /** Two hashes of one blob, by whichever workers: the nonce bytes that are hashed decide. */
  lemma BlobHashesAgree(g: Algorithm, u: Setup, steps: seq<Step>, e: Engine, x: Tried, y: Tried)
    requires Proper(u) && After(u, steps) == Some(e) && x in e.log && y in e.log
    requires !Classic(x.job) && x.job.blob == y.job.blob
    ensures Readable(x) && Readable(y)
    ensures Hashed(g, u, x) == Hashed(g, u, y)
       <==> PlaceNonce(u, x) / Lost(g, x.job.blob) == PlaceNonce(u, y) / Lost(g, x.job.blob)
  {
    EntryFacts(u, steps, e, x);
    EntryFacts(u, steps, e, y);
    hide After, NonceAt, StartNonce;
    BlobEntry(g, u, x);
    BlobEntry(g, u, y);
    hide BlobInput, Lost;
    BlobInputsAgree(g, x.job.blob, BlobNonce(u, x), BlobNonce(u, y));
  }

  lemma BlobEntry(g: Algorithm, u: Setup, x: Tried)
    requires Placed(x) && !Classic(x.job)
    ensures Readable(x) && Hashed(g, u, x) == BlobInput(g, x.job.blob, BlobNonce(u, x))
  {
  }

  /** Two hashes of one classic template, by whichever workers: the header as far as it is hashed, and the nonce. */
  lemma ClassicHashesAgree(g: Algorithm, u: Setup, steps: seq<Step>, e: Engine, x: Tried, y: Tried)
    requires Proper(u) && After(u, steps) == Some(e) && x in e.log && y in e.log
    requires Readable(x) && Readable(y) && Classic(x.job) && Classic(y.job)
    requires TemplateOf(x.job) == TemplateOf(y.job)
    requires ClassicWork.Holds(TemplateOf(x.job), x.worker) && ClassicWork.Holds(TemplateOf(x.job), y.worker)
    ensures Hashed(g, u, x) == Hashed(g, u, y)
       <==> Seen(TemplateOf(x.job), x.worker, Reach(g)) == Seen(TemplateOf(x.job), y.worker, Reach(g))
            && PlaceNonce(u, x) == PlaceNonce(u, y)
  {
    EntryFacts(u, steps, e, x);
    EntryFacts(u, steps, e, y);
    hide After, Reach, Seen;
    ClassicEntry(g, u, x);
    ClassicEntry(g, u, y);
    hide Work;
    WorkAgrees(g, TemplateOf(x.job), u.step, x.worker, x.turn, y.worker, y.turn);
  }

  lemma ClassicEntry(g: Algorithm, u: Setup, x: Tried)
    requires Readable(x) && Classic(x.job) && x.nonce == NonceAt(StartNonce(x.worker), u.step, x.turn)
    ensures Hashed(g, u, x) == Work(g, TemplateOf(x.job), u.step, x.worker, x.turn)
  {
    hide NonceAt, StartNonce, HashInput, Bytes;
  }

  // -------------------------------------------------- one worker repeating itself

  /** On one template or one blob. */
  predicate SameWork(x: Tried, y: Tried)
    requires Placed(x) && Placed(y)
  {
    if Classic(x.job) then Classic(y.job) && TemplateOf(x.job) == TemplateOf(y.job)
    else x.job.blob == y.job.blob
  }

  /**
   The law of one worker's work, in both branches and over any run: it tries an input
   again exactly when it is whole periods further on. Header hashes always go on; the
   hashes of a blob batch do not, so the next batch on the blob starts from the same place.
   */
  lemma OwnWorkRepeatsIff(u: Setup, steps: seq<Step>, e: Engine, x: Tried, y: Tried)
    requires Proper(u) && After(u, steps) == Some(e) && x in e.log && y in e.log && x.worker == y.worker
    ensures Placed(x) && Placed(y)
    ensures SameWork(x, y) ==>
              (AttemptOf(u, x) == AttemptOf(u, y) <==> Divides(Period(u.step), Place(x) - Place(y)))
  {
    EntryFacts(u, steps, e, x);
    EntryFacts(u, steps, e, y);
    if SameWork(x, y) {
      WalkRepeats(StartNonce(x.worker), u.step, Place(x), Place(y));
      if !Classic(x.job) {
        RawDistinct(x.job.blob, BlobNonce(u, x), BlobNonce(u, y));
      }
      hide After, NonceAt, StartNonce, Period, Patched, RawBytes, Header;
    }
  }

  /** Two batches of a worker on a blob job with no header hashed in between repeat index by index, shares and all. */
  lemma BatchesRepeat(u: Setup, steps: seq<Step>, e: Engine, x: Tried, y: Tried)
    requires Proper(u) && After(u, steps) == Some(e) && x in e.log && y in e.log && x.worker == y.worker
    requires !Classic(x.job) && x.job == y.job && x.turn == y.turn && x.made == y.made
    ensures Placed(x) && Placed(y)
    ensures AttemptOf(u, x) == AttemptOf(u, y) && ShareOf(u, x) == ShareOf(u, y)
    ensures x.threshold == y.threshold ==> (Wins(u, x) <==> Wins(u, y))
  {
    EntryFacts(u, steps, e, x);
    EntryFacts(u, steps, e, y);
    hide After, NonceAt, StartNonce, Patched, RawBytes;
  }

  lemma {:induction false} WinnerIsShared(u: Setup, log: seq<Tried>, x: Tried)
    requires AllPlaced(log) && x in log && Wins(u, x)
    ensures ShareOf(u, x) in Deserved(u, log)
  {
    hide Wins, ShareOf, Placed;
    if x in log[..|log| - 1] {
      WinnerIsShared(u, log[..|log| - 1], x);
    } else {
      assert x == log[|log| - 1];
      assert ShareOf(u, x) in Earned(u, x);
    }
  }

  /**
   From its second batch on a blob job a worker hashes nothing new: when it has made a
   whole batch of it since its last header, whatever it is about to hash is in the log,
   and a share it wins at the same threshold has already been submitted.
   */
  lemma SecondBatchIsOld(u: Setup, steps: seq<Step>, p: Engine, w: nat, x: Tried) returns (z: Tried)
    requires Proper(u) && After(u, steps) == Some(p) && Enabled(u, p, Hash(w)) && !Classic(p.workers[w].pc.job)
    requires x in p.log && x.worker == w && x.made == BATCH - 1
    requires x.job == p.workers[w].pc.job && x.turn == p.workers[w].turns
    ensures Placed(Trying(p, w)) && z in p.log && Placed(z) && z == x.(made := p.workers[w].pc.made)
    ensures AttemptOf(u, z) == AttemptOf(u, Trying(p, w)) && ShareOf(u, z) == ShareOf(u, Trying(p, w))
    ensures Wins(u, Trying(p, w)) && x.threshold == p.workers[w].pc.threshold ==>
              ShareOf(u, Trying(p, w)) in p.shares
  {
    z := x.(made := p.workers[w].pc.made);
    EarlierIsLogged(u, steps, p, x, z.made);
    EntryFacts(u, steps, p, z);
    NonceOfWorker(u, steps, p, w);
    hide After, NonceAt, StartNonce, Patched, RawBytes;
    if Wins(u, z) {
      SharesAreHonest(u, steps, p);
      WinnerIsShared(u, p.log, z);
    }
  }

  lemma EarlierIsLogged(u: Setup, steps: seq<Step>, p: Engine, x: Tried, i: nat)
    requires Proper(u) && After(u, steps) == Some(p) && x in p.log && !Classic(x.job) && i <= x.made
    ensures x.(made := i) in p.log
  {
    hide After;
    LogIsWhole(u, steps, p);
    assert EntryHolds(p, x);
  }

  lemma NonceOfWorker(u: Setup, steps: seq<Step>, p: Engine, w: nat)
    requires Proper(u) && After(u, steps) == Some(p) && w < |p.workers|
    ensures p.workers[w].nonce == NonceAt(StartNonce(w), u.step, p.workers[w].turns)
  {
    hide After, NonceAt, StartNonce;
    ReachableHolds(u, steps, p);
    assert WorkerHolds(u, p, w, p.workers[w]);
  }

  // ------------------------------------------------ two workers on one blob

  /** Two workers hashed the same input made from a blob. */
  ghost predicate HashedTwice(g: Algorithm, u: Setup, e: Engine, v: nat, w: nat, blob: string)
    requires AllPlaced(e.log) && blob != ""
  {
    exists x, y :: Spent(e, v, blob, x) && Spent(e, w, blob, y) && Hashed(g, u, x) == Hashed(g, u, y)
  }

  ghost predicate Worked(e: Engine, w: nat, blob: string) {
    exists x :: Spent(e, w, blob, x)
  }

  /**
   Where the whole nonce is hashed, as always by sha256d, the same input is hashed
   exactly when it was handed over twice; where none of it is, always.
   */
  lemma HashedTwiceIff(g: Algorithm, u: Setup, steps: seq<Step>, e: Engine, v: nat, w: nat, blob: string)
    requires Proper(u) && After(u, steps) == Some(e) && blob != ""
    ensures AllPlaced(e.log)
    ensures Kept(g, Slot(blob)) == 4 ==> (HashedTwice(g, u, e, v, w, blob) <==> Repeated(u, e, v, w, blob))
    ensures Kept(g, Slot(blob)) == 0 ==>
              (HashedTwice(g, u, e, v, w, blob) <==> Worked(e, v, blob) && Worked(e, w, blob))
  {
    LogFacts(u, steps, e);
    hide After, Kept, Slot, Placed, EntriesHold, AttemptOf, Hashed;
    forall x, y | Spent(e, v, blob, x) && Spent(e, w, blob, y)
      ensures Kept(g, Slot(blob)) == 4 ==>
                (Hashed(g, u, x) == Hashed(g, u, y) <==> AttemptOf(u, x) == AttemptOf(u, y))
      ensures Kept(g, Slot(blob)) == 0 ==> Hashed(g, u, x) == Hashed(g, u, y)
    {
      PairHashed(g, u, steps, e, x, y);
    }
  }

  lemma PairHashed(g: Algorithm, u: Setup, steps: seq<Step>, e: Engine, x: Tried, y: Tried)
    requires Proper(u) && After(u, steps) == Some(e) && x in e.log && y in e.log
    requires !Classic(x.job) && x.job.blob == y.job.blob
    ensures Readable(x) && Readable(y)
    ensures Kept(g, Slot(x.job.blob)) == 4 ==>
              (Hashed(g, u, x) == Hashed(g, u, y) <==> AttemptOf(u, x) == AttemptOf(u, y))
    ensures Kept(g, Slot(x.job.blob)) == 0 ==> Hashed(g, u, x) == Hashed(g, u, y)
  {
    BlobHashesAgree(g, u, steps, e, x, y);
    EntryFacts(u, steps, e, x);
    EntryFacts(u, steps, e, y);
    hide After, NonceAt, StartNonce;
    LostSizes(g, x.job.blob);
    RawDistinct(x.job.blob, BlobNonce(u, x), BlobNonce(u, y));
    NonceBounds(u, x);
    NonceBounds(u, y);
    hide Kept, Slot, Hashed, Patched, RawBytes, PlaceNonce;
    WholeOrNone(PlaceNonce(u, x), PlaceNonce(u, y), Lost(g, x.job.blob));
  }

  lemma NonceBounds(u: Setup, x: Tried)
    ensures PlaceNonce(u, x) < MODULUS
  {
  }

  lemma WholeOrNone(m: nat, n: nat, lost: nat)
    requires m < MODULUS && n < MODULUS && lost > 0
    ensures lost == 1 ==> (m / lost == n / lost <==> m == n)
    ensures lost == 0x1_0000_0000 ==> m / lost == n / lost
  {
    if lost == 0x1_0000_0000 {
      RemainderIs(m, lost, 0, m);
      RemainderIs(n, lost, 0, n);
    }
  }

  /**
   If only blobs are ever published and there are at most 256 workers, two of them hash
   the same input exactly when both worked on a blob of whose nonce nothing is hashed.
   */
  lemma OnlyBlobsHashedTwiceIff(g: Algorithm, u: Setup, steps: seq<Step>, e: Engine, v: nat, w: nat, blob: string)
    requires Proper(u) && After(u, steps) == Some(e) && blob != "" && v != w
    requires NoClassic(JobsOf(steps)) && u.workers <= 256 && u.step <= 256
    ensures AllPlaced(e.log)
    ensures HashedTwice(g, u, e, v, w, blob)
       <==> Kept(g, Slot(blob)) == 0 && Worked(e, v, blob) && Worked(e, w, blob)
  {
    LogFacts(u, steps, e);
    hide After, Kept, Slot, Placed, EntriesHold, Hashed;
    forall x, y | Spent(e, v, blob, x) && Spent(e, w, blob, y)
      ensures Hashed(g, u, x) == Hashed(g, u, y) <==> Kept(g, Slot(blob)) == 0
    {
      ListedHolds(e, x, v, blob);
      ListedHolds(e, y, w, blob);
      FreshPair(g, u, steps, e, x, y);
    }
  }

  lemma FreshPair(g: Algorithm, u: Setup, steps: seq<Step>, e: Engine, x: Tried, y: Tried)
    requires Proper(u) && After(u, steps) == Some(e) && x in e.log && y in e.log && x.worker != y.worker
    requires !Classic(x.job) && x.job.blob == y.job.blob && x.made < BATCH && y.made < BATCH
    requires NoClassic(JobsOf(steps)) && u.workers <= 256 && u.step <= 256
    ensures Readable(x) && Readable(y)
    ensures Hashed(g, u, x) == Hashed(g, u, y) <==> Kept(g, Slot(x.job.blob)) == 0
  {
    FreshEntry(u, steps, e, x);
    FreshEntry(u, steps, e, y);
    EntryFacts(u, steps, e, x);
    EntryFacts(u, steps, e, y);
    hide After, NonceAt, StartNonce, Kept, Slot;
    BlobEntry(g, u, x);
    BlobEntry(g, u, y);
    hide Hashed, BlobInput;
    FreshInputsDiffer(g, x.job.blob, x.worker, x.made, y.worker, y.made, u.step);
  }
}
