/**
 The engine with the sha256d of the code, and what a pool that recomputes SHA-256d
 itself makes of the shares.
 */
module PoolCheck {
  import opened Wrappers
  import opened Shares
  import opened Stratum
  import opened ShareTest
  import opened ByteNumbers
  import opened ClassicWork
  import opened BlobInputs
  import opened Workers
  import opened Algorithms
  import Sha256Spec

  function NoDigest(): Digest {
    seq(32, i => 0)
  }

  function Double(m: seq<bv8>): Digest {
    Sha256Spec.Sha256(Sha256Spec.Sha256(m))
  }

  /** The digest of the standard. */
  function Standard(a: Workers.Attempt): Digest {
    if ByteAttempt(a) then Double(InputOf(Sha256d, a)) else NoDigest()
  }

  /** The digest of the code: past 252 bytes of data the zeros it was handed stay. */
  function Coded(a: Workers.Attempt): Digest {
    if ByteAttempt(a) && |DataOf(a)| + 4 <= 256 then Double(InputOf(Sha256d, a)) else NoDigest()
  }

  function Engine256(workers: nat, step: nat): Setup {
    Setup(workers, step, Coded)
  }

  /** The same engine in the eyes of the pool. */
  function Pool256(workers: nat, step: nat): Setup {
    Setup(workers, step, Standard)
  }

  /** Headers always fit the buffer; blobs up to 505 characters do. */
  predicate InBuffer(job: MiningJob) {
    |job.blob| <= 505
  }

  lemma DigestsAgree(u: Setup, x: Tried)
    requires Readable(x)
    ensures Coded(AttemptOf(u, x)) == if InBuffer(x.job) then Standard(AttemptOf(u, x)) else NoDigest()
  {
    AttemptIsBytes(u, x);
    hide Double, InputOf;
    if Classic(x.job) {
      HeaderFits(TemplateOf(x.job), x.worker);
      hide Header;
    } else {
      BlobFits(x.job.blob, BlobNonce(u, x));
    }
  }

  lemma HeaderFits(t: Template, worker: nat)
    requires ByteText(Header(t, worker))
    ensures |Bytes(Header(t, worker))| + 4 <= 256
  {
  }

  lemma {:induction false} ZerosAreZero(n: nat)
    ensures BigEndianValue(seq(n, i => 0)) == 0
  {
    if n > 0 {
      ZerosAreZero(n - 1);
      var zeros: seq<bv8> := seq(n, i => 0);
      assert zeros[..n - 1] == seq(n - 1, i => 0);
    }
  }

  lemma NoDigestLeads()
    ensures BigEndianValue(NoDigest()[..8]) == 0
  {
    ZerosAreZero(8);
    assert NoDigest()[..8] == seq(8, i => 0);
  }

  /** Difficulties up to 2^64 leave a threshold something can fall below. */
  lemma ThresholdIsPositive(difficulty: real)
    ensures Threshold(difficulty) > 0 <==> difficulty <= TWO64 as real
  {
    if difficulty > 1.0 {
      ThresholdIsDivision(0, difficulty);
    } else {
      ThresholdInRange(difficulty);
    }
  }

  /** On a job that does not fit, every hash wins against any threshold but zero. */
  lemma OversizeAlwaysWins(workers: nat, step: nat, x: Tried)
    requires Readable(x) && !InBuffer(x.job)
    ensures Wins(Engine256(workers, step), x) <==> x.threshold > 0 && x.job.jobId != STANDBY
  {
    var u := Engine256(workers, step);
    DigestsAgree(u, x);
    NoDigestLeads();
    hide Coded, AttemptOf, BigEndianValue;
  }

  /** On a job that fits, a hash wins exactly when the standard's digest meets the threshold. */
  lemma FittingWinsIff(workers: nat, step: nat, x: Tried)
    requires Readable(x) && InBuffer(x.job)
    ensures Wins(Engine256(workers, step), x) <==> Wins(Pool256(workers, step), x)
  {
    DigestsAgree(Engine256(workers, step), x);
    assert AttemptOf(Engine256(workers, step), x) == AttemptOf(Pool256(workers, step), x);
    hide Coded, Standard, AttemptOf, BigEndianValue;
  }

  /** And then its share verifies for a pool that recomputes SHA-256d. */
  lemma FittingShareVerifies(workers: nat, step: nat, x: Tried, difficulty: real)
    requires Readable(x) && InBuffer(x.job) && Wins(Engine256(workers, step), x)
    requires x.threshold == Threshold(difficulty)
    ensures Verifies(Pool256(workers, step), x.job, difficulty, ShareOf(Engine256(workers, step), x))
  {
    FittingWinsIff(workers, step, x);
    assert ShareOf(Engine256(workers, step), x) == ShareOf(Pool256(workers, step), x);
    hide Wins, ShareOf, Verifies, Placed, Threshold;
    WinnerVerifies(Pool256(workers, step), x, difficulty);
  }

  /** A share of the engine the pool's own recomputation confirms. */
  ghost predicate Confirmed(workers: nat, step: nat, e: Engine, share: Share) {
    Justified(Pool256(workers, step), e, share)
  }

  predicate FromOversize(u: Setup, e: Engine, share: Share, k: nat) {
    k < |e.log| && Placed(e.log[k]) && !InBuffer(e.log[k].job) && share == ShareOf(u, e.log[k])
  }

  /** A hash on a job that does not fit, which the engine takes for a share. */
  predicate Swamps(x: Tried) {
    !InBuffer(x.job) && x.threshold > 0 && x.job.jobId != STANDBY
  }

  predicate ReadableLog(log: seq<Tried>) {
    forall k :: 0 <= k < |log| ==> Readable(log[k])
  }

  lemma {:induction false} ShareHasWinner(u: Setup, log: seq<Tried>, share: Share) returns (k: nat)
    requires AllPlaced(log) && share in Deserved(u, log)
    ensures k < |log| && Wins(u, log[k]) && share == ShareOf(u, log[k])
  {
    hide Wins, ShareOf, Placed;
    if share in Deserved(u, log[..|log| - 1]) {
      k := ShareHasWinner(u, log[..|log| - 1], share);
    } else {
      k := |log| - 1;
    }
  }

  lemma WinnerIsAccounted(workers: nat, step: nat, steps: seq<Step>, e: Engine, k: nat)
    requires Proper(Engine256(workers, step)) && After(Engine256(workers, step), steps) == Some(e)
    requires k < |e.log| && Readable(e.log[k]) && Wins(Engine256(workers, step), e.log[k])
    ensures var share := ShareOf(Engine256(workers, step), e.log[k]);
            Confirmed(workers, step, e, share) || FromOversize(Engine256(workers, step), e, share, k)
  {
    var u, x := Engine256(workers, step), e.log[k];
    if InBuffer(x.job) {
      TriedOn(u, steps, e, k);
      hide After, Wins, ShareOf, Verifies, Threshold, Minable;
      FittingShareVerifies(workers, step, x, e.difficulties[x.aim]);
      assert EarnedBy(Pool256(workers, step), e, x, ShareOf(u, x));
      assert Justified(Pool256(workers, step), e, ShareOf(u, x));
    }
  }

  lemma TriedOn(u: Setup, steps: seq<Step>, e: Engine, k: nat)
    requires Proper(u) && After(u, steps) == Some(e) && k < |e.log|
    ensures Names(e, e.log[k].at, e.log[k].job) && Aimed(e, e.log[k].aim, e.log[k].threshold)
  {
    hide After;
    ReachableHolds(u, steps, e);
    assert TriedHolds(u, e, e.log[k]);
  }

  /**
   Over any run on jobs of bytes: each share submitted is confirmed by the standard's
   SHA-256d, or comes from a blob too long for the buffer; and on such a blob, unless
   the job is the standby one, every single hash below difficulty 2^64 is submitted.
   */
  lemma SharesUnderStandard(workers: nat, step: nat, steps: seq<Step>, e: Engine)
    requires Proper(Engine256(workers, step)) && After(Engine256(workers, step), steps) == Some(e)
    requires ReadableLog(e.log)
    ensures forall s :: s in e.shares ==>
              Confirmed(workers, step, e, s) || exists k :: FromOversize(Engine256(workers, step), e, s, k)
    ensures forall k :: 0 <= k < |e.log| && Swamps(e.log[k]) ==>
              ShareOf(Engine256(workers, step), e.log[k]) in e.shares
  {
    var u := Engine256(workers, step);
    hide After, InBuffer, ShareOf, Wins, Proper, Confirmed, FromOversize, Placed;
    SharesAreHonest(u, steps, e);
    forall s | s in e.shares
      ensures Confirmed(workers, step, e, s) || exists k :: FromOversize(u, e, s, k)
    {
      var k := ShareHasWinner(u, e.log, s);
      WinnerIsAccounted(workers, step, steps, e, k);
    }
    forall k | 0 <= k < |e.log| && Swamps(e.log[k])
      ensures ShareOf(u, e.log[k]) in e.shares
    {
      OversizeAlwaysWins(workers, step, e.log[k]);
      WinnerIsShared(u, e.log, e.log[k]);
    }
  }
}
