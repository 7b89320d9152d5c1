/**
 The nonce walks of miner::MinerEngine: start at worker * 2^24, advance by a fixed
 step, everything modulo 2^32. How far a walk goes before it repeats, and which
 nonces it meets, is decided by the power of two in the step.
 */
module Nonces {
  import opened Powers
  import opened Divisibility

  const MODULUS: nat := 0x1_0000_0000
  const WORKER_STRIDE: nat := 0x100_0000
  const BATCH: nat := 2048

  function StartNonce(worker: nat): nat {
    worker * WORKER_STRIDE % MODULUS
  }

  /** The nonce after k advances. */
  function NonceAt(start: nat, step: nat, k: nat): nat {
    (start + k * step) % MODULUS
  }

  /** The classic batch loop: the nonces hashed, and the nonce the next batch starts from. */
  method ClassicNonces(start: nat, step: nat) returns (nonces: seq<nat>, next: nat)
    requires start < MODULUS
    ensures |nonces| == BATCH && forall k :: 0 <= k < BATCH ==> nonces[k] == NonceAt(start, step, k)
    ensures next == NonceAt(start, step, BATCH)
  {
    nonces, next := [], start;
    for i := 0 to BATCH
      invariant |nonces| == i && forall k :: 0 <= k < i ==> nonces[k] == NonceAt(start, step, k)
      invariant next == NonceAt(start, step, i)
    {
      nonces := nonces + [next];
      AdvanceOnce(start, step, i);
      next := (next + step) % MODULUS;
    }
  }

  lemma AdvanceOnce(start: nat, step: nat, k: nat)
    ensures (NonceAt(start, step, k) + step) % MODULUS == NonceAt(start, step, k + 1)
  {
    NextMultiple(k, step);
    ModSum(start + k * step, step);
  }

  lemma NextMultiple(k: nat, step: nat)
    ensures (k + 1) * step == k * step + step
  {
  }

  lemma ModSum(x: nat, y: nat)
    ensures (x % MODULUS + y) % MODULUS == (x + y) % MODULUS
  {
  }

  /** A walk can be resumed where it stopped. */
  lemma WalkOn(start: nat, step: nat, j: nat, k: nat)
    ensures NonceAt(NonceAt(start, step, j), step, k) == NonceAt(start, step, j + k)
  {
    ModSum(start + j * step, k * step);
    assert (j + k) * step == j * step + k * step;
  }

  lemma StartIsNonce(worker: nat, step: nat)
    ensures NonceAt(StartNonce(worker), step, 0) == StartNonce(worker) < MODULUS
  {
  }

  lemma ModulusIsPow2()
    ensures Power(2, 32) == MODULUS && Power(2, 24) == WORKER_STRIDE
    ensures Power(2, 22) == 0x40_0000 && Power(2, 11) == BATCH
  {
    assert Power(2, 8) == 256 && Power(2, 3) == 8 && Power(2, 6) == 64;
    Pow2Add(8, 8);
    Pow2Add(16, 16);
    Pow2Add(16, 8);
    Pow2Add(16, 6);
    Pow2Add(8, 3);
  }

  // -------------------------------------------------------- periods and orbits

  /** Advances before a walk repeats: 2^32 over the largest power of two in the step. */
  function Period(step: nat): nat
    requires 0 < step < MODULUS
  {
    FewTwos(step);
    Power(2, 32 - Twos(step))
  }

  lemma FewTwos(step: nat)
    requires 0 < step < MODULUS
    ensures Twos(step) < 32
  {
    Factor(step);
    ModulusIsPow2();
    if Twos(step) >= 32 {
      Pow2Add(32, Twos(step) - 32);
      AtLeast(MODULUS, Power(2, Twos(step) - 32));
      AtLeast(Power(2, Twos(step)), OddPart(step));
    }
  }

  /** The step is a power of two times an odd number, and that power times the period is the modulus. */
  lemma StepParts(step: nat) returns (p: nat, odd: nat, t: nat)
    requires 0 < step < MODULUS
    ensures t == Twos(step) < 32 && p == Power(2, t) && odd % 2 == 1
    ensures step == p * odd && MODULUS == p * Period(step)
  {
    FewTwos(step);
    Factor(step);
    ModulusIsPow2();
    t := Twos(step);
    p, odd := Power(2, t), OddPart(step);
    Pow2Add(t, 32 - t);
  }

  /** d advances come back to the same nonce exactly when d is a multiple of the period. */
  lemma AdvancesRepeat(step: nat, d: int)
    requires 0 < step < MODULUS
    ensures Divides(MODULUS, d * step) <==> Divides(Period(step), d)
  {
    var p, odd, t := StepParts(step);
    hide Twos, Power, OddPart;
    Swap(d, p, odd);
    CancelFactor(p, Period(step), d * odd);
    OddCancels(32 - t, d, odd);
  }

  /** Two moments of a walk meet the same nonce exactly when they are whole periods apart. */
  lemma WalkRepeats(start: nat, step: nat, j: nat, k: nat)
    requires 0 < step < MODULUS
    ensures NonceAt(start, step, j) == NonceAt(start, step, k) <==> Divides(Period(step), j - k)
  {
    hide Period;
    SameResidue(start + j * step, start + k * step, MODULUS);
    Distribute(step, j, k);
    AdvancesRepeat(step, j - k);
  }

  /** Within one period no nonce is met twice. */
  lemma WalkInjective(start: nat, step: nat, j: nat, k: nat)
    requires 0 < step < MODULUS && j < Period(step) && k < Period(step)
    ensures NonceAt(start, step, j) == NonceAt(start, step, k) <==> j == k
  {
    hide NonceAt;
    WalkRepeats(start, step, j, k);
    SmallMultiple(Period(step), j - k);
  }

  /** A nonce the walk can reach: it agrees with the start modulo the power of two in the step. */
  predicate InOrbit(start: nat, step: nat, n: nat)
    requires step > 0
  {
    n < MODULUS && n % Power(2, Twos(step)) == start % Power(2, Twos(step))
  }

  lemma FindStep(start: nat, step: nat, n: nat) returns (k: nat)
    requires 0 < step < MODULUS && InOrbit(start, step, n)
    ensures k < Period(step) && NonceAt(start, step, k) == n
  {
    var p, odd, t := StepParts(step);
    assert Period(step) == Power(2, 32 - t);
    var c := OrbitQuotient(start, step, n, p);
    assert n < MODULUS;
    hide Twos, Power, OddPart, Period, Divides, NonceAt, InOrbit;
    k := Solve(odd, c, 32 - t);
    Landing(start, step, n, k, p, odd, c, Period(step));
    NonceIs(start, step, k, n);
  }

  lemma OrbitQuotient(start: nat, step: nat, n: nat, p: nat) returns (c: int)
    requires step > 0 && InOrbit(start, step, n) && p == Power(2, Twos(step))
    ensures n - start == p * c
  {
    SameResidue(n, start, p);
    c := Quotient(p, n - start);
  }

  lemma NonceIs(start: nat, step: nat, k: nat, n: nat)
    requires n < MODULUS && Divides(MODULUS, start + k * step - n)
    ensures NonceAt(start, step, k) == n
  {
    SameResidue(start + k * step, n, MODULUS);
  }

  lemma Landing(start: nat, step: nat, n: nat, k: nat, p: int, odd: int, c: int, period: int)
    requires p > 0 && step == p * odd && MODULUS == p * period && n - start == p * c
    requires Divides(period, k * odd - c)
    ensures Divides(MODULUS, start + k * step - n)
  {
    hide Divides;
    CancelFactor(p, period, k * odd - c);
    Distribute(p, k * odd, c);
    Swap(p, k, odd);
  }

  /** Each walk covers its residue class, once per period. */
  lemma WalkCovers(start: nat, step: nat, n: nat) returns (k: nat)
    requires 0 < step < MODULUS && InOrbit(start, step, n)
    ensures k < Period(step) && NonceAt(start, step, k) == n
    ensures forall j: nat :: j < Period(step) && NonceAt(start, step, j) == n ==> j == k
  {
    k := FindStep(start, step, n);
    hide NonceAt, InOrbit, Period;
    forall j: nat | j < Period(step) && NonceAt(start, step, j) == n ensures j == k {
      WalkInjective(start, step, j, k);
    }
  }

  /** And never leaves it. */
  lemma WalkStays(start: nat, step: nat, k: nat)
    requires 0 < step < MODULUS
    ensures InOrbit(start, step, NonceAt(start, step, k))
  {
    var p, odd, t := StepParts(step);
    var x := start + k * step;
    var m, q := Period(step), x / MODULUS;
    hide Period;
    assert x == MODULUS * q + x % MODULUS;
    MulAssoc(p, m, q);
    Swap(p, k, odd);
    Distribute(p, k * odd, m * q);
    DividesBy(p, x % MODULUS - start, k * odd - m * q);
    SameResidue(x % MODULUS, start, p);
  }
}
