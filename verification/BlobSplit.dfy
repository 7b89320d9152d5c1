/**
 Which published histories let two workers hash the same blob input: exactly when a run
 can do so, for an engine whose step is the number of its workers.
 */
module BlobSplit {
  import opened Powers
  import opened Wrappers
  import opened Stratum
  import opened Nonces
  import opened Divisibility
  import opened Blob
  import opened ClassicWork
  import opened Workers
  import opened BlobRuns
  import opened StandbyRun

  predicate IsBlob(job: MiningJob) {
    Hashable(job) && !Classic(job)
  }

  // ------------------------------------------- only a header advances a worker

  ghost predicate HashedHeader(log: seq<Tried>, w: nat, at: int) {
    exists j :: 0 <= j < |log| && log[j].worker == w && Classic(log[j].job) && log[j].at <= at
  }

  ghost predicate TurnsHold(e: Engine) {
    && (forall w :: 0 <= w < |e.workers| && e.workers[w].turns > 0 ==> exists at :: HashedHeader(e.log, w, at))
    && (forall k :: 0 <= k < |e.log| && e.log[k].turn > 0 ==> HashedHeader(e.log, e.log[k].worker, e.log[k].at))
  }

  lemma HeaderStays(log: seq<Tried>, more: seq<Tried>, w: nat, at: int)
    requires HashedHeader(log, w, at)
    ensures HashedHeader(log + more, w, at)
  {
    var j :| 0 <= j < |log| && log[j].worker == w && Classic(log[j].job) && log[j].at <= at;
    assert (log + more)[j] == log[j];
  }

  lemma TurnMoves(u: Setup, e: Engine, step: Step, w: nat)
    requires Enabled(u, e, step) && w < |e.workers|
    ensures |Next(u, e, step).workers| == |e.workers|
    ensures Next(u, e, step).workers[w].turns == e.workers[w].turns
         || (step == Hash(w) && Classic(e.workers[w].pc.job))
  {
    hide AttemptOf, ShareOf, Wins, Placed, NonceAt;
  }

  lemma TurnsKept(u: Setup, e: Engine, step: Step)
    requires TurnsHold(e) && OrderHolds(e) && Enabled(u, e, step)
    ensures TurnsHold(Next(u, e, step))
  {
    var n := Next(u, e, step);
    StepLogs(u, e, step);
    var more := if step.Hash? then [Trying(e, step.w)] else [];
    assert n.log == e.log + more;
    assert |n.workers| == |e.workers|;
    forall w | 0 <= w < |n.workers| && n.workers[w].turns > 0 ensures exists at :: HashedHeader(n.log, w, at) {
      TurnMoves(u, e, step, w);
      hide Next, Enabled, OrderHolds;
      if n.workers[w].turns == e.workers[w].turns {
        var at :| HashedHeader(e.log, w, at);
        HeaderStays(e.log, more, w, at);
      } else {
        assert n.log[|e.log|] == Trying(e, w);
        assert HashedHeader(n.log, w, Trying(e, w).at);
      }
    }
    forall k | 0 <= k < |n.log| && n.log[k].turn > 0 ensures HashedHeader(n.log, n.log[k].worker, n.log[k].at) {
      if k < |e.log| {
        assert n.log[k] == e.log[k];
        HeaderStays(e.log, more, e.log[k].worker, e.log[k].at);
      } else {
        EarlierHeader(e, step.w);
        HeaderStays(e.log, more, step.w, Trying(e, step.w).at);
      }
    }
  }

  lemma EarlierHeader(e: Engine, w: nat)
    requires TurnsHold(e) && OrderHolds(e) && w < |e.workers| && e.workers[w].pc.Hashing? && e.workers[w].turns > 0
    ensures HashedHeader(e.log, w, Trying(e, w).at)
  {
    var at :| HashedHeader(e.log, w, at);
    var j :| 0 <= j < |e.log| && e.log[j].worker == w && Classic(e.log[j].job) && e.log[j].at <= at;
    assert Behind(e.log[j], e.workers[w]);
  }

  lemma {:induction false} TurnsHoldInRuns(u: Setup, steps: seq<Step>, e: Engine)
    requires Proper(u) && After(u, steps) == Some(e)
    ensures TurnsHold(e)
    decreases steps
  {
    hide Enabled, Next, TurnsHold;
    if steps == [] {
      NoTurnsYet(u);
    } else {
      var init := steps[..|steps| - 1];
      var p := After(u, init).value;
      TurnsHoldInRuns(u, init, p);
      ReachableHolds(u, init, p);
      TurnsKept(u, p, steps[|steps| - 1]);
    }
  }

  lemma NoTurnsYet(u: Setup)
    ensures TurnsHold(Initial(u))
  {
  }

  /** A worker that is off its first nonce when it hashes a blob has seen a header job before it. */
  lemma MovedBySomeHeader(u: Setup, steps: seq<Step>, e: Engine, x: Tried) returns (i: nat)
    requires Proper(u) && After(u, steps) == Some(e) && x in e.log && !Classic(x.job) && x.turn > 0
    ensures 0 <= i < x.at < |e.history| && Classic(e.history[i]) && e.history[x.at] == x.job
  {
    hide After, TurnsHold, QueueHolds, WorkersHold, OrderHolds, BatchesHold, SharesHold;
    TurnsHoldInRuns(u, steps, e);
    ReachableHolds(u, steps, e);
    i := HeaderOfEntry(u, e, x);
  }

  lemma HeaderOfEntry(u: Setup, e: Engine, x: Tried) returns (i: nat)
    requires LogHolds(u, e) && TurnsHold(e) && x in e.log && !Classic(x.job) && x.turn > 0
    ensures 0 <= i < x.at < |e.history| && Classic(e.history[i]) && e.history[x.at] == x.job
  {
    hide Minable, Aimed, NonceAt, StartNonce, Placed;
    var k :| 0 <= k < |e.log| && e.log[k] == x;
    assert TriedHolds(u, e, e.log[k]) && HashedHeader(e.log, x.worker, x.at);
    var j :| 0 <= j < |e.log| && e.log[j].worker == x.worker && Classic(e.log[j].job) && e.log[j].at <= x.at;
    assert TriedHolds(u, e, e.log[j]);
    i := e.log[j].at;
  }

  // ---------------------------------------------------------- runs that repeat

  /** A blob is published, with more than 256 workers or after a header job. */
  ghost predicate Exposed(workers: nat, jobs: seq<MiningJob>) {
    workers >= 2 && exists k :: 0 <= k < |jobs| && IsBlob(jobs[k]) && (workers > 256 || HeaderBefore(jobs, k))
  }

  ghost predicate HeaderBefore(jobs: seq<MiningJob>, k: nat)
    requires k <= |jobs|
  {
    exists i :: 0 <= i < k && Classic(jobs[i])
  }

  /** Some run that publishes these jobs has two workers hash one blob input. */
  ghost predicate CanRepeat(u: Setup, jobs: seq<MiningJob>) {
    exists e, v, w, blob :: Reached(u, e) && e.history == jobs && RepeatsIn(u, e, v, w, blob)
  }

  ghost predicate RepeatsIn(u: Setup, e: Engine, v: nat, w: nat, blob: string) {
    v != w && blob != "" && AllPlaced(e.log) && Repeated(u, e, v, w, blob)
  }

  lemma OnlyExposedRepeat(u: Setup, e: Engine, v: nat, w: nat, blob: string)
    requires Proper(u) && u.step == u.workers && Reached(u, e) && RepeatsIn(u, e, v, w, blob)
    ensures Exposed(u.workers, e.history)
  {
    var steps :| After(u, steps) == Some(e);
    hide After, AttemptOf, Placed, Apart, NonceAt, StartNonce, Exposed;
    var x, y :| Spent(e, v, blob, x) && Spent(e, w, blob, y) && AttemptOf(u, x) == AttemptOf(u, y);
    var i := JobOfEntry(u, steps, e, x);
    var j := JobOfEntry(u, steps, e, y);
    if x.turn > 0 {
      var h := MovedBySomeHeader(u, steps, e, x);
      assert HeaderBefore(e.history, x.at);
      ExposedBy(u.workers, e.history, x.at);
    } else if y.turn > 0 {
      var h := MovedBySomeHeader(u, steps, e, y);
      assert HeaderBefore(e.history, y.at);
      ExposedBy(u.workers, e.history, y.at);
    } else {
      FreshMeet(u, steps, e, x, y);
      ExposedBy(u.workers, e.history, i);
    }
  }

  lemma ExposedBy(workers: nat, jobs: seq<MiningJob>, k: nat)
    requires workers >= 2 && k < |jobs| && IsBlob(jobs[k]) && (workers > 256 || HeaderBefore(jobs, k))
    ensures Exposed(workers, jobs)
  {
  }

  lemma JobOfEntry(u: Setup, steps: seq<Step>, e: Engine, x: Tried) returns (i: nat)
    requires Proper(u) && After(u, steps) == Some(e) && x in e.log && !Classic(x.job)
    ensures i == x.at < |e.history| && e.history[i] == x.job && IsBlob(x.job) && x.worker < u.workers
    ensures x.nonce == NonceAt(StartNonce(x.worker), u.step, x.turn) && Placed(x) && x.made < BATCH
  {
    hide After, NonceAt, StartNonce;
    ReachableHolds(u, steps, e);
    LogFacts(u, steps, e);
    var k :| 0 <= k < |e.log| && e.log[k] == x;
    assert TriedHolds(u, e, x) && EntryHolds(e, x);
    i := x.at;
  }

  /** From their first nonces only more than 256 workers meet. */
  lemma FreshMeet(u: Setup, steps: seq<Step>, e: Engine, x: Tried, y: Tried)
    requires Proper(u) && u.step == u.workers && After(u, steps) == Some(e) && x in e.log && y in e.log
    requires !Classic(x.job) && x.job.blob == y.job.blob && x.worker != y.worker && x.turn == 0 && y.turn == 0
    requires Placed(x) && Placed(y) && AttemptOf(u, x) == AttemptOf(u, y)
    ensures u.workers > 256
  {
    var i := JobOfEntry(u, steps, e, x);
    var j := JobOfEntry(u, steps, e, y);
    StartIsNonce(x.worker, u.step);
    StartIsNonce(y.worker, u.step);
    hide After, AttemptOf, Placed, Apart, NonceAt, StartNonce, Overlap;
    TriesAgree(u, x, y);
    if u.workers <= 256 {
      FreshDisjoint(x.worker, y.worker, u.step);
      NotApart(StartNonce(x.worker), StartNonce(y.worker), u.step, x.made - y.made);
    }
  }

  // -------------------------------------------------------------- the schedules

  lemma {:induction false} PublishAll(u: Setup, e: Engine, jobs: seq<MiningJob>) returns (n: Engine)
    requires Reached(u, e) && forall k :: 0 <= k < |jobs| ==> Minable(jobs[k])
    ensures Reached(u, n) && n.history == e.history + jobs
    ensures n.workers == e.workers && n.running == e.running && n.log == e.log
    ensures jobs != [] ==> n.slot.current == Some(jobs[|jobs| - 1])
    decreases |jobs|
  {
    hide Reached, Minable;
    if jobs == [] {
      n := e;
      assert e.history + jobs == e.history;
    } else {
      var init, last := jobs[..|jobs| - 1], jobs[|jobs| - 1];
      var m := PublishAll(u, e, init);
      n := Onward(u, m, Publish(last));
      assert e.history + init + [last] == e.history + jobs;
    }
  }

  /** m hashes of a blob batch. */
  lemma {:induction false} HashBlob(u: Setup, e: Engine, w: nat, m: nat) returns (n: Engine)
    requires Proper(u) && Reached(u, e) && w < |e.workers|
    requires e.workers[w].pc.Hashing? && e.workers[w].pc.made + m <= BATCH && !Classic(e.workers[w].pc.job)
    ensures Reached(u, n) && OnlyMoved(e, n, w)
    ensures n.workers[w] == e.workers[w].(pc := e.workers[w].pc.(made := e.workers[w].pc.made + m))
    decreases m
  {
    if m == 0 {
      n := e;
    } else {
      var d := HashOnce(u, e, w);
      hide Reached;
      n := HashBlob(u, d, w, m - 1);
    }
  }

  /** A worker takes the current blob and hashes it r + 1 times. */
  lemma TakeBlobTo(u: Setup, e: Engine, w: nat, job: MiningJob, r: nat) returns (n: Engine, x: Tried)
    requires Proper(u) && Reached(u, e) && e.running && w < |e.workers| && e.workers[w].pc.Looking?
    requires e.slot.current == Some(job) && IsBlob(job) && r < BATCH
    ensures Reached(u, n) && OnlyMoved(e, n, w) && Placed(x) && Spent(n, w, job.blob, x) && x.made == r
    ensures x.nonce == NonceAt(StartNonce(w), u.step, e.workers[w].turns)
  {
    hide Reached, Hashable, StartNonce, NonceAt, Placed;
    var a := StartBatch(u, e, w, job);
    var b := HashBlob(u, a, w, r);
    TryIsPlaced(u, b, w);
    x := Trying(b, w);
    n := HashOnce(u, b, w);
    assert n.log[|b.log|] == x;
  }

  lemma StillSpent(e: Engine, n: Engine, w: nat, blob: string, x: Tried)
    requires Spent(e, w, blob, x) && e.log <= n.log
    ensures Spent(n, w, blob, x)
  {
    var k :| 0 <= k < |e.log| && e.log[k] == x;
    assert n.log[k] == x;
  }

  lemma PublishRest(u: Setup, e: Engine, jobs: seq<MiningJob>, k: nat, v: nat, w: nat, x: Tried, y: Tried)
    requires Proper(u) && Reached(u, e) && k < |jobs| && e.history == jobs[..k + 1] && v != w
    requires forall i :: 0 <= i < |jobs| ==> Minable(jobs[i])
    requires !Classic(jobs[k]) && Spent(e, v, jobs[k].blob, x) && Spent(e, w, jobs[k].blob, y)
    requires Placed(x) && Placed(y) && AttemptOf(u, x) == AttemptOf(u, y)
    ensures CanRepeat(u, jobs)
  {
    hide Reached, Minable, AttemptOf, Placed;
    var n := PublishAll(u, e, jobs[k + 1..]);
    assert jobs[..k + 1] + jobs[k + 1..] == jobs;
    StillSpent(e, n, v, jobs[k].blob, x);
    StillSpent(e, n, w, jobs[k].blob, y);
    ReachedIsPlaced(u, n);
    assert RepeatsIn(u, n, v, w, jobs[k].blob);
  }

  lemma Start(u: Setup) returns (e: Engine)
    requires Proper(u)
    ensures Reached(u, e) && e == Initial(u)
  {
    e := Initial(u);
    assert After(u, []) == Some(e);
  }

  /** With more than 256 workers the first blob will do. */
  lemma ManyRepeat(u: Setup, jobs: seq<MiningJob>, k: nat)
    requires Proper(u) && u.workers > 256 && k < |jobs| && IsBlob(jobs[k])
    requires forall i :: 0 <= i < |jobs| ==> Minable(jobs[i])
    ensures CanRepeat(u, jobs)
  {
    var a := Start(u);
    hide Reached, Minable, Hashable, NonceAt, Placed, AttemptOf, Apart, CanRepeat;
    var b := PublishAll(u, a, jobs[..k + 1]);
    assert a.history + jobs[..k + 1] == jobs[..k + 1];
    assert b.slot.current == Some(jobs[k]);
    assert StartNonce(0) == StartNonce(256);
    assert b.workers[0].pc.Looking? && b.workers[256].pc.Looking? && b.workers[0].turns == b.workers[256].turns == 0;
    hide StartNonce;
    BothHash(u, b, jobs, k, 256, 0);
  }

  /** Worker 0 and worker w take the blob where r steps bring the first to the second, and hash it up to there. */
  lemma BothHash(u: Setup, e: Engine, jobs: seq<MiningJob>, k: nat, w: nat, r: nat)
    requires Proper(u) && Reached(u, e) && e.running && 0 < w < |e.workers|
    requires e.workers[0].pc.Looking? && e.workers[w].pc.Looking? && r < BATCH
    requires k < |jobs| && IsBlob(jobs[k]) && e.history == jobs[..k + 1] && e.slot.current == Some(jobs[k])
    requires forall i :: 0 <= i < |jobs| ==> Minable(jobs[i])
    requires NonceAt(NonceAt(StartNonce(0), u.step, e.workers[0].turns), u.step, r)
          == NonceAt(NonceAt(StartNonce(w), u.step, e.workers[w].turns), u.step, 0)
    ensures CanRepeat(u, jobs)
  {
    hide Reached, Minable, Hashable, NonceAt, StartNonce, Placed, AttemptOf, Apart, CanRepeat;
    var f, x := TakeBlobTo(u, e, 0, jobs[k], r);
    var g, y := TakeBlobTo(u, f, w, jobs[k], 0);
    StillSpent(f, g, 0, jobs[k].blob, x);
    SameNonceIff(x.nonce, r, y.nonce, 0, u.step);
    TriesAgree(u, x, y);
    PublishRest(u, g, jobs, k, 0, w, x, y);
  }

  lemma {:induction false} FewTwosIn(n: nat)
    requires 0 < n <= 256
    ensures Twos(n) <= 24
  {
    Factor(n);
    if Twos(n) > 24 {
      Pow2Add(25, Twos(n) - 25);
      ModulusIsPow2();
      Pow2Add(1, 24);
      AtLeast(Power(2, 25), Power(2, Twos(n) - 25));
      AtLeast(Power(2, Twos(n)), OddPart(n));
    }
  }

  /** How many headers worker 0 has to hash to come to the first nonce of worker 1. */
  lemma HeadersToMeet(step: nat) returns (q: nat, r: nat)
    requires 0 < step <= 256
    ensures r < BATCH
    ensures NonceAt(NonceAt(StartNonce(0), step, q * BATCH), step, r) == NonceAt(StartNonce(1), step, 0)
  {
    FewTwosIn(step);
    StartsAgree(step, 1, 0);
    StartIsNonce(1, step);
    var k := WalkCovers(StartNonce(0), step, StartNonce(1));
    q, r := k / BATCH, k % BATCH;
    hide StartNonce;
    WalkOn(StartNonce(0), step, q * BATCH, r);
  }

  /** Worker 0 spends q batches on a header job before the blob arrives. */
  lemma HeadersThenBlob(u: Setup, jobs: seq<MiningJob>, i: nat, k: nat, q: nat) returns (d: Engine)
    requires Proper(u) && u.workers >= 2 && i < k < |jobs| && Hashable(jobs[i]) && Classic(jobs[i])
    requires forall j :: 0 <= j < |jobs| ==> Minable(jobs[j])
    ensures Reached(u, d) && d.running && d.history == jobs[..k + 1] && d.slot.current == Some(jobs[k])
    ensures |d.workers| >= 2 && d.workers[0].pc.Looking? && d.workers[1].pc.Looking?
    ensures d.workers[0].turns == q * BATCH && d.workers[1].turns == 0
  {
    var a := Start(u);
    hide Reached, Minable, Hashable, StartNonce;
    var b := PublishAll(u, a, jobs[..i + 1]);
    assert b.slot.current == Some(jobs[i]);
    var c := Batches(u, b, 0, jobs[i], q);
    d := PublishAll(u, c, jobs[i + 1..k + 1]);
    assert a.history + jobs[..i + 1] + jobs[i + 1..k + 1] == jobs[..k + 1];
  }

  /** After a header job worker 0 can be brought to where worker 1 starts, then both take the blob. */
  lemma HeaderRepeats(u: Setup, jobs: seq<MiningJob>, i: nat, k: nat)
    requires Proper(u) && u.step == u.workers && 2 <= u.workers <= 256
    requires i < k < |jobs| && Classic(jobs[i]) && IsBlob(jobs[k])
    requires forall j :: 0 <= j < |jobs| ==> Minable(jobs[j])
    ensures CanRepeat(u, jobs)
  {
    var q, r := HeadersToMeet(u.step);
    ClassicIsHashable(jobs[i]);
    hide Reached, Minable, Hashable, NonceAt, StartNonce, CanRepeat;
    var d := HeadersThenBlob(u, jobs, i, k, q);
    StartIsNonce(1, u.step);
    BothHash(u, d, jobs, k, 1, r);
  }

  lemma ClassicIsHashable(job: MiningJob)
    requires Minable(job) && Classic(job)
    ensures Hashable(job)
  {
  }

  /**
   The exact condition, on what is published: some run repeats a blob input between two
   workers if and only if a blob comes after a header job, or there are more than 256
   workers and a blob at all.
   */
  lemma CanRepeatIff(u: Setup, jobs: seq<MiningJob>)
    requires Proper(u) && u.step == u.workers && forall j :: 0 <= j < |jobs| ==> Minable(jobs[j])
    ensures CanRepeat(u, jobs) <==> Exposed(u.workers, jobs)
  {
    if Exposed(u.workers, jobs) {
      var k :| 0 <= k < |jobs| && IsBlob(jobs[k]) && (u.workers > 256 || HeaderBefore(jobs, k));
      if u.workers > 256 {
        ManyRepeat(u, jobs, k);
      } else {
        var i :| 0 <= i < k && Classic(jobs[i]);
        HeaderRepeats(u, jobs, i, k);
      }
    }
    hide Exposed, Reached, RepeatsIn;
    forall e, v, w, blob | Reached(u, e) && e.history == jobs && RepeatsIn(u, e, v, w, blob)
      ensures Exposed(u.workers, jobs)
    {
      OnlyExposedRepeat(u, e, v, w, blob);
    }
  }
}
