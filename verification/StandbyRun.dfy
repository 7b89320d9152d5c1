/**
 A run in which two workers hash the same blob input: the standby job comes first, and
 one worker gets 4096 classic batches ahead before the first blob arrives.
 */
module StandbyRun {
  import opened Wrappers
  import opened Stratum
  import opened Nonces
  import opened Blob
  import opened ShareTest
  import opened Workers
  import opened BlobRuns

  ghost predicate Reached(u: Setup, e: Engine) {
    exists steps :: After(u, steps) == Some(e)
  }

  lemma Onward(u: Setup, e: Engine, step: Step) returns (n: Engine)
    requires Reached(u, e) && Enabled(u, e, step)
    ensures Reached(u, n) && n == Next(u, e, step)
  {
    var steps :| After(u, steps) == Some(e);
    n := Next(u, e, step);
    assert (steps + [step])[..|steps|] == steps;
    assert After(u, steps + [step]) == Some(n);
  }

  lemma ReachedHolds(u: Setup, e: Engine)
    requires Proper(u) && Reached(u, e)
    ensures Inv(u, e)
  {
    hide After, Inv;
    var steps :| After(u, steps) == Some(e);
    ReachableHolds(u, steps, e);
  }

  /** Only worker w has moved, and only along its own loop. */
  predicate OnlyMoved(e: Engine, n: Engine, w: nat) {
    && n.running == e.running && n.slot == e.slot && n.history == e.history && |n.workers| == |e.workers|
    && (forall i :: 0 <= i < |e.workers| && i != w ==> n.workers[i] == e.workers[i])
    && e.log <= n.log
  }

  /** A worker about to look takes the current job and starts a batch of it. */
  lemma StartBatch(u: Setup, e: Engine, w: nat, job: MiningJob) returns (n: Engine)
    requires Proper(u) && Reached(u, e) && e.running && w < |e.workers| && e.workers[w].pc.Looking?
    requires e.slot.current == Some(job) && Hashable(job)
    ensures Reached(u, n) && OnlyMoved(e, n, w)
    ensures n.workers[w].pc.Hashing? && n.workers[w].pc.job == job && n.workers[w].pc.made == 0
    ensures n.workers[w].turns == e.workers[w].turns && n.workers[w].nonce == e.workers[w].nonce
  {
    hide Reached, Hashable, Threshold;
    assert !(0 < |job.blob| < 4) by { assert Hashable(job); Spelled(job); }
    var a := Onward(u, e, Look(w));
    var b := Onward(u, a, Fetch(w));
    n := Onward(u, b, Aim(w));
  }

  lemma Spelled(job: MiningJob)
    requires Hashable(job)
    ensures job.blob != "" ==> |job.blob| >= 8
  {
  }

  lemma HashOnce(u: Setup, e: Engine, w: nat) returns (n: Engine)
    requires Proper(u) && Reached(u, e) && w < |e.workers|
    requires e.workers[w].pc.Hashing? && e.workers[w].pc.made < BATCH
    ensures Placed(Trying(e, w))
    ensures Reached(u, n) && OnlyMoved(e, n, w) && n.workers[w] == Advanced(u, e.workers[w])
    ensures n.log == e.log + [Trying(e, w)]
  {
    TryIsPlaced(u, e, w);
    hide Reached, Placed, Wins, ShareOf, Advanced;
    n := Onward(u, e, Hash(w));
  }

  lemma TryIsPlaced(u: Setup, e: Engine, w: nat)
    requires Proper(u) && Reached(u, e) && w < |e.workers| && e.workers[w].pc.Hashing?
    ensures Placed(Trying(e, w))
    ensures Trying(e, w).nonce == NonceAt(StartNonce(w), u.step, e.workers[w].turns)
  {
    hide Reached, Hashable, StartNonce;
    ReachedHolds(u, e);
    assert WorkerHolds(u, e, w, e.workers[w]);
  }

  /** The classic branch of a batch, m hashes of it. */
  lemma {:induction false} HashMany(u: Setup, e: Engine, w: nat, m: nat) returns (n: Engine)
    requires Proper(u) && Reached(u, e) && w < |e.workers|
    requires e.workers[w].pc.Hashing? && e.workers[w].pc.made + m <= BATCH && Classic(e.workers[w].pc.job)
    ensures Reached(u, n) && OnlyMoved(e, n, w)
    ensures n.workers[w].pc == e.workers[w].pc.(made := e.workers[w].pc.made + m)
    ensures n.workers[w].turns == e.workers[w].turns + m
    decreases m
  {
    if m == 0 {
      n := e;
    } else {
      var d := HashOnce(u, e, w);
      hide Reached;
      n := HashMany(u, d, w, m - 1);
    }
  }

  lemma WholeBatch(u: Setup, e: Engine, w: nat, job: MiningJob) returns (n: Engine)
    requires Proper(u) && Reached(u, e) && e.running && w < |e.workers| && e.workers[w].pc.Looking?
    requires e.slot.current == Some(job) && Hashable(job) && Classic(job)
    ensures Reached(u, n) && OnlyMoved(e, n, w) && n.workers[w].pc.Looking?
    ensures n.workers[w].turns == e.workers[w].turns + BATCH
  {
    hide Reached, Hashable;
    var a := StartBatch(u, e, w, job);
    var b := HashMany(u, a, w, BATCH);
    n := Onward(u, b, Rest(w));
  }

  lemma {:induction false} Batches(u: Setup, e: Engine, w: nat, job: MiningJob, k: nat) returns (n: Engine)
    requires Proper(u) && Reached(u, e) && e.running && w < |e.workers| && e.workers[w].pc.Looking?
    requires e.slot.current == Some(job) && Hashable(job) && Classic(job)
    ensures Reached(u, n) && OnlyMoved(e, n, w) && n.workers[w].pc.Looking?
    ensures n.workers[w].turns == e.workers[w].turns + k * BATCH
    decreases k
  {
    if k == 0 {
      n := e;
    } else {
      hide Reached, Hashable;
      var d := WholeBatch(u, e, w, job);
      n := Batches(u, d, w, job, k - 1);
    }
  }

  /** A worker takes the current blob and hashes it once. */
  lemma TakeBlob(u: Setup, e: Engine, w: nat, job: MiningJob) returns (n: Engine, x: Tried)
    requires Proper(u) && Reached(u, e) && e.running && w < |e.workers| && e.workers[w].pc.Looking?
    requires e.slot.current == Some(job) && Hashable(job) && !Classic(job)
    ensures Reached(u, n) && OnlyMoved(e, n, w) && Placed(x) && Spent(n, w, job.blob, x) && x.made == 0
    ensures x.nonce == NonceAt(StartNonce(w), u.step, e.workers[w].turns)
  {
    hide Reached, Hashable, StartNonce, NonceAt, Placed;
    var a := StartBatch(u, e, w, job);
    TryIsPlaced(u, a, w);
    x := Trying(a, w);
    n := HashOnce(u, a, w);
    assert n.log[|a.log|] == x;
  }

  /** Two workers about to look, the first 4096 classic batches ahead, and a blob just published. */
  predicate Uneven(e: Engine, standby: MiningJob, job: MiningJob) {
    && e.running && |e.workers| == 2 && e.workers[0].pc.Looking? && e.workers[1].pc.Looking?
    && e.workers[0].turns == 4096 * BATCH && e.workers[1].turns == 0
    && e.slot.current == Some(job) && e.history == [standby, job]
  }

  lemma GetAhead(u: Setup, standby: MiningJob, job: MiningJob) returns (e: Engine)
    requires Proper(u) && u.workers == 2
    requires Hashable(standby) && Classic(standby) && Hashable(job)
    ensures Reached(u, e) && Uneven(e, standby, job)
  {
    assert After(u, []) == Some(Initial(u));
    assert Enabled(u, Initial(u), Publish(standby));
    var a := Onward(u, Initial(u), Publish(standby));
    hide Reached, Hashable;
    var b := Batches(u, a, 0, standby, 4096);
    assert Enabled(u, b, Publish(job)) by { Published(job); }
    e := Onward(u, b, Publish(job));
  }

  lemma Published(job: MiningJob)
    requires Hashable(job)
    ensures Minable(job)
  {
  }

  lemma BothTake(u: Setup, c: Engine, standby: MiningJob, job: MiningJob)
    returns (e: Engine, x: Tried, y: Tried)
    requires Proper(u) && u.step == 2 && Reached(u, c) && Uneven(c, standby, job)
    requires Hashable(job) && !Classic(job)
    ensures Reached(u, e) && e.history == [standby, job]
    ensures Placed(x) && Spent(e, 0, job.blob, x) && x.made == 0 && x.nonce == StartNonce(1)
    ensures Placed(y) && Spent(e, 1, job.blob, y) && y.made == 0 && y.nonce == StartNonce(1)
  {
    hide Reached, Hashable, StartNonce, NonceAt, Placed;
    var d;
    d, x := TakeBlob(u, c, 0, job);
    e, y := TakeBlob(u, d, 1, job);
    ClassicWorkMovesBase();
    StartIsNonce(1, 2);
  }

  lemma SameBase(b: nat, step: nat)
    ensures Apart(b, b, step, 0)
  {
    SameNonceIff(b, 0, b, 0, step);
  }

  lemma ReachedIsPlaced(u: Setup, e: Engine)
    requires Proper(u) && Reached(u, e)
    ensures AllPlaced(e.log)
  {
    hide Reached, AllPlaced;
    ReachedHolds(u, e);
  }

  /**
   The standby job and then any blob, two workers and step two: there is a run in
   which both hash the same input of the blob.
   */
  lemma StandbyThenBlobRepeats(digest: Workers.Attempt -> Digest, standby: MiningJob, job: MiningJob)
    returns (steps: seq<Step>, e: Engine)
    requires standby.jobId == STANDBY && Hashable(standby) && Classic(standby)
    requires Hashable(job) && !Classic(job)
    ensures After(Setup(2, 2, digest), steps) == Some(e) && e.history == [standby, job] && AllPlaced(e.log)
    ensures Repeated(Setup(2, 2, digest), e, 0, 1, job.blob)
  {
    var u := Setup(2, 2, digest);
    hide Hashable, Placed, StartNonce, AttemptOf, Apart, After, AllPlaced;
    var c := GetAhead(u, standby, job);
    var x, y;
    e, x, y := BothTake(u, c, standby, job);
    ReachedIsPlaced(u, e);
    SameBase(x.nonce, 2);
    TriesAgree(u, x, y);
    assert Repeated(u, e, 0, 1, job.blob);
    steps :| After(u, steps) == Some(e);
  }
}
