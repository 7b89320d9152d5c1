/**
 Blob work over whole runs of the engine: which inputs two workers hash twice depends
 on where their nonces stand when they take the blob, and classic work moves those.
 */
module BlobRuns {
  import opened Wrappers
  import opened Stratum
  import opened Hex
  import opened Nonces
  import opened Blob
  import opened ShareTest
  import opened Workers

  // ------------------------------------------------ the log holds whole batches

  /** The first m hashes of the batch of x are in the log. */
  ghost predicate Full(log: seq<Tried>, x: Tried, m: nat) {
    forall i: nat :: i < m ==> x.(made := i) in log
  }

  /** The worker is still in the batch of x. */
  predicate InProgress(e: Engine, x: Tried) {
    x.worker < |e.workers| && e.workers[x.worker].pc.Hashing? && Trying(e, x.worker).(made := x.made) == x
  }

  ghost predicate CurrentHolds(e: Engine) {
    forall w :: 0 <= w < |e.workers| && e.workers[w].pc.Hashing? && !Classic(e.workers[w].pc.job)
      ==> Full(e.log, Trying(e, w), e.workers[w].pc.made)
  }

  ghost predicate EntryHolds(e: Engine, x: Tried) {
    x.made < BATCH &&
    (!Classic(x.job) ==> Full(e.log, x, x.made + 1) && (InProgress(e, x) || Full(e.log, x, BATCH)))
  }

  ghost predicate EntriesHold(e: Engine) {
    forall x :: x in e.log ==> EntryHolds(e, x)
  }

  lemma FullGrows(log: seq<Tried>, more: seq<Tried>, x: Tried, m: nat)
    requires Full(log, x, m)
    ensures Full(log + more, x, m)
  {
  }

  lemma FullOfBatch(log: seq<Tried>, x: Tried, y: Tried, m: nat)
    requires Full(log, x, m) && x.(made := y.made) == y
    ensures Full(log, y, m)
  {
    forall i: nat | i < m ensures y.(made := i) in log {
      assert y.(made := i) == x.(made := i);
    }
  }

  /** A hash on a blob leaves the worker in its batch, one further. */
  lemma HashGoesOn(u: Setup, e: Engine, w: nat)
    requires Enabled(u, e, Hash(w)) && !Classic(e.workers[w].pc.job)
    ensures var n := Next(u, e, Hash(w));
            && n.log == e.log + [Trying(e, w)] && |n.workers| == |e.workers| && n.workers[w].pc.Hashing?
            && Trying(n, w) == Trying(e, w).(made := e.workers[w].pc.made + 1)
  {
    hide AttemptOf, ShareOf, Wins, Placed;
  }

  /** Nothing else moves a worker within a batch, or the log. */
  lemma OthersStay(u: Setup, e: Engine, step: Step, w: nat)
    requires Enabled(u, e, step) && w < |e.workers| && step != Hash(w)
    ensures var n := Next(u, e, step);
            && |n.workers| == |e.workers| && n.log == e.log + n.log[|e.log|..]
            && (!step.Hash? ==> n.log == e.log)
            && (n.workers[w] == e.workers[w]
                || ((e.workers[w].pc.Hashing? ==> step == Rest(w))
                    && (n.workers[w].pc.Hashing? ==> n.workers[w].pc.made == 0)))
  {
    hide AttemptOf, ShareOf, Wins, Placed, Threshold;
  }

  lemma CurrentKept(u: Setup, e: Engine, step: Step)
    requires CurrentHolds(e) && Enabled(u, e, step)
    ensures CurrentHolds(Next(u, e, step))
  {
    var n := Next(u, e, step);
    hide Next, Enabled;
    forall w | 0 <= w < |n.workers| && n.workers[w].pc.Hashing? && !Classic(n.workers[w].pc.job)
      ensures Full(n.log, Trying(n, w), n.workers[w].pc.made)
    {
      OneKept(u, e, step, w);
    }
  }

  lemma OneKept(u: Setup, e: Engine, step: Step, w: nat)
    requires CurrentHolds(e) && Enabled(u, e, step)
    requires w < |Next(u, e, step).workers| && Next(u, e, step).workers[w].pc.Hashing?
    requires !Classic(Next(u, e, step).workers[w].pc.job)
    ensures var n := Next(u, e, step); Full(n.log, Trying(n, w), n.workers[w].pc.made)
  {
    var n := Next(u, e, step);
    assert |n.workers| == |e.workers|;
    if step == Hash(w) {
      assert n.workers[w].pc.job == e.workers[w].pc.job;
      HashGoesOn(u, e, w);
      hide Next, Enabled;
      var x, m := Trying(e, w), e.workers[w].pc.made;
      FullGrows(e.log, [x], x, m);
      assert x.(made := m) == x;
      FullOfBatch(n.log, x, Trying(n, w), m);
      assert Trying(n, w).(made := m) == x;
    } else {
      OthersStay(u, e, step, w);
      hide Next, Enabled;
      if n.workers[w] == e.workers[w] {
        assert Trying(n, w) == Trying(e, w);
        FullGrows(e.log, n.log[|e.log|..], Trying(e, w), e.workers[w].pc.made);
      }
    }
  }

  /** An entry already in the log. */
  lemma EntryKept(u: Setup, e: Engine, step: Step, x: Tried)
    requires CurrentHolds(e) && EntryHolds(e, x) && Enabled(u, e, step)
    ensures EntryHolds(Next(u, e, step), x)
  {
    var n := Next(u, e, step);
    if !Classic(x.job) {
      assert n.log == e.log + n.log[|e.log|..];
      FullGrows(e.log, n.log[|e.log|..], x, x.made + 1);
      if InProgress(e, x) {
        var w := x.worker;
        if step == Hash(w) {
          HashGoesOn(u, e, w);
        } else {
          OthersStay(u, e, step, w);
          if step == Rest(w) {
            FullOfBatch(e.log, Trying(e, w), x, BATCH);
          }
        }
      } else {
        FullGrows(e.log, n.log[|e.log|..], x, BATCH);
      }
    }
  }

  lemma EntriesKept(u: Setup, e: Engine, step: Step)
    requires CurrentHolds(e) && EntriesHold(e) && Enabled(u, e, step)
    ensures EntriesHold(Next(u, e, step))
  {
    var n := Next(u, e, step);
    StepLogs(u, e, step);
    hide Next, EntryHolds;
    forall x | x in n.log ensures EntryHolds(n, x) {
      if x in e.log {
        EntryKept(u, e, step, x);
      } else {
        NewEntry(u, e, step.w);
      }
    }
  }

  lemma NewEntry(u: Setup, e: Engine, w: nat)
    requires CurrentHolds(e) && Enabled(u, e, Hash(w))
    ensures EntryHolds(Next(u, e, Hash(w)), Trying(e, w))
  {
    var x := Trying(e, w);
    if !Classic(x.job) {
      HashGoesOn(u, e, w);
      hide Next, Enabled;
      FullGrows(e.log, [x], x, x.made);
      assert x.(made := x.made) == x;
    }
  }

  lemma {:induction false} LogIsWhole(u: Setup, steps: seq<Step>, e: Engine)
    requires After(u, steps) == Some(e)
    ensures CurrentHolds(e) && EntriesHold(e)
    decreases steps
  {
    hide Enabled, Next, CurrentHolds, EntriesHold;
    if steps == [] {
      assert CurrentHolds(e) && EntriesHold(e) by { NothingYet(u); }
    } else {
      var init := steps[..|steps| - 1];
      var p := After(u, init).value;
      LogIsWhole(u, init, p);
      CurrentKept(u, p, steps[|steps| - 1]);
      EntriesKept(u, p, steps[|steps| - 1]);
    }
  }

  lemma NothingYet(u: Setup)
    ensures CurrentHolds(Initial(u)) && EntriesHold(Initial(u))
  {
  }

  // --------------------------------------------- when two workers hash the same

  /** A hash of the worker on the blob. */
  predicate Spent(e: Engine, w: nat, blob: string, x: Tried) {
    x in e.log && x.worker == w && x.job.blob == blob
  }

  /** Two workers hashed the same input made from a blob. */
  ghost predicate Repeated(u: Setup, e: Engine, v: nat, w: nat, blob: string)
    requires AllPlaced(e.log)
  {
    exists x, y :: Spent(e, v, blob, x) && Spent(e, w, blob, y) && AttemptOf(u, x) == AttemptOf(u, y)
  }

  lemma TriesAgree(u: Setup, x: Tried, y: Tried)
    requires Placed(x) && Placed(y) && !Classic(x.job) && x.job.blob == y.job.blob
    ensures AttemptOf(u, x) == AttemptOf(u, y) <==> Apart(x.nonce, y.nonce, u.step, x.made - y.made)
  {
    RawDistinct(x.job.blob, BlobNonce(u, x), BlobNonce(u, y));
    SameNonceIff(x.nonce, x.made, y.nonce, y.made, u.step);
    hide Patched, RawBytes, NonceAt, Apart;
  }

  /** Of the batches of x and y, the hashes d apart are both in the log. */
  lemma MeetInLog(u: Setup, e: Engine, x: Tried, y: Tried, m: nat, n: nat, d: int)
    requires AllPlaced(e.log) && x in e.log && y in e.log && !Classic(x.job) && x.job.blob == y.job.blob
    requires Full(e.log, x, m) && Full(e.log, y, n) && d < m && -d < n && m > 0 && n > 0
    requires Apart(x.nonce, y.nonce, u.step, d)
    ensures Repeated(u, e, x.worker, y.worker, x.job.blob)
  {
    var x', y' := x.(made := if d > 0 then d else 0), y.(made := if d > 0 then 0 else -d);
    assert x' in e.log && y' in e.log;
    hide Placed, AttemptOf, Apart;
    TriesAgree(u, x', y');
    assert Spent(e, x.worker, x.job.blob, x') && Spent(e, y.worker, x.job.blob, y');
  }

  lemma LogFacts(u: Setup, steps: seq<Step>, e: Engine)
    requires Proper(u) && After(u, steps) == Some(e)
    ensures AllPlaced(e.log) && EntriesHold(e)
  {
    hide After, EntriesHold;
    ReachableHolds(u, steps, e);
    LogIsWhole(u, steps, e);
  }

  lemma ListedHolds(e: Engine, x: Tried, w: nat, blob: string)
    requires EntriesHold(e) && Spent(e, w, blob, x) && blob != ""
    ensures x.made < BATCH && Full(e.log, x, x.made + 1)
    ensures Joined(e) && x.worker < |e.workers| ==> Full(e.log, x, BATCH)
  {
    assert EntryHolds(e, x);
  }

  lemma ListedWorker(u: Setup, steps: seq<Step>, e: Engine, x: Tried)
    requires Proper(u) && After(u, steps) == Some(e) && x in e.log
    ensures x.worker < |e.workers|
  {
    hide After;
    ReachableHolds(u, steps, e);
    var k :| 0 <= k < |e.log| && e.log[k] == x;
    assert TriedHolds(u, e, x);
  }

  /**
   At any moment of any run, two workers have hashed one input of a blob twice exactly
   when they have hashes on it whose base nonces are no more steps apart than those
   hashes are into their batches.
   */
  lemma RepeatedIff(u: Setup, steps: seq<Step>, e: Engine, v: nat, w: nat, blob: string)
    requires Proper(u) && After(u, steps) == Some(e) && blob != ""
    ensures AllPlaced(e.log)
    ensures Repeated(u, e, v, w, blob)
       <==> exists x, y, d: int :: Spent(e, v, blob, x) && Spent(e, w, blob, y) && d <= x.made && -d <= y.made
                                   && Apart(x.nonce, y.nonce, u.step, d)
  {
    hide After, AttemptOf, Placed, Apart, EntriesHold, Full, Proper;
    LogFacts(u, steps, e);
    if Repeated(u, e, v, w, blob) {
      var x, y :| Spent(e, v, blob, x) && Spent(e, w, blob, y) && AttemptOf(u, x) == AttemptOf(u, y);
      TriesAgree(u, x, y);
    }
    forall x, y, d: int | Spent(e, v, blob, x) && Spent(e, w, blob, y) && d <= x.made && -d <= y.made
                          && Apart(x.nonce, y.nonce, u.step, d)
      ensures Repeated(u, e, v, w, blob)
    {
      ListedHolds(e, x, v, blob);
      ListedHolds(e, y, w, blob);
      MeetInLog(u, e, x, y, x.made + 1, y.made + 1, d);
    }
  }

  /** Once all workers are joined: exactly when they took the blob at overlapping base nonces. */
  lemma JoinedRepeatedIff(u: Setup, steps: seq<Step>, e: Engine, v: nat, w: nat, blob: string)
    requires Proper(u) && After(u, steps) == Some(e) && blob != "" && Joined(e)
    ensures AllPlaced(e.log)
    ensures Repeated(u, e, v, w, blob)
       <==> exists x, y :: Spent(e, v, blob, x) && Spent(e, w, blob, y) && Overlap(x.nonce, y.nonce, u.step)
  {
    hide After, AttemptOf, Placed, Apart, Repeated, EntriesHold, Full, Proper, Joined;
    LogFacts(u, steps, e);
    RepeatedIff(u, steps, e, v, w, blob);
    if Repeated(u, e, v, w, blob) {
      var x, y, d: int :| Spent(e, v, blob, x) && Spent(e, w, blob, y) && d <= x.made && -d <= y.made
                          && Apart(x.nonce, y.nonce, u.step, d);
      ListedHolds(e, x, v, blob);
      ListedHolds(e, y, w, blob);
      assert Overlap(x.nonce, y.nonce, u.step);
    }
    forall x, y | Spent(e, v, blob, x) && Spent(e, w, blob, y) && Overlap(x.nonce, y.nonce, u.step)
      ensures Repeated(u, e, v, w, blob)
    {
      var d: int :| d < BATCH && -d < BATCH && Apart(x.nonce, y.nonce, u.step, d);
      ListedHolds(e, x, v, blob);
      ListedHolds(e, y, w, blob);
      ListedWorker(u, steps, e, x);
      ListedWorker(u, steps, e, y);
      MeetInLog(u, e, x, y, BATCH, BATCH, d);
    }
  }

  // ------------------------------------------------------- blobs and nothing else

  predicate NoClassic(jobs: seq<MiningJob>) {
    forall k :: 0 <= k < |jobs| ==> !Classic(jobs[k])
  }

  ghost predicate AtStart(e: Engine) {
    NoClassic(e.history) ==>
      && (forall w :: 0 <= w < |e.workers| ==> e.workers[w].turns == 0)
      && (forall k :: 0 <= k < |e.log| ==> e.log[k].turn == 0)
  }

  lemma AtStartKept(u: Setup, e: Engine, step: Step)
    requires WorkersHold(u, e) && AtStart(e) && Enabled(u, e, step)
    ensures AtStart(Next(u, e, step))
  {
    var n := Next(u, e, step);
    StepLogs(u, e, step);
    StepExtends(u, e, step);
    if NoClassic(n.history) {
      assert forall k :: 0 <= k < |e.history| ==> n.history[k] == e.history[k];
      if step.Hash? {
        assert WorkerHolds(u, e, step.w, e.workers[step.w]);
      }
    }
    hide AttemptOf, ShareOf, Wins, Placed, Threshold, NonceAt;
  }

  lemma {:induction false} AtStartHolds(u: Setup, steps: seq<Step>, e: Engine)
    requires Proper(u) && After(u, steps) == Some(e)
    ensures AtStart(e)
    decreases steps
  {
    hide Enabled, Next, WorkersHold;
    if steps != [] {
      var init := steps[..|steps| - 1];
      var p := After(u, init).value;
      AtStartHolds(u, init, p);
      ReachableHolds(u, init, p);
      AtStartKept(u, p, steps[|steps| - 1]);
    }
  }

  /**
   What a caller can check: if only blobs are ever published and there are at most 256
   workers, no two of them hash the same input.
   */
  lemma OnlyBlobsNeverRepeat(u: Setup, steps: seq<Step>, e: Engine, v: nat, w: nat, blob: string)
    requires Proper(u) && After(u, steps) == Some(e) && blob != "" && v != w
    requires NoClassic(JobsOf(steps)) && u.workers <= 256 && u.step <= 256
    ensures AllPlaced(e.log) && !Repeated(u, e, v, w, blob)
  {
    hide After, AttemptOf, Placed, Apart, Repeated, NonceAt, StartNonce, EntriesHold, Full, Overlap, AtStart;
    RepeatedIff(u, steps, e, v, w, blob);
    LogFacts(u, steps, e);
    forall x, y, d: int | Spent(e, v, blob, x) && Spent(e, w, blob, y) && d <= x.made && -d <= y.made
      ensures !Apart(x.nonce, y.nonce, u.step, d)
    {
      FreshEntry(u, steps, e, x);
      FreshEntry(u, steps, e, y);
      ListedHolds(e, x, v, blob);
      ListedHolds(e, y, w, blob);
      FreshDisjoint(v, w, u.step);
      NotApart(StartNonce(v), StartNonce(w), u.step, d);
    }
  }

  lemma NotApart(b: nat, c: nat, step: nat, d: int)
    requires !Overlap(b, c, step) && d < BATCH && -d < BATCH
    ensures !Apart(b, c, step, d)
  {
  }

  lemma FreshEntry(u: Setup, steps: seq<Step>, e: Engine, x: Tried)
    requires Proper(u) && After(u, steps) == Some(e) && NoClassic(JobsOf(steps)) && x in e.log
    ensures x.worker < u.workers && x.nonce == StartNonce(x.worker)
  {
    hide After, NonceAt, StartNonce;
    HistoryIsPublished(u, steps, e);
    AtStartHolds(u, steps, e);
    ReachableHolds(u, steps, e);
    var k :| 0 <= k < |e.log| && e.log[k] == x;
    assert TriedHolds(u, e, x);
    StartIsNonce(x.worker, u.step);
  }
}
