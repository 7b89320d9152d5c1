/**
 How the pool's destructor can wait for ever: the schedules after it stores `stopping_`
 that leave one worker asleep and nothing that would wake it.
 */
module PoolShutdown {
  import opened Wrappers
  import opened ThreadPool

  /** Everything is over but for worker w, which sleeps. */
  predicate Stranded(s: Pool, w: nat) {
    && s.announced && s.stopping && s.owed == 0 && s.queue == [] && s.holder == None
    && At(s, w, Blocked)
    && forall i :: 0 <= i < |s.workers| && i != w ==> s.workers[i].Exited?
  }

  /** Only a spurious wake-up gets a stranded pool any further. */
  lemma StrandedIsStuck(s: Pool, w: nat, step: Step)
    requires Stranded(s, w) && Enabled(s, step)
    ensures step == WakeSpuriously(w)
  {
  }

  /** A state some continuation of the schedule leads to. */
  ghost predicate Leads(n: nat, base: seq<Step>, s: Pool) {
    exists more :: After(n, base + more) == Some(s)
  }

  lemma Here(n: nat, base: seq<Step>, s: Pool)
    requires After(n, base) == Some(s)
    ensures Leads(n, base, s)
  {
    assert base + [] == base;
  }

  lemma Onward(n: nat, base: seq<Step>, s: Pool, step: Step) returns (t: Pool)
    requires Leads(n, base, s) && Enabled(s, step)
    ensures Leads(n, base, t) && t == Next(s, step)
  {
    hide Enabled, Next;
    var more :| After(n, base + more) == Some(s);
    t := Next(s, step);
    AfterOne(n, base + more, s, step);
    assert base + more + [step] == base + (more + [step]);
  }

  /** Worker w is about to block, after the announcement; workers from k on may still be running. */
  predicate Settling(s: Pool, w: nat, k: nat) {
    && s.announced && s.stopping && s.queue == [] && s.holder == Some(w) && At(s, w, Falling)
    && forall i :: 0 <= i < |s.workers| && i != w ==>
         s.workers[i].Waking? || s.workers[i].Exited? || (i >= k && s.workers[i].Running?)
  }

  lemma NoneBlocked(s: Pool, w: nat, k: nat)
    requires Settling(s, w, k)
    ensures !SomeBlocked(s.workers)
  {
  }

  lemma Announce(n: nat, base: seq<Step>, p: Pool, w: nat) returns (s: Pool)
    requires Leads(n, base, p) && MutexHolds(p) && StagesHold(p) && p.stopping && !p.announced && At(p, w, Falling)
    ensures Leads(n, base, s) && Settling(s, w, 0)
  {
    hide Leads;
    s := Onward(n, base, p, NotifyAll);
    assert p.holder == Some(w);
  }

  /** With nobody asleep the notifications owed by outside submitters wake nobody. */
  lemma {:induction false} PayOwed(n: nat, base: seq<Step>, p: Pool, w: nat) returns (s: Pool)
    requires Leads(n, base, p) && Settling(p, w, 0)
    ensures Leads(n, base, s) && Settling(s, w, 0) && s.owed == 0
    decreases p.owed
  {
    hide Leads;
    if p.owed == 0 {
      s := p;
    } else {
      NoneBlocked(p, w, 0);
      var q := Onward(n, base, p, Notify(None));
      s := PayOwed(n, base, q, w);
    }
  }

  /** A running worker pays what it owes and finishes its task. */
  lemma FinishOne(n: nat, base: seq<Step>, p: Pool, w: nat, k: nat) returns (s: Pool)
    requires Leads(n, base, p) && Settling(p, w, k) && p.owed == 0 && k < |p.workers|
    ensures Leads(n, base, s) && Settling(s, w, k + 1) && s.owed == 0 && |s.workers| == |p.workers|
  {
    hide Leads;
    s := p;
    if s.workers[k].Running? {
      if s.workers[k].owes {
        NoneBlocked(s, w, k);
        s := Onward(n, base, s, NotifyNested(k, None));
      }
      s := Onward(n, base, s, Finish(k));
    }
  }

  lemma {:induction false} FinishAll(n: nat, base: seq<Step>, p: Pool, w: nat, k: nat) returns (s: Pool)
    requires Leads(n, base, p) && Settling(p, w, k) && p.owed == 0 && k <= |p.workers|
    ensures Leads(n, base, s) && Settling(s, w, |s.workers|) && s.owed == 0
    decreases |p.workers| - k
  {
    hide Leads, Settling;
    if k == |p.workers| {
      s := p;
    } else {
      var q := FinishOne(n, base, p, w, k);
      s := FinishAll(n, base, q, w, k + 1);
    }
  }

  /** Worker w sleeps; the others up to k have left, the rest want the mutex or have left. */
  predicate Leaving(s: Pool, w: nat, k: nat) {
    && s.announced && s.stopping && s.owed == 0 && s.queue == [] && s.holder == None && At(s, w, Blocked)
    && forall i :: 0 <= i < |s.workers| && i != w ==> s.workers[i].Exited? || (i >= k && s.workers[i].Waking?)
  }

  lemma LeaveOne(n: nat, base: seq<Step>, p: Pool, w: nat, k: nat) returns (s: Pool)
    requires Leads(n, base, p) && Leaving(p, w, k) && k < |p.workers|
    ensures Leads(n, base, s) && Leaving(s, w, k + 1) && |s.workers| == |p.workers|
  {
    hide Leads;
    s := p;
    if s.workers[k].Waking? {
      s := Onward(n, base, s, Lock(k));
      s := Onward(n, base, s, Evaluate(k));
      s := Onward(n, base, s, Act(k));
    }
  }

  lemma {:induction false} LeaveAll(n: nat, base: seq<Step>, p: Pool, w: nat, k: nat) returns (s: Pool)
    requires Leads(n, base, p) && Leaving(p, w, k) && k <= |p.workers|
    ensures Leads(n, base, s) && Stranded(s, w)
    decreases |p.workers| - k
  {
    hide Leads;
    if k == |p.workers| {
      s := p;
    } else {
      hide Leaving, Stranded;
      var q := LeaveOne(n, base, p, w, k);
      s := LeaveAll(n, base, q, w, k + 1);
    }
  }

  lemma Strand(n: nat, base: seq<Step>, p: Pool, w: nat) returns (s: Pool)
    requires Leads(n, base, p) && MutexHolds(p) && StagesHold(p) && p.stopping && !p.announced && At(p, w, Falling)
    ensures Leads(n, base, s) && Stranded(s, w)
  {
    hide Leads, Stranded;
    var a := Announce(n, base, p, w);
    var b := PayOwed(n, base, a, w);
    var c := FinishAll(n, base, b, w, 0);
    var d := Onward(n, base, c, Block(w));
    s := LeaveAll(n, base, d, w, 0);
  }

  ghost predicate CanStrand(n: nat, base: seq<Step>) {
    exists s, w :: Leads(n, base, s) && Stranded(s, w)
  }

  /**
   The destructor can end up joining a worker nobody will wake - the queue empty, no
   notification owed, all other workers gone - if and only if at its store of
   `stopping_` some worker had found the predicate false and was not yet asleep.
   */
  lemma StrandedIffFalling(n: nat, steps: seq<Step>, p: Pool)
    requires n > 0 && After(n, steps) == Some(p) && Enabled(p, Stop)
    ensures CanStrand(n, steps + [Stop]) <==> SomeFalling(p.workers)
  {
    ReachableHolds(n, steps, p);
    AfterOne(n, steps, p, Stop);
    SleeperLeftIffFalling(n, steps, p);
    var base, stopped := steps + [Stop], Next(p, Stop);
    Here(n, base, stopped);
    hide After, Leads;
    if SomeFalling(p.workers) {
      var w :| 0 <= w < |p.workers| && p.workers[w].Falling?;
      var s := Strand(n, base, stopped, w);
    }
    forall s, w | Leads(n, base, s) && Stranded(s, w) ensures SomeFalling(p.workers) {
      StrandedLeavesSleeper(n, base, s, w);
    }
  }

  lemma StrandedLeavesSleeper(n: nat, base: seq<Step>, s: Pool, w: nat)
    requires Leads(n, base, s) && Stranded(s, w)
    ensures exists more :: LeavesSleeper(n, base + more)
  {
    var more :| After(n, base + more) == Some(s);
    assert LeavesSleeper(n, base + more);
  }

  /** It does happen: a pool just built, whose first worker has looked at the empty queue. */
  lemma FallingIsReachable(n: nat) returns (p: Pool)
    requires n > 0
    ensures After(n, [Lock(0), Evaluate(0)]) == Some(p) && Enabled(p, Stop) && SomeFalling(p.workers)
    ensures CanStrand(n, [Lock(0), Evaluate(0), Stop])
  {
    var a := Next(Initial(n), Lock(0));
    assert After(n, []) == Some(Initial(n));
    AfterOne(n, [], Initial(n), Lock(0));
    assert [] + [Lock(0)] == [Lock(0)];
    p := Next(a, Evaluate(0));
    AfterOne(n, [Lock(0)], a, Evaluate(0));
    assert [Lock(0)] + [Evaluate(0)] == [Lock(0), Evaluate(0)];
    assert p.workers[0].Falling?;
    StrandedIffFalling(n, [Lock(0), Evaluate(0)], p);
    assert [Lock(0), Evaluate(0)] + [Stop] == [Lock(0), Evaluate(0), Stop];
  }
}
