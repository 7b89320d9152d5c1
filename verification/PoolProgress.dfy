/**
 The pool gets somewhere: between submissions and spurious wake-ups it can only take a
 bounded number of steps, and where it comes to rest all work is done.
 */
module PoolProgress {
  import opened Wrappers
  import opened ThreadPool
  import opened PoolShutdown

  /** A step the pool does not take of its own accord. */
  predicate IsOutside(step: Step) {
    step.Submit? || step.SubmitNested? || step.WakeSpuriously?
  }

  // ------------------------------------------------------------------- measure

  function Rank(pc: Worker): nat {
    match pc
    case Waking => 4
    case Checking => 3
    case Passed => 2
    case Falling => 1
    case Blocked => 0
    case Exited => 0
    case Running(_, owes) => if owes then 10 else 5
  }

  function Ranks(ws: seq<Worker>): nat {
    if ws == [] then 0 else Rank(ws[0]) + Ranks(ws[1..])
  }

  /** What is left to do: every task once through the pool, every notification, and the shutdown. */
  function Measure(s: Pool): nat {
    Ranks(s.workers) + 4 * |s.queue| + 5 * s.owed
    + (if s.announced then 0 else 4 * |s.workers| + 1) + (if s.stopping then 0 else 1)
  }

  lemma {:induction false} RanksPut(ws: seq<Worker>, i: nat, pc: Worker)
    requires i < |ws|
    ensures Ranks(ws[i := pc]) == Ranks(ws) + Rank(pc) - Rank(ws[i])
  {
    if i == 0 {
      assert ws[0 := pc][1..] == ws[1..];
    } else {
      assert ws[i := pc][1..] == ws[1..][i - 1 := pc];
      RanksPut(ws[1..], i - 1, pc);
    }
  }

  lemma {:induction false} RanksWoken(ws: seq<Worker>)
    ensures Ranks(WakeAll(ws)) <= Ranks(ws) + 4 * |ws|
  {
    if ws != [] {
      assert WakeAll(ws)[1..] == WakeAll(ws[1..]);
      RanksWoken(ws[1..]);
    }
  }

  lemma NotifyRanks(ws: seq<Worker>, target: nat, w: nat, pc: Worker)
    requires target < |ws| && w < |ws| && ws[target].Blocked? && w != target
    ensures Ranks(ws[target := Waking][w := pc]) == Ranks(ws) + 4 + Rank(pc) - Rank(ws[w])
  {
    RanksPut(ws, target, Waking);
    RanksPut(ws[target := Waking], w, pc);
  }

  /** Every step of the pool's own uses up some of it. */
  lemma StepUsesUp(s: Pool, step: Step)
    requires Enabled(s, step) && !IsOutside(step) && !Next(s, step).fault
    ensures Measure(Next(s, step)) < Measure(s) && |Next(s, step).workers| == |s.workers|
  {
    hide Ranks;
    match step
    case Lock(w) => RanksPut(s.workers, w, Checking);
    case Evaluate(w) => RanksPut(s.workers, w, Next(s, step).workers[w]);
    case Block(w) => RanksPut(s.workers, w, Blocked);
    case Act(w) => RanksPut(s.workers, w, Next(s, step).workers[w]);
    case Finish(w) => RanksPut(s.workers, w, Waking);
    case Notify(target) =>
      if target.Some? {
        RanksPut(s.workers, target.value, Waking);
      }
    case NotifyNested(w, target) =>
      var after := Running(s.workers[w].task, false);
      if target.Some? {
        NotifyRanks(s.workers, target.value, w, after);
      } else {
        RanksPut(s.workers, w, after);
      }
    case Stop =>
    case NotifyAll => RanksWoken(s.workers);
    case _ =>
  }

  predicate NoneOutside(steps: seq<Step>) {
    forall i :: 0 <= i < |steps| ==> !IsOutside(steps[i])
  }

  /** So from any reachable state it takes no more of them than the measure says. */
  lemma {:induction false} RunsAreShort(n: nat, base: seq<Step>, more: seq<Step>, p: Pool, s: Pool)
    requires n > 0 && After(n, base) == Some(p) && After(n, base + more) == Some(s) && NoneOutside(more)
    ensures Measure(s) + |more| <= Measure(p)
    decreases |more|
  {
    hide Measure, Enabled, Next, IsOutside;
    if more == [] {
      assert base + more == base;
    } else {
      var init, last := more[..|more| - 1], more[|more| - 1];
      var all := base + more;
      assert all[..|all| - 1] == base + init && all[|all| - 1] == last;
      var q := After(n, base + init).value;
      RunsAreShort(n, base, init, p, q);
      NeverTakesFromEmpty(n, all, s);
      StepUsesUp(q, last);
    }
  }

  // ---------------------------------------------------------------- coming to rest

  /** Nothing is left but to submit, to stop, or to wake up for no reason. */
  ghost predicate AtRest(s: Pool) {
    forall step :: Enabled(s, step) ==> IsOutside(step) || step.Stop?
  }

  /** A step the pool takes by itself. */
  predicate IsOwn(s: Pool, step: Step) {
    Enabled(s, step) && !IsOutside(step) && !step.Stop?
  }

  /** Whom a notification wakes, if anybody. */
  lemma Sleeper(s: Pool) returns (target: Option<nat>)
    ensures CanNotify(s, target)
  {
    if SomeBlocked(s.workers) {
      var t :| 0 <= t < |s.workers| && s.workers[t].Blocked?;
      target := Some(t);
    } else {
      target := None;
    }
  }

  lemma OwedMoves(s: Pool) returns (step: Step)
    requires s.owed > 0
    ensures IsOwn(s, step)
  {
    var target := Sleeper(s);
    step := Notify(target);
  }

  /** A worker inside the mutex or in a task can take its next step. */
  lemma WorkerMoves(s: Pool, i: nat) returns (step: Step)
    requires i < |s.workers| && (InMutex(s.workers[i]) || s.workers[i].Running?)
    ensures IsOwn(s, step)
  {
    match s.workers[i]
    case Checking => step := Evaluate(i);
    case Falling => step := Block(i);
    case Passed => step := Act(i);
    case Running(_, owes) =>
      var target := Sleeper(s);
      step := if owes then NotifyNested(i, target) else Finish(i);
  }

  lemma WakingMoves(s: Pool, i: nat) returns (step: Step)
    requires i < |s.workers| && s.workers[i].Waking? && s.holder == None
    ensures IsOwn(s, step)
  {
    step := Lock(i);
  }

  lemma NoneIsOwn(s: Pool, step: Step)
    requires AtRest(s)
    ensures !IsOwn(s, step)
  {
  }

  lemma NobodyMoves(s: Pool)
    requires AtRest(s) && MutexHolds(s)
    ensures forall i :: 0 <= i < |s.workers| ==> s.workers[i].Blocked? || s.workers[i].Exited?
    ensures s.owed == 0 && s.holder == None
  {
    hide IsOwn, AtRest;
    if s.owed > 0 {
      var step := OwedMoves(s);
      NoneIsOwn(s, step);
    }
    forall i | 0 <= i < |s.workers| ensures !InMutex(s.workers[i]) && !s.workers[i].Running? {
      if InMutex(s.workers[i]) || s.workers[i].Running? {
        var step := WorkerMoves(s, i);
        NoneIsOwn(s, step);
      }
    }
    assert s.holder == None;
    forall i | 0 <= i < |s.workers| ensures !s.workers[i].Waking? {
      if s.workers[i].Waking? {
        var step := WakingMoves(s, i);
        NoneIsOwn(s, step);
      }
    }
  }

  lemma {:induction false} NoHelpers(ws: seq<Worker>)
    requires forall i :: 0 <= i < |ws| ==> ws[i].Blocked? || ws[i].Exited?
    ensures Helpers(ws) == 0
  {
    if ws != [] {
      NoHelpers(ws[1..]);
    }
  }

  lemma RestIsEmpty(s: Pool)
    requires AtRest(s) && Inv(s)
    ensures s.queue == []
  {
    NobodyMoves(s);
    NoHelpers(s.workers);
    assert (exists i :: Alive(s, i)) ==> SomeBlocked(s.workers);
  }

  /** Where the pool comes to rest every task submitted has finished, whether it is being stopped or not. */
  lemma RestIsDone(n: nat, steps: seq<Step>, s: Pool)
    requires n > 0 && After(n, steps) == Some(s) && AtRest(s)
    ensures s.queue == [] && s.owed == 0
    ensures forall t :: 0 <= t < s.submitted ==> Done(s, t)
  {
    ReachableHolds(n, steps, s);
    RestIsEmpty(s);
    NobodyMoves(s);
    forall t | 0 <= t < s.submitted ensures Done(s, t) {
      assert Accounted(s, t);
    }
  }

  // ------------------------------------------------------------ stuck is stranded

  predicate Down(pc: Worker) {
    pc.Blocked? || pc.Falling?
  }

  predicate DownAt(s: Pool, i: int) {
    0 <= i < |s.workers| && Down(s.workers[i])
  }

  /** After the announcement at most one worker is asleep or about to be. */
  ghost predicate OneDown(s: Pool) {
    s.announced ==> forall i, j :: DownAt(s, i) && DownAt(s, j) ==> i == j
  }

  lemma OneDownKept(s: Pool, step: Step)
    requires OneDown(s) && MutexHolds(s) && StagesHold(s) && Enabled(s, step)
    ensures OneDown(Next(s, step))
  {
    var n := Next(s, step);
    forall i, j | n.announced && DownAt(n, i) && DownAt(n, j) ensures i == j {
      if step == NotifyAll {
        assert n.workers[i].Falling? && n.workers[j].Falling? && s.workers[i].Falling? && s.workers[j].Falling?;
        assert InMutex(s.workers[i]) && InMutex(s.workers[j]);
      } else {
        assert DownAt(s, i) && DownAt(s, j);
      }
    }
  }

  lemma {:induction false} OneDownHolds(n: nat, steps: seq<Step>, s: Pool)
    requires n > 0 && After(n, steps) == Some(s)
    ensures OneDown(s)
    decreases steps
  {
    hide OneDown, Enabled, Next;
    if steps == [] {
      assert OneDown(s) by { NotYetAnnounced(n); }
    } else {
      var init := steps[..|steps| - 1];
      var p := After(n, init).value;
      OneDownHolds(n, init, p);
      ReachableHolds(n, init, p);
      OneDownKept(p, steps[|steps| - 1]);
    }
  }

  lemma NotYetAnnounced(n: nat)
    ensures OneDown(Initial(n))
  {
  }

  /** Only a spurious wake-up can move the pool. */
  ghost predicate Stuck(s: Pool) {
    forall step :: Enabled(s, step) ==> step.WakeSpuriously?
  }

  /**
   After the announcement, with somebody still to be joined, the pool is stuck exactly
   when it is stranded: one sleeper, nothing queued or owed, all others gone.
   */
  lemma StuckIffStranded(n: nat, steps: seq<Step>, s: Pool)
    requires n > 0 && After(n, steps) == Some(s) && s.announced && exists i :: Alive(s, i)
    ensures Stuck(s) <==> exists w :: Stranded(s, w)
  {
    ReachableHolds(n, steps, s);
    OneDownHolds(n, steps, s);
    if Stuck(s) {
      assert AtRest(s);
      var w :| Alive(s, w);
      StuckIsStranded(s, w);
    }
    forall w | Stranded(s, w) ensures Stuck(s) {
      forall step | Enabled(s, step) ensures step.WakeSpuriously? {
        StrandedIsStuck(s, w, step);
      }
    }
  }

  lemma StuckIsStranded(s: Pool, w: nat)
    requires Inv(s) && OneDown(s) && AtRest(s) && s.announced && Alive(s, w)
    ensures Stranded(s, w)
  {
    NobodyMoves(s);
    RestIsEmpty(s);
    assert s.workers[w].Blocked? && DownAt(s, w);
    assert forall i :: 0 <= i < |s.workers| && s.workers[i].Blocked? ==> DownAt(s, i);
  }
}
