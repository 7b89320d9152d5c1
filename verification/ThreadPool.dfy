/**
 threading::ThreadPool as a step system: every worker between its own atomic
 actions, submitters between releasing the mutex and notifying, and a destructor
 that stores `stopping_` without holding the mutex.

 Tasks are numbered in the order they are enqueued.
 */
module ThreadPool {
  import opened Wrappers

  datatype Worker =
    | Waking                           // wants the mutex, to evaluate the wait predicate
    | Checking                         // holds the mutex, predicate not evaluated yet
    | Falling                          // holds the mutex, predicate was false: about to block
    | Blocked                          // asleep on the condition variable
    | Passed                           // holds the mutex, predicate was true
    | Running(task: nat, owes: bool)   // executing; owes a notify_one after a nested submit
    | Exited

  datatype Pool = Pool(
    workers: seq<Worker>,
    holder: Option<nat>,   // the worker inside the mutex
    queue: seq<nat>,       // tasks_
    stopping: bool,        // stopping_
    announced: bool,       // the destructor's notify_all has happened
    owed: nat,             // outside submitters between unlock and notify_one
    submitted: nat,        // tasks ever enqueued
    taken: nat,            // tasks ever dequeued
    done: seq<nat>,        // tasks finished, in order
    fault: bool)           // a worker took the front of an empty queue

  datatype Step =
    | Lock(w: nat)
    | Evaluate(w: nat)
    | Block(w: nat)
    | WakeSpuriously(w: nat)
    | Act(w: nat)
    | Finish(w: nat)
    | Submit
    | SubmitNested(w: nat)
    | Notify(target: Option<nat>)
    | NotifyNested(w: nat, target: Option<nat>)
    | Stop
    | NotifyAll

  function Initial(n: nat): Pool {
    Pool(seq(n, i => Waking), None, [], false, false, 0, 0, 0, [], false)
  }

  predicate At(s: Pool, w: nat, pc: Worker) {
    w < |s.workers| && s.workers[w] == pc
  }

  predicate SomeBlocked(ws: seq<Worker>) {
    exists i :: 0 <= i < |ws| && ws[i].Blocked?
  }

  /** notify_one wakes one sleeper if there is any. */
  predicate CanNotify(s: Pool, target: Option<nat>) {
    match target
    case Some(t) => At(s, t, Blocked)
    case None => !SomeBlocked(s.workers)
  }

  predicate Enabled(s: Pool, step: Step) {
    match step
    case Lock(w) => At(s, w, Waking) && s.holder == None
    case Evaluate(w) => At(s, w, Checking)
    case Block(w) => At(s, w, Falling)
    case WakeSpuriously(w) => At(s, w, Blocked)
    case Act(w) => At(s, w, Passed)
    case Finish(w) => w < |s.workers| && s.workers[w].Running? && !s.workers[w].owes
    case Submit => s.holder == None && !s.stopping
    case SubmitNested(w) => w < |s.workers| && s.workers[w].Running? && !s.workers[w].owes && s.holder == None
    case Notify(target) => s.owed > 0 && CanNotify(s, target)
    case NotifyNested(w, target) =>
      w < |s.workers| && s.workers[w].Running? && s.workers[w].owes && CanNotify(s, target)
    case Stop => !s.stopping
    case NotifyAll => s.stopping && !s.announced
  }

  function Put(s: Pool, w: nat, pc: Worker): Pool
    requires w < |s.workers|
  {
    s.(workers := s.workers[w := pc])
  }

  function Enqueue(s: Pool): Pool {
    s.(queue := s.queue + [s.submitted], submitted := s.submitted + 1)
  }

  function Wake(s: Pool, target: Option<nat>): Pool
    requires CanNotify(s, target)
  {
    match target
    case Some(t) => Put(s, t, Waking)
    case None => s
  }

  function WakeAll(ws: seq<Worker>): seq<Worker> {
    seq(|ws|, i requires 0 <= i < |ws| => if ws[i].Blocked? then Waking else ws[i])
  }

  function Next(s: Pool, step: Step): Pool
    requires Enabled(s, step)
  {
    match step
    case Lock(w) => Put(s, w, Checking).(holder := Some(w))
    case Evaluate(w) => Put(s, w, if s.stopping || s.queue != [] then Passed else Falling)
    case Block(w) => Put(s, w, Blocked).(holder := None)
    case WakeSpuriously(w) => Put(s, w, Waking)
    case Act(w) =>
      if s.stopping && s.queue == [] then Put(s, w, Exited).(holder := None)
      else if s.queue == [] then s.(fault := true)
      else Put(s, w, Running(s.queue[0], false)).(holder := None, queue := s.queue[1..], taken := s.taken + 1)
    case Finish(w) => Put(s, w, Waking).(done := s.done + [s.workers[w].task])
    case Submit => Enqueue(s).(owed := s.owed + 1)
    case SubmitNested(w) => Put(Enqueue(s), w, Running(s.workers[w].task, true))
    case Notify(target) => Wake(s, target).(owed := s.owed - 1)
    case NotifyNested(w, target) => Put(Wake(s, target), w, Running(s.workers[w].task, false))
    case Stop => s.(stopping := true)
    case NotifyAll => s.(announced := true, workers := WakeAll(s.workers))
  }

  // --------------------------------------------------------------- invariants

  predicate InMutex(pc: Worker) {
    pc.Checking? || pc.Falling? || pc.Passed?
  }

  ghost predicate MutexHolds(s: Pool) {
    && (s.holder.Some? ==> s.holder.value < |s.workers|)
    && forall i :: 0 <= i < |s.workers| ==> (InMutex(s.workers[i]) <==> s.holder == Some(i))
  }

  /** First in, first out: the queue is what was submitted and not taken, in order. */
  ghost predicate FifoHolds(s: Pool) {
    && s.taken <= s.submitted && |s.queue| == s.submitted - s.taken
    && forall k :: 0 <= k < |s.queue| ==> s.queue[k] == s.taken + k
  }

  /** What a worker read under the mutex stays true until it leaves it. */
  ghost predicate StagesHold(s: Pool) {
    && !s.fault
    && (s.announced ==> s.stopping)
    && forall i :: 0 <= i < |s.workers| ==>
         && (s.workers[i].Falling? ==> s.queue == [])
         && (s.workers[i].Passed? ==> s.stopping || s.queue != [])
         && (s.workers[i].Exited? ==> s.stopping)
  }

  predicate Runs(s: Pool, i: int, t: int) {
    0 <= i < |s.workers| && s.workers[i].Running? && s.workers[i].task == t
  }

  predicate Finished(s: Pool, k: int, t: int) {
    0 <= k < |s.done| && s.done[k] == t
  }

  ghost predicate Accounted(s: Pool, t: int) {
    (exists k :: Finished(s, k, t)) || exists i :: Runs(s, i, t)
  }

  /** Every task taken is running on one worker or finished once, never both. */
  ghost predicate TasksHold(s: Pool) {
    && (forall i, j, t :: Runs(s, i, t) && Runs(s, j, t) ==> i == j)
    && (forall j, k, t :: Finished(s, j, t) && Finished(s, k, t) ==> j == k)
    && (forall i, k, t :: Runs(s, i, t) ==> !Finished(s, k, t))
    && (forall i, t :: Runs(s, i, t) ==> t < s.taken)
    && (forall k, t :: Finished(s, k, t) ==> t < s.taken)
    && (forall t :: 0 <= t < s.taken ==> Accounted(s, t))
  }

  /** On its way to the queue, or about to send another worker there. */
  predicate Helps(pc: Worker) {
    pc.Waking? || pc.Checking? || pc.Passed? || (pc.Running? && pc.owes)
  }

  function Helpers(ws: seq<Worker>): nat {
    if ws == [] then 0 else (if Helps(ws[0]) then 1 else 0) + Helpers(ws[1..])
  }

  /** While a worker sleeps, each queued task has a wake-up or an awake worker of its own. */
  ghost predicate WakeupsHold(s: Pool) {
    SomeBlocked(s.workers) ==> |s.queue| <= s.owed + Helpers(s.workers)
  }

  predicate Alive(s: Pool, i: int) {
    0 <= i < |s.workers| && !s.workers[i].Exited?
  }

  /** The last worker never leaves tasks behind. */
  ghost predicate SomeoneStays(s: Pool) {
    && |s.workers| > 0
    && (s.queue != [] ==> exists i :: Alive(s, i))
  }

  ghost predicate Inv(s: Pool) {
    MutexHolds(s) && FifoHolds(s) && StagesHold(s) && TasksHold(s) && WakeupsHold(s) && SomeoneStays(s)
  }

  // ------------------------------------------------------- every step keeps it

  lemma {:induction false} HelpersPut(ws: seq<Worker>, i: nat, pc: Worker)
    requires i < |ws|
    ensures Helpers(ws[i := pc]) == Helpers(ws) + (if Helps(pc) then 1 else 0) - (if Helps(ws[i]) then 1 else 0)
  {
    if i == 0 {
      assert ws[0 := pc][1..] == ws[1..];
    } else {
      assert ws[i := pc][1..] == ws[1..][i - 1 := pc];
      HelpersPut(ws[1..], i - 1, pc);
    }
  }

  lemma MutexKept(s: Pool, step: Step)
    requires MutexHolds(s) && Enabled(s, step)
    ensures MutexHolds(Next(s, step))
  {
  }

  lemma FifoKept(s: Pool, step: Step)
    requires FifoHolds(s) && Enabled(s, step)
    ensures FifoHolds(Next(s, step))
  {
  }

  lemma StagesKept(s: Pool, step: Step)
    requires MutexHolds(s) && StagesHold(s) && Enabled(s, step)
    ensures StagesHold(Next(s, step))
  {
  }

  lemma SameTasks(s: Pool, n: Pool)
    requires TasksHold(s) && n.done == s.done && n.taken == s.taken && |n.workers| == |s.workers|
    requires forall i, t :: Runs(n, i, t) <==> Runs(s, i, t)
    ensures TasksHold(n)
  {
    forall k, t ensures Finished(n, k, t) <==> Finished(s, k, t) {
    }
    forall t | 0 <= t < n.taken ensures Accounted(n, t) {
      assert Accounted(s, t);
      StillAccounted(s, n, t);
    }
  }

  lemma StillAccounted(s: Pool, n: Pool, t: int)
    requires Accounted(s, t)
    requires forall i :: Runs(s, i, t) ==> Runs(n, i, t)
    requires forall k :: Finished(s, k, t) ==> Finished(n, k, t)
    ensures Accounted(n, t)
  {
    if k :| Finished(s, k, t) {
      assert Finished(n, k, t);
    } else {
      var i :| Runs(s, i, t);
      assert Runs(n, i, t);
    }
  }

  lemma TakingKept(s: Pool, w: nat)
    requires FifoHolds(s) && TasksHold(s) && Enabled(s, Act(w)) && s.queue != []
    ensures TasksHold(Next(s, Act(w)))
  {
    var n := Next(s, Act(w));
    forall i, t ensures Runs(n, i, t) <==> if i == w then t == s.taken else Runs(s, i, t) {
    }
    forall k, t ensures Finished(n, k, t) <==> Finished(s, k, t) {
    }
    forall t | 0 <= t < n.taken ensures Accounted(n, t) {
      if t == s.taken {
        assert Runs(n, w, t);
      } else {
        assert Accounted(s, t);
        StillAccounted(s, n, t);
      }
    }
  }

  lemma FinishKept(s: Pool, w: nat)
    requires TasksHold(s) && Enabled(s, Finish(w))
    ensures TasksHold(Next(s, Finish(w)))
  {
    var n := Next(s, Finish(w));
    var task := s.workers[w].task;
    assert Runs(s, w, task);
    forall i, t ensures Runs(n, i, t) <==> i != w && Runs(s, i, t) {
    }
    forall k, t ensures Finished(n, k, t) <==> Finished(s, k, t) || (k == |s.done| && t == task) {
    }
    forall t | 0 <= t < n.taken ensures Accounted(n, t) {
      if t == task {
        assert Finished(n, |s.done|, t);
      } else {
        assert Accounted(s, t);
        StillAccounted(s, n, t);
      }
    }
  }

  lemma TasksKept(s: Pool, step: Step)
    requires FifoHolds(s) && TasksHold(s) && Enabled(s, step)
    ensures TasksHold(Next(s, step))
  {
    if step.Finish? {
      FinishKept(s, step.w);
    } else if step.Act? && s.queue != [] {
      TakingKept(s, step.w);
    } else {
      hide TasksHold, FifoHolds;
      SameTasks(s, Next(s, step));
    }
  }

  lemma WakeupsKept(s: Pool, step: Step)
    requires StagesHold(s) && WakeupsHold(s) && Enabled(s, step)
    ensures WakeupsHold(Next(s, step))
  {
    var n := Next(s, step);
    match step
    case Notify(target) =>
      if target.Some? {
        HelpersPut(s.workers, target.value, Waking);
      }
    case NotifyNested(w, target) =>
      if target.Some? {
        HelpersPut(s.workers, target.value, Waking);
      }
      HelpersPut(Wake(s, target).workers, w, Running(s.workers[w].task, false));
    case Submit =>
    case Stop =>
    case NotifyAll =>
    case _ =>
      HelpersPut(s.workers, step.w, n.workers[step.w]);
  }

  lemma StayingKept(s: Pool, step: Step)
    requires StagesHold(s) && SomeoneStays(s) && Enabled(s, step)
    ensures SomeoneStays(Next(s, step))
  {
    var n := Next(s, step);
    if n.queue != [] {
      var i := if s.queue != [] then (var j :| Alive(s, j); j) else if step.SubmitNested? then step.w else 0;
      assert Alive(n, i);
    }
  }

  // ------------------------------------------------------------------ all runs

  /** The state a schedule leads to, if every step of it is enabled when its turn comes. */
  function After(n: nat, steps: seq<Step>): Option<Pool>
    decreases steps
  {
    if steps == [] then Some(Initial(n))
    else
      var last := steps[|steps| - 1];
      match After(n, steps[..|steps| - 1])
      case None => None
      case Some(p) => if Enabled(p, last) then Some(Next(p, last)) else None
  }

  lemma InitialHolds(n: nat)
    requires n > 0
    ensures Inv(Initial(n))
  {
    var s := Initial(n);
    assert Alive(s, 0);
  }

  lemma StepKeeps(s: Pool, step: Step)
    requires Inv(s) && Enabled(s, step)
    ensures Inv(Next(s, step)) && |Next(s, step).workers| == |s.workers|
  {
    SameSize(s, step);
    hide Next, Enabled, MutexHolds, FifoHolds, StagesHold, TasksHold, WakeupsHold, SomeoneStays;
    MutexKept(s, step);
    FifoKept(s, step);
    StagesKept(s, step);
    TasksKept(s, step);
    WakeupsKept(s, step);
    StayingKept(s, step);
  }

  lemma SameSize(s: Pool, step: Step)
    requires Enabled(s, step)
    ensures |Next(s, step).workers| == |s.workers|
  {
  }

  lemma {:induction false} ReachableHolds(n: nat, steps: seq<Step>, s: Pool)
    requires n > 0 && After(n, steps) == Some(s)
    ensures Inv(s) && |s.workers| == n
    decreases steps
  {
    hide Inv, Enabled, Next;
    if steps == [] {
      InitialHolds(n);
    } else {
      var init := steps[..|steps| - 1];
      var p := After(n, init).value;
      ReachableHolds(n, init, p);
      StepKeeps(p, steps[|steps| - 1]);
    }
  }

  /** No worker ever takes the front of an empty queue. */
  lemma NeverTakesFromEmpty(n: nat, steps: seq<Step>, s: Pool)
    requires n > 0 && After(n, steps) == Some(s)
    ensures !s.fault
  {
    ReachableHolds(n, steps, s);
  }

  /**
   No lost wakeup on submit: a queued task is always met by a worker that is
   neither asleep nor gone, or by a notify_one still owed. More: while any worker
   sleeps there are at least as many of these as there are queued tasks.
   */
  lemma NoLostWakeup(n: nat, steps: seq<Step>, s: Pool)
    requires n > 0 && After(n, steps) == Some(s)
    ensures s.queue != [] ==>
              s.owed > 0 || exists i :: Alive(s, i) && !s.workers[i].Blocked?
    ensures SomeBlocked(s.workers) ==> |s.queue| <= s.owed + Helpers(s.workers)
  {
    ReachableHolds(n, steps, s);
    if s.queue != [] && s.owed == 0 {
      if SomeBlocked(s.workers) {
        var i := HelperExists(s.workers);
      } else {
        var i :| Alive(s, i);
        assert !s.workers[i].Blocked?;
      }
    }
  }

  lemma {:induction false} HelperExists(ws: seq<Worker>) returns (i: nat)
    requires Helpers(ws) > 0
    ensures i < |ws| && Helps(ws[i])
  {
    if Helps(ws[0]) {
      i := 0;
    } else {
      var j := HelperExists(ws[1..]);
      i := j + 1;
    }
  }

  /** Tasks leave the queue in the order they entered it. */
  lemma TakenInOrder(n: nat, steps: seq<Step>, s: Pool, w: nat)
    requires n > 0 && After(n, steps) == Some(s) && Enabled(s, Act(w))
    ensures var t := Next(s, Act(w));
            t.workers[w] == Exited || (t.workers[w] == Running(s.taken, false) && t.taken == s.taken + 1)
  {
    ReachableHolds(n, steps, s);
  }

  predicate InQueue(s: Pool, k: int, t: int) {
    0 <= k < |s.queue| && s.queue[k] == t
  }

  /** Exactly once: every task submitted is queued, running or finished, in exactly one place. */
  lemma ExactlyOnce(n: nat, steps: seq<Step>, s: Pool, t: nat)
    requires n > 0 && After(n, steps) == Some(s)
    ensures t < s.submitted <==> (exists k :: InQueue(s, k, t)) || Accounted(s, t)
    ensures forall j, k :: InQueue(s, j, t) && InQueue(s, k, t) ==> j == k
    ensures forall j, k :: Runs(s, j, t) && Runs(s, k, t) ==> j == k
    ensures forall j, k :: Finished(s, j, t) && Finished(s, k, t) ==> j == k
    ensures forall j, k :: InQueue(s, j, t) ==> !Runs(s, k, t) && !Finished(s, k, t)
    ensures forall j, k :: Runs(s, j, t) ==> !Finished(s, k, t)
  {
    ReachableHolds(n, steps, s);
    if s.taken <= t < s.submitted {
      assert InQueue(s, t - s.taken, t);
    } else if t < s.taken {
      assert Accounted(s, t);
    }
  }

  /** Once every worker has exited, nothing is queued and every task submitted has finished once. */
  lemma Drained(n: nat, steps: seq<Step>, s: Pool)
    requires n > 0 && After(n, steps) == Some(s)
    requires forall i :: !Alive(s, i)
    ensures s.queue == [] && s.stopping
    ensures forall t :: 0 <= t < s.submitted ==> Done(s, t)
    ensures forall i, t :: !Runs(s, i, t)
  {
    ReachableHolds(n, steps, s);
    assert s.queue == [];
    assert !Alive(s, 0);
    forall i, t ensures !Runs(s, i, t) {
      assert !Alive(s, i);
    }
    forall t | 0 <= t < s.submitted ensures Done(s, t) {
      assert Accounted(s, t);
    }
  }

  ghost predicate Done(s: Pool, t: int) {
    exists k :: Finished(s, k, t)
  }

  // ------------------------------------------------------------ the destructor

  predicate SomeFalling(ws: seq<Worker>) {
    exists i :: 0 <= i < |ws| && ws[i].Falling?
  }

  /** After stopping_ nobody is about to block; after notify_all nobody sleeps. */
  ghost predicate Roused(s: Pool) {
    s.stopping && !SomeFalling(s.workers) && (s.announced ==> !SomeBlocked(s.workers))
  }

  lemma RousedKept(s: Pool, step: Step)
    requires Roused(s) && Enabled(s, step)
    ensures Roused(Next(s, step))
  {
  }

  lemma {:induction false} StaysRoused(n: nat, base: seq<Step>, more: seq<Step>, p: Pool, s: Pool)
    requires After(n, base) == Some(p) && Roused(p)
    requires After(n, base + more) == Some(s)
    ensures Roused(s)
    decreases |more|
  {
    hide Roused, Enabled, Next;
    if more == [] {
      assert base + more == base;
    } else {
      var shorter := more[..|more| - 1];
      var all := base + more;
      assert all[..|all| - 1] == base + shorter;
      var q := After(n, base + shorter).value;
      StaysRoused(n, base, shorter, p, q);
      RousedKept(q, all[|all| - 1]);
    }
  }

  lemma AfterOne(n: nat, steps: seq<Step>, s: Pool, step: Step)
    requires After(n, steps) == Some(s) && Enabled(s, step)
    ensures After(n, steps + [step]) == Some(Next(s, step))
  {
    assert (steps + [step])[..|steps|] == steps;
  }

  ghost predicate LeavesSleeper(n: nat, steps: seq<Step>) {
    match After(n, steps)
    case None => false
    case Some(s) => s.announced && SomeBlocked(s.workers)
  }

  /**
   The destructor does not take the mutex to store `stopping_`, so its notify_all
   can come before a worker that has already decided to wait. A worker can be left
   asleep after the announcement if and only if one was in that gap at the store.
   */
  lemma SleeperLeftIffFalling(n: nat, steps: seq<Step>, p: Pool)
    requires n > 0 && After(n, steps) == Some(p) && Enabled(p, Stop)
    ensures (exists more :: LeavesSleeper(n, steps + [Stop] + more)) <==> SomeFalling(p.workers)
  {
    ReachableHolds(n, steps, p);
    AfterOne(n, steps, p, Stop);
    var base, stopped := steps + [Stop], Next(p, Stop);
    if SomeFalling(p.workers) {
      var w :| 0 <= w < |p.workers| && p.workers[w].Falling?;
      var announced := Next(stopped, NotifyAll);
      AfterOne(n, base, stopped, NotifyAll);
      AfterOne(n, base + [NotifyAll], announced, Block(w));
      var last := Next(announced, Block(w));
      assert last.workers[w].Blocked?;
      assert base + [NotifyAll] + [Block(w)] == base + [NotifyAll, Block(w)];
      assert LeavesSleeper(n, base + [NotifyAll, Block(w)]);
    } else {
      assert Roused(stopped);
      forall more ensures !LeavesSleeper(n, base + more) {
        if LeavesSleeper(n, base + more) {
          StaysRoused(n, base, more, stopped, After(n, base + more).value);
        }
      }
    }
  }
}
