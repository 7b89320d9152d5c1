/**
 What submitting does, and how many tasks a run has: one for every submit in it, from
 outside or from a task.
 */
module PoolAccount {
  import opened Wrappers
  import opened ThreadPool

  predicate Submits(step: Step) {
    step.Submit? || step.SubmitNested?
  }

  function SubmitsIn(steps: seq<Step>): nat {
    if steps == [] then 0
    else SubmitsIn(steps[..|steps| - 1]) + if Submits(steps[|steps| - 1]) then 1 else 0
  }

  function FinishesIn(steps: seq<Step>): nat {
    if steps == [] then 0
    else FinishesIn(steps[..|steps| - 1]) + if steps[|steps| - 1].Finish? then 1 else 0
  }

  /**
   With the mutex free a task can be submitted, from outside until the destructor begins
   and from any task that does not owe a notification; it goes to the back of the queue
   as it is, and a notification is owed for it.
   */
  lemma SubmitEnqueues(s: Pool, step: Step)
    requires Submits(step)
    ensures Enabled(s, step) <==>
              s.holder == None && if step.Submit? then !s.stopping
                                  else exists t: nat :: At(s, step.w, Running(t, false))
    ensures Enabled(s, step) ==>
              var n := Next(s, step);
              && n.queue == s.queue + [s.submitted] && n.submitted == s.submitted + 1
              && n.holder == s.holder && n.stopping == s.stopping && n.taken == s.taken && n.done == s.done
              && (step.Submit? ==> n.owed == s.owed + 1 && n.workers == s.workers)
              && (step.SubmitNested? ==> n.owed == s.owed && |n.workers| == |s.workers|
                                         && n.workers[step.w] == s.workers[step.w].(owes := true))
  {
    if step.SubmitNested? && Enabled(s, step) {
      assert At(s, step.w, Running(s.workers[step.w].task, false));
    }
  }

  lemma StepCounts(s: Pool, step: Step)
    requires Enabled(s, step)
    ensures var n := Next(s, step);
            && n.submitted == s.submitted + (if Submits(step) then 1 else 0)
            && |n.done| == |s.done| + if step.Finish? then 1 else 0
  {
  }

  /** The tasks of a run are its submits, and those done are the ones it finished. */
  lemma {:induction false} TasksAreSubmits(n: nat, steps: seq<Step>, s: Pool)
    requires After(n, steps) == Some(s)
    ensures s.submitted == SubmitsIn(steps) && |s.done| == FinishesIn(steps)
    decreases steps
  {
    if steps != [] {
      var init := steps[..|steps| - 1];
      var p := After(n, init).value;
      TasksAreSubmits(n, init, p);
      hide Next, Enabled;
      StepCounts(p, steps[|steps| - 1]);
    }
  }

  /** Once all workers have exited, each submit of the run has had its task finished. */
  lemma EverySubmitIsDone(n: nat, steps: seq<Step>, s: Pool)
    requires n > 0 && After(n, steps) == Some(s) && forall i :: 0 <= i < |s.workers| ==> s.workers[i].Exited?
    ensures forall t :: 0 <= t < SubmitsIn(steps) ==> Done(s, t)
    ensures forall t :: Done(s, t) ==> 0 <= t < SubmitsIn(steps)
  {
    TasksAreSubmits(n, steps, s);
    Drained(n, steps, s);
    hide After, SubmitsIn;
    forall t | Done(s, t) ensures 0 <= t < SubmitsIn(steps) {
      var k :| Finished(s, k, t);
      assert Accounted(s, t);
      ExactlyOnce(n, steps, s, t);
    }
  }
}
