/**
 The whole program wired together: the client's job callback publishes to the engine,
 the engine's shares go out through the client, and so every submission the pool reads
 goes back to a notification it sent.
 */
module Wiring {
  import opened Wrappers
  import opened Shares
  import opened Json
  import opened Stratum
  import opened StratumRuns
  import StratumCallbacks
  import StratumSubmit
  import opened LineText
  import opened Workers

  /** The jobs among the callbacks, in order. */
  function JobsIn(events: seq<Event>): seq<MiningJob> {
    if events == [] then []
    else (if events[0].JobEvent? then [events[0].job] else []) + JobsIn(events[1..])
  }

  /** The standby job is published first and then whatever the client delivers; only shares found are drawn for. */
  predicate Wired(standby: MiningJob, inputs: seq<Input>, e: Engine, s: StratumSubmit.Traffic) {
    && standby.jobId == STANDBY
    && e.history == [standby] + JobsIn(Replay(inputs).events)
    && forall k :: 0 <= k < |s.drawn| ==> s.drawn[k].share in e.shares
  }

  /** The message is a notification whose first parameter is this job id. */
  predicate Notifies(m: Value, jobId: string) {
    && m.Get("method") == Some(String("mining.notify"))
    && m.Get("params").Some? && |m.Get("params").value.AsArray()| > 0
    && m.Get("params").value.AsArray()[0].AsString() == jobId
  }

  ghost predicate Announced(inputs: seq<Input>, jobId: string) {
    exists n :: 0 <= n < |inputs| && inputs[n].Message? && Notifies(inputs[n].msg, jobId)
  }

  // ------------------------------------------------------ from share to notify

  /** A job callback comes from a notification that names the job. */
  lemma JobIsNotified(s: Session, m: Value, e: Event)
    requires e in Dispatch(s, m).events && e.JobEvent?
    ensures Notifies(m, e.job.jobId)
  {
    assert |Dispatch(s, m).events| <= 1;
  }

  lemma {:induction false} JobHasEvent(events: seq<Event>, i: nat) returns (p: nat)
    requires i < |JobsIn(events)|
    ensures p < |events| && events[p].JobEvent? && events[p].job == JobsIn(events)[i]
  {
    var first := if events[0].JobEvent? then 1 else 0;
    if i < first {
      p := 0;
    } else {
      var q := JobHasEvent(events[1..], i - first);
      p := q + 1;
    }
  }

  lemma EventIsAnnounced(inputs: seq<Input>, p: nat)
    requires p < |Replay(inputs).events| && Replay(inputs).events[p].JobEvent?
    ensures Announced(inputs, Replay(inputs).events[p].job.jobId)
  {
    var n := EventHasInput(inputs, p);
    JobsCarryLatestSubscription(inputs, p, n);
    hide Replay, Dispatch, MadeBy, LatestSubscription;
    var s := Replay(inputs[..n]).session;
    JobIsNotified(s, inputs[n].msg, Replay(inputs).events[p]);
  }

  lemma ShareIsJustified(u: Setup, steps: seq<Workers.Step>, e: Engine, share: Share)
    requires Proper(u) && Workers.After(u, steps) == Some(e) && share in e.shares
    ensures Justified(u, e, share)
  {
    hide Workers.After, Justified, EarnedBy;
    SharesAreHonest(u, steps, e);
  }

  lemma ShareNamesJob(u: Setup, e: Engine, share: Share) returns (i: nat)
    requires Justified(u, e, share)
    ensures i < |e.history| && e.history[i].jobId == share.jobId != STANDBY
  {
    var k :| 0 <= k < |e.log| && EarnedBy(u, e, e.log[k], share);
    hide Meets;
    i := e.log[k].at;
  }

  /** A share of the engine names a job some notification announced. */
  lemma ShareIsAnnounced(u: Setup, steps: seq<Workers.Step>, e: Engine, standby: MiningJob, inputs: seq<Input>,
                         share: Share)
    requires Proper(u) && Workers.After(u, steps) == Some(e) && share in e.shares
    requires standby.jobId == STANDBY && e.history == [standby] + JobsIn(Replay(inputs).events)
    ensures Announced(inputs, share.jobId)
  {
    hide Workers.After, Justified, Replay;
    ShareIsJustified(u, steps, e, share);
    var i := ShareNamesJob(u, e, share);
    var p := JobHasEvent(Replay(inputs).events, i - 1);
    EventIsAnnounced(inputs, p);
  }

  // ------------------------------------------------- which difficulties are met

  const STANDBY_DIFFICULTY: real := 1000000000000000.0

  /** What main does before it starts the workers. */
  function Prologue(standby: MiningJob): seq<Workers.Step> {
    [Publish(standby), Retarget(STANDBY_DIFFICULTY)]
  }

  lemma {:induction false} NoneAgainst(log: seq<Tried>, w: nat, bound: nat, k: nat)
    requires HashesAgainst(log, 0, w, bound) == 0 && k < |log| && log[k].worker == w
    ensures log[k].aim >= bound
    decreases |log|
  {
    if k < |log| - 1 {
      NoneAgainst(log[..|log| - 1], w, bound, k);
    }
  }

  lemma Published(u: Setup, standby: MiningJob) returns (p: Engine)
    requires Minable(standby)
    ensures Workers.After(u, [Publish(standby)]) == Some(p)
    ensures p.log == [] && |p.difficulties| == 1 && |p.workers| == u.workers
    ensures forall w :: 0 <= w < u.workers ==> p.workers[w].pc.Looking?
  {
    var steps := [Publish(standby)];
    assert steps[..0] == [];
    p := Workers.Next(u, Workers.Initial(u), Publish(standby));
    assert Workers.After(u, []) == Some(Workers.Initial(u));
  }

  /** No hash of the program is made against the difficulty the engine is built with. */
  lemma NoneAtFirstDifficulty(u: Setup, standby: MiningJob, more: seq<Workers.Step>, e: Engine, k: nat)
    requires Proper(u) && Minable(standby) && k < |e.log|
    requires Workers.After(u, Prologue(standby) + more) == Some(e)
    ensures 0 < e.log[k].aim < |e.difficulties|
  {
    var p := Published(u, standby);
    assert Prologue(standby) + more == [Publish(standby)] + [Retarget(STANDBY_DIFFICULTY)] + more;
    hide Workers.After, Proper, Prologue;
    LoggedHolds(u, [Publish(standby)] + [Retarget(STANDBY_DIFFICULTY)] + more, e, k, k);
    NewDifficultyIsPrompt(u, [Publish(standby)], STANDBY_DIFFICULTY, more, e.log[k].worker, p, e);
    hide HashesAgainst, Names;
    NoneAgainst(e.log, e.log[k].worker, 1, k);
  }

  /**
   Every share of the program meets 10^15 or a difficulty the pool set by a message; the
   difficulty a blob job brings with it plays no part.
   */
  lemma ShareMeetsDifficulty(u: Setup, standby: MiningJob, more: seq<Workers.Step>, e: Engine, inputs: seq<Input>,
                             share: Share)
    returns (x: Tried, d: real)
    requires Proper(u) && Minable(standby) && Workers.After(u, Prologue(standby) + more) == Some(e)
    requires DifficultiesOf(Prologue(standby) + more)
          == [STANDBY_DIFFICULTY] + StratumCallbacks.Difficulties(Replay(inputs).events)
    requires share in e.shares
    ensures x in e.log && 0 <= x.at < |e.history| && Verifies(u, e.history[x.at], d, share)
    ensures d == 1000000000000000.0 || d in StratumCallbacks.DifficultiesSet(inputs)
  {
    hide Workers.After, Proper, Prologue, Replay, Verifies, DifficultiesOf;
    var steps := Prologue(standby) + more;
    ShareIsJustified(u, steps, e, share);
    StratumCallbacks.DifficultiesAreAnnounced(inputs);
    DifficultiesAreSet(u, steps, e);
    var k :| 0 <= k < |e.log| && EarnedBy(u, e, e.log[k], share);
    NoneAtFirstDifficulty(u, standby, more, e, k);
    x := e.log[k];
    d := e.difficulties[x.aim];
    PastFirst(e.difficulties, 1.0, STANDBY_DIFFICULTY, StratumCallbacks.DifficultiesSet(inputs), x.aim);
  }

  lemma PastFirst(all: seq<real>, a: real, b: real, others: seq<real>, k: nat)
    requires all == [a] + ([b] + others) && 0 < k < |all|
    ensures all[k] == b || all[k] in others
  {
    assert k > 1 ==> all[k] == others[k - 2];
  }

  // ------------------------------------------------------------ from line to share

  lemma DumpAt(a: StratumSubmit.Account, said: seq<StratumSubmit.Said>, k: nat)
    requires k < |said| && StratumSubmit.AllSpeakable(said) && Sendable(StratumSubmit.Written(a, said))
    ensures |Dumps(StratumSubmit.Written(a, said))| == |said| && Exact(StratumSubmit.RequestOf(a, said[k]))
    ensures Dumps(StratumSubmit.Written(a, said))[k] == Dump(StratumSubmit.RequestOf(a, said[k]))
  {
    StratumSubmit.RequestIsExact(a, said[k]);
    WrittenAt(a, said, k);
    hide StratumSubmit.Written, StratumSubmit.RequestOf, Dump, Exact, Normal;
    DumpsAt(StratumSubmit.Written(a, said), k);
  }

  lemma {:induction false} WrittenAt(a: StratumSubmit.Account, said: seq<StratumSubmit.Said>, k: nat)
    requires k < |said| && StratumSubmit.AllSpeakable(said)
    ensures |StratumSubmit.Written(a, said)| == |said|
    ensures StratumSubmit.Written(a, said)[k] == StratumSubmit.RequestOf(a, said[k])
  {
    hide StratumSubmit.RequestOf, StratumSubmit.Speakable;
    var last := |said| - 1;
    if last > 0 {
      WrittenAt(a, said[..last], if k < last then k else 0);
    }
  }

  lemma {:induction false} DumpsAt(ms: seq<Value>, k: nat)
    requires Sendable(ms) && k < |ms|
    ensures |Dumps(ms)| == |ms| && Dumps(ms)[k] == Dump(ms[k])
  {
    hide Dump, Exact, Normal;
    if |ms| > 1 {
      DumpsAt(ms[1..], if k > 0 then k - 1 else 0);
    }
  }

  /**
   Over all runs of client, engine and senders wired together: every line the pool
   reads whole that is not one of the two handshake requests is a submission, and it
   names a job from a notification the client received.
   */
  lemma EverySubmissionIsAnnounced(
    u: Setup, engineSteps: seq<Workers.Step>, e: Engine, standby: MiningJob, inputs: seq<Input>,
    a: StratumSubmit.Account, sendSteps: seq<StratumSubmit.Step>, s: StratumSubmit.Traffic, k: nat)
    requires Proper(u) && Workers.After(u, engineSteps) == Some(e)
    requires StratumSubmit.After(a, sendSteps) == Some(s) && Wired(standby, inputs, e, s)
    requires k < |s.said| && s.said[k].Filed?
    ensures k < |Lines(s.wire)| && s.said[k].ticket.id <= MAX_EXACT
    ensures Exact(StratumSubmit.Submission(a.login, s.said[k].ticket))
    ensures Lines(s.wire)[k] == Dump(StratumSubmit.Submission(a.login, s.said[k].ticket))
    ensures Announced(inputs, s.said[k].ticket.share.jobId)
  {
    hide Workers.After, StratumSubmit.After, Proper, Replay, Announced, Lines;
    StratumSubmit.PoolReadsSubmissions(a, sendSteps, s);
    DumpAt(a, s.said, k);
    var t := s.said[k].ticket;
    assert StratumSubmit.IsDrawn(s, t) && StratumSubmit.Speakable(s.said[k]);
    assert StratumSubmit.RequestOf(a, s.said[k]) == StratumSubmit.Submission(a.login, t);
    ShareIsAnnounced(u, engineSteps, e, standby, inputs, t.share);
  }
}
