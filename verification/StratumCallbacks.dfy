/**
 What each kind of message does, said from the members of the message alone: which
 messages make which callback, with which contents, and which leave everything as it is.
 */
module StratumCallbacks {
  import opened Wrappers
  import opened Json
  import opened Stratum
  import opened StratumRuns

  // ------------------------------------------------------------ reading a value

  /** A field is the string it is sent as, and empty when it is sent as anything else. */
  predicate Says(v: Value, text: string) {
    if v.String? then v == String(text) else text == ""
  }

  /** A number, and zero when it is sent as anything else. */
  predicate Counts(v: Value, x: real) {
    if v.Number? then v == Number(x) else x == 0.0
  }

  /** A flag is set by the boolean true alone. */
  predicate Flags(v: Value, b: bool) {
    b <==> v == Bool(true)
  }

  predicate Calls(m: Value, name: string) {
    m.Get("method") == Some(String(name))
  }

  predicate HasParams(m: Value, params: seq<Value>) {
    m.Get("params") == Some(Array(params))
  }

  // ----------------------------------------------------------------- difficulty

  /** The message sets the difficulty to d. */
  predicate SetsDifficulty(m: Value, d: real) {
    && Calls(m, "mining.set_difficulty")
    && match m.Get("params")
       case Some(Array(params)) => params != [] && Counts(params[0], d)
       case _ => false
  }

  /** A difficulty callback is made by these messages and by no others. */
  lemma DifficultyIffSet(s: Session, m: Value, d: real)
    ensures SetsDifficulty(m, d) ==> Dispatch(s, m) == Outcome(s, [DifficultyEvent(d)])
    ensures SetsDifficulty(m, d) <==> DifficultyEvent(d) in Dispatch(s, m).events
  {
  }

  /** A method the client does not know changes nothing and calls nothing. */
  lemma UnknownMethodIsIdle(s: Session, m: Value, name: string)
    requires Calls(m, name) && name != "mining.notify" && name != "mining.set_difficulty"
    ensures Dispatch(s, m) == Outcome(s, [])
  {
  }

  // ----------------------------------------------------------------------- jobs

  /** The job of a seven-element notification, position by position. */
  predicate BlobJobOf(p: seq<Value>, j: MiningJob)
    requires |p| == 7
  {
    && Says(p[0], j.jobId) && Says(p[1], j.blob) && Says(p[2], j.seedHash) && Says(p[3], j.prevHash)
    && Counts(p[4], j.difficulty) && Flags(p[5], j.cleanJobs)
    && j.coinbase1 == "" && j.coinbase2 == "" && j.merkleBranches == [] && j.version == ""
    && j.bits == "1d00ffff" && j.time == "00000000"
  }

  /** The job of one with nine elements or more. */
  predicate ClassicJobOf(p: seq<Value>, j: MiningJob)
    requires |p| >= 9
  {
    && Says(p[0], j.jobId) && Says(p[1], j.prevHash) && Says(p[2], j.coinbase1) && Says(p[3], j.coinbase2)
    && BranchesOf(p[4], j.merkleBranches)
    && Says(p[5], j.version) && Says(p[6], j.bits) && Says(p[7], j.time) && Flags(p[8], j.cleanJobs)
    && j.difficulty == 1.0 && j.seedHash == "" && j.blob == ""
  }

  predicate BranchesOf(v: Value, branches: seq<string>) {
    if v.Array? then |branches| == |v.items| && forall i :: 0 <= i < |branches| ==> Says(v.items[i], branches[i])
    else branches == []
  }

  predicate Notifies(m: Value) {
    && Calls(m, "mining.notify")
    && match m.Get("params")
       case Some(Array(params)) => |params| == 7 || |params| >= 9
       case _ => false
  }

  /** A notification of a known length delivers its job, with the session's extranonce. */
  lemma JobOfNotification(s: Session, m: Value) returns (j: MiningJob)
    requires Notifies(m)
    ensures Dispatch(s, m) == Outcome(s.(currentJobId := j.jobId), [JobEvent(j)])
    ensures j.extranonce1 == s.extranonce1 && j.extranonce2Size == s.extranonce2Size
    ensures var p := m.Get("params").value.items;
            if |p| == 7 then BlobJobOf(p, j) else ClassicJobOf(p, j)
  {
    j := Dispatch(s, m).events[0].job;
  }

  /** Nothing else delivers a job or changes the current one. */
  lemma JobIffNotified(s: Session, m: Value)
    ensures Notifies(m) <==> exists j :: JobEvent(j) in Dispatch(s, m).events
    ensures !Notifies(m) ==> Dispatch(s, m).session.currentJobId == s.currentJobId
  {
    if Notifies(m) {
      var j := JobOfNotification(s, m);
      assert JobEvent(j) in Dispatch(s, m).events;
    }
  }

  /** A call of either method without parameters it can use is ignored. */
  lemma UnusableCallIsIdle(s: Session, m: Value, name: string)
    requires Calls(m, name) && !Notifies(m) && forall d :: !SetsDifficulty(m, d)
    ensures Dispatch(s, m) == Outcome(s, [])
  {
    match m.Get("params")
    case Some(Array(params)) =>
      if name == "mining.set_difficulty" && params != [] {
        assert SetsDifficulty(m, params[0].AsNumber());
      }
    case _ =>
  }

  // ------------------------------------------------------------------ responses

  predicate Answers(m: Value, id: real) {
    && m.Get("id") == Some(Number(id))
    && match m.Get("method") case Some(String(_)) => false case _ => true
  }

  /** A result of true and no error, or null in its place. */
  predicate Granted(m: Value) {
    m.Get("result") == Some(Bool(true)) && m.Get("error") in {None, Some(Null)}
  }

  /** The last element of the error array, if there is one. */
  predicate Blames(m: Value, reason: string) {
    match m.Get("error")
    case Some(Array(items)) => if items == [] then reason == "" else Says(items[|items| - 1], reason)
    case _ => reason == ""
  }

  lemma TruncatedOnce(x: real)
    ensures Truncate(x) == 1 <==> 1.0 <= x < 2.0
    ensures Truncate(x) == 2 <==> 2.0 <= x < 3.0
  {
  }

  /** A response whose id is 2, up to its fraction, decides the authorization. */
  lemma AuthorizationIsSecond(s: Session, m: Value, id: real)
    requires Answers(m, id) && 2.0 <= id < 3.0
    ensures Dispatch(s, m) == Outcome(s.(authorized := Granted(m)), [])
  {
    TruncatedOnce(id);
  }

  /** One whose id is 1 brings the extranonce, if it brings three elements. */
  lemma SubscriptionIsFirst(s: Session, m: Value, id: real)
    requires Answers(m, id) && 1.0 <= id < 2.0
    ensures var d := Dispatch(s, m);
            && d.events == []
            && d.session == s.(extranonce1 := d.session.extranonce1, extranonce2Size := d.session.extranonce2Size)
            && match m.Get("result")
               case Some(Array(items)) =>
                 if |items| < 3 then d.session == s
                 else Says(items[1], d.session.extranonce1) && Sizes(items[2], d.session.extranonce2Size)
               case _ => d.session == s
  {
    TruncatedOnce(id);
    match m.Get("result")
    case Some(Array(items)) =>
      if |items| >= 3 {
        SizeOf(items[2]);
      }
    case _ =>
  }

  /** A count from 0 to 2^32 - 1 loses its fraction; anything but a number is zero. */
  predicate Sizes(v: Value, size: int) {
    && (!v.Number? ==> size == 0)
    && (v.Number? && 0.0 <= v.n < 4294967296.0 ==> size as real <= v.n < size as real + 1.0)
  }

  lemma SizeOf(v: Value)
    ensures Sizes(v, ToUnsigned(v.AsNumber()))
  {
    var x := v.AsNumber();
    if 0.0 <= x < 4294967296.0 {
      assert 0 <= x.Floor < 4294967296;
    }
  }

  /** Any other number answers a share. */
  lemma VerdictIsAnyOther(s: Session, m: Value, id: real)
    requires Answers(m, id) && !(1.0 <= id < 3.0)
    ensures var d := Dispatch(s, m);
            && d.session == s && |d.events| == 1 && d.events[0].SubmitEvent?
            && (d.events[0].accepted <==> Granted(m))
            && (if Granted(m) then d.events[0].message == "" else Blames(m, d.events[0].message))
  {
    TruncatedOnce(id);
  }

  /** Without a method and a numeric id a message is ignored. */
  lemma NamelessIsIdle(s: Session, m: Value)
    requires match m.Get("method") case Some(String(_)) => false case _ => true
    requires match m.Get("id") case Some(Number(_)) => false case _ => true
    ensures Dispatch(s, m) == Outcome(s, [])
  {
  }

  // ------------------------------------------------------------------ whole runs

  /** The difficulties the client announced. */
  function Difficulties(events: seq<Event>): seq<real> {
    if events == [] then []
    else (if events[0].DifficultyEvent? then [events[0].difficulty] else []) + Difficulties(events[1..])
  }

  /** The difficulties the pool set. */
  function DifficultiesSet(inputs: seq<Input>): seq<real> {
    if inputs == [] then []
    else DifficultiesSet(inputs[..|inputs| - 1]) + Setting(inputs[|inputs| - 1])
  }

  function Setting(i: Input): seq<real> {
    match i
    case Dropped => []
    case Message(m) =>
      if !Calls(m, "mining.set_difficulty") then []
      else match m.Get("params")
        case Some(Array(params)) =>
          if params == [] then [] else [if params[0].Number? then params[0].n else 0.0]
        case _ => []
  }

  lemma {:induction false} DifficultiesAppend(a: seq<Event>, b: seq<Event>)
    ensures Difficulties(a + b) == Difficulties(a) + Difficulties(b)
  {
    if a == [] {
      assert a + b == b;
    } else {
      assert (a + b)[0] == a[0] && (a + b)[1..] == a[1..] + b;
      DifficultiesAppend(a[1..], b);
    }
  }

  lemma SettingIsAnnounced(s: Session, i: Input)
    ensures Difficulties(EventsOf(s, i)) == Setting(i)
  {
    if i.Message? {
      var events := Dispatch(s, i.msg).events;
      DispatchFrame(s, i.msg);
      if Setting(i) != [] {
        DifficultyIffSet(s, i.msg, Setting(i)[0]);
        assert events == [DifficultyEvent(Setting(i)[0])];
        assert events[1..] == [];
      } else if events != [] {
        if events[0].DifficultyEvent? {
          DifficultyIffSet(s, i.msg, events[0].difficulty);
        }
        assert events[1..] == [];
      }
    }
  }

  /** Over any run the difficulties announced are those the pool set, in order. */
  lemma {:induction false} DifficultiesAreAnnounced(inputs: seq<Input>)
    ensures Difficulties(Replay(inputs).events) == DifficultiesSet(inputs)
  {
    if inputs != [] {
      var init, last := inputs[..|inputs| - 1], inputs[|inputs| - 1];
      DifficultiesAreAnnounced(init);
      SettingIsAnnounced(Replay(init).session, last);
      hide Dispatch, Setting, Difficulties;
      DifficultiesAppend(Replay(init).events, EventsOf(Replay(init).session, last));
      assert Replay(inputs).events == Replay(init).events + EventsOf(Replay(init).session, last);
    }
  }

  /** The id of the latest job delivered. */
  function LatestJobId(events: seq<Event>): string {
    if events == [] then ""
    else
      var last := events[|events| - 1];
      if last.JobEvent? then last.job.jobId else LatestJobId(events[..|events| - 1])
  }

  /** The current job is the latest one delivered, over lost connections too. */
  lemma {:induction false} CurrentJobIsLatest(inputs: seq<Input>)
    ensures Replay(inputs).session.currentJobId == LatestJobId(Replay(inputs).events)
  {
    if inputs != [] {
      var init, last := inputs[..|inputs| - 1], inputs[|inputs| - 1];
      var o := Replay(init);
      CurrentJobIsLatest(init);
      if last.Message? {
        CurrentKept(o, last.msg);
      }
      hide Dispatch, LatestJobId;
    }
  }

  lemma NoOtherJobs(s: Session, m: Value)
    requires !Notifies(m)
    ensures var events := Dispatch(s, m).events;
            forall k :: 0 <= k < |events| ==> !events[k].JobEvent?
  {
  }

  lemma CurrentKept(o: Outcome, m: Value)
    requires o.session.currentJobId == LatestJobId(o.events)
    ensures var n := o.Then(Dispatch(o.session, m));
            n.session.currentJobId == LatestJobId(n.events)
  {
    var d := Dispatch(o.session, m);
    DispatchFrame(o.session, m);
    if Notifies(m) {
      var j := JobOfNotification(o.session, m);
    } else {
      JobIffNotified(o.session, m);
      NoOtherJobs(o.session, m);
    }
    hide Dispatch;
    if d.events != [] {
      assert (o.events + d.events)[..|o.events|] == o.events;
    } else {
      assert o.events + d.events == o.events;
    }
  }
}
