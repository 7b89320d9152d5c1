/**
 Whole runs of the Stratum client: messages printed by a pool arrive intact
 however the bytes are cut, and the session is a function of the message history.
 */
module StratumRuns {
  import opened Wrappers
  import opened Json
  import opened JsonRoundTrip
  import opened Stratum
  import opened Concatenation
  import opened LineText

  // ------------------------------------------------- messages through chunks

  predicate Sendable(ms: seq<Value>) {
    forall k :: 0 <= k < |ms| ==> Exact(ms[k]) && Normal(ms[k])
  }

  /** What the peer writes: every message on a line of its own. */
  function Frames(ms: seq<Value>): string
    requires Sendable(ms)
  {
    if ms == [] then "" else Dump(ms[0]) + "\n" + Frames(ms[1..])
  }

  function Dumps(ms: seq<Value>): seq<string>
    requires Sendable(ms)
  {
    if ms == [] then [] else [Dump(ms[0])] + Dumps(ms[1..])
  }

  /** The messages dispatched one after the other, with no bytes in between. */
  function DispatchAll(o: Outcome, ms: seq<Value>): Outcome
    decreases ms
  {
    if ms == [] then o else DispatchAll(o.Then(Dispatch(o.session, ms[0])), ms[1..])
  }

  lemma PrintedIsDispatched(s: Session, m: Value)
    requires Exact(m) && Normal(m)
    ensures Parse(Dump(m)) == Some(m) && HandleText(s, Dump(m)) == Dispatch(s, m)
  {
    RoundTrip(m, "", "");
    assert "" + Dump(m) + "" == Dump(m);
    DumpIsOneLine(m);
  }

  /** Frames split into exactly the printed messages, whatever follows them. */
  lemma {:induction false} FramesSplit(ms: seq<Value>, after: string)
    requires Sendable(ms)
    ensures Lines(Frames(ms) + after) == Dumps(ms) + Lines(after)
    ensures Residue(Frames(ms) + after) == Residue(after)
  {
    if ms == [] {
      assert Frames(ms) + after == after;
    } else {
      FramesSplit(ms[1..], after);
      DumpIsOneLine(ms[0]);
      var first, others, dumps := Dump(ms[0]), Frames(ms[1..]), Dumps(ms[1..]);
      assert Frames(ms) == first + "\n" + others && Dumps(ms) == [first] + dumps;
      hide *;
      Assoc(first + "\n", others, after);
      LinesOfCons(first, others + after);
      Assoc([first], dumps, Lines(after));
    }
  }

  lemma {:induction false} DumpsAreDispatched(o: Outcome, ms: seq<Value>)
    requires Sendable(ms)
    ensures HandleLines(o, Dumps(ms)) == DispatchAll(o, ms)
    decreases ms
  {
    if ms != [] {
      PrintedIsDispatched(o.session, ms[0]);
      hide Dump, Dispatch, HandleText, Exact, Normal;
      assert Dumps(ms)[0] == Dump(ms[0]) && Dumps(ms)[1..] == Dumps(ms[1..]);
      DumpsAreDispatched(o.Then(Dispatch(o.session, ms[0])), ms[1..]);
    }
  }

  /** However the printed messages are cut into chunks, the client acts on the messages alone. */
  lemma EndToEnd(o: Outcome, ms: seq<Value>, chunks: seq<string>)
    requires Sendable(ms) && Concat(chunks) == Frames(ms)
    ensures HandleLines(o, Lines(Concat(chunks))) == DispatchAll(o, ms)
    ensures Residue(Concat(chunks)) == ""
  {
    FramesSplit(ms, "");
    assert Frames(ms) + "" == Frames(ms) && Dumps(ms) + [] == Dumps(ms);
    DumpsAreDispatched(o, ms);
  }

  /** A connection cut anywhere has acted on exactly the messages whose frame arrived whole. */
  lemma {:induction false} CutAnywhere(o: Outcome, ms: seq<Value>, received: string) returns (k: nat)
    requires Sendable(ms) && received <= Frames(ms)
    ensures k <= |ms| && |Frames(ms[..k])| <= |received|
    ensures k < |ms| ==> |received| < |Frames(ms[..k + 1])|
    ensures HandleLines(o, Lines(received)) == DispatchAll(o, ms[..k])
    decreases ms
  {
    hide Dump, Exact, Normal, Lines, Dispatch, HandleText;
    if ms == [] {
      assert Lines("") == [] by { OneUnfinishedLine(""); }
      return 0;
    }
    var first, others := Dump(ms[0]), Frames(ms[1..]);
    DumpIsOneLine(ms[0]);
    assert Frames(ms) == first + "\n" + others;
    if |received| <= |first| {
      assert received == first[..|received|];
      assert OneLine(received);
      OneUnfinishedLine(received);
      assert ms[..1] == [ms[0]];
      assert Frames([ms[0]]) == first + "\n" + Frames([]);
      return 0;
    }
    var rest := received[|first| + 1..];
    SplitFrame(received, first, others);
    var o' := o.Then(Dispatch(o.session, ms[0]));
    var j := CutAnywhere(o', ms[1..], rest);
    k := j + 1;
    FrameLength(ms, k);
    if k < |ms| {
      FrameLength(ms, k + 1);
    }
    LinesOfCons(first, rest);
    PrintedIsDispatched(o.session, ms[0]);
    assert ms[..k][0] == ms[0] && ms[..k][1..] == ms[1..][..j];
  }

  lemma OneUnfinishedLine(s: string)
    requires OneLine(s)
    ensures Lines(s) == []
  {
    NewlineIsFirst(s, "");
  }

  lemma SplitFrame(received: string, first: string, others: string)
    requires received <= first + "\n" + others && |received| > |first|
    ensures received == first + "\n" + received[|first| + 1..]
    ensures received[|first| + 1..] <= others
  {
    var all := first + "\n" + others;
    assert received == all[..|received|];
    assert all[|first| + 1..] == others;
  }

  lemma FrameLength(ms: seq<Value>, k: nat)
    requires Sendable(ms) && 0 < k <= |ms|
    ensures |Frames(ms[..k])| == |Dump(ms[0])| + 1 + |Frames(ms[1..][..k - 1])|
  {
    assert ms[..k][0] == ms[0] && ms[..k][1..] == ms[1..][..k - 1];
  }

  // --------------------------------------------------- what a pool can say

  datatype PoolMessage =
    | ClassicJob(jobId: string, prevHash: string, coinbase1: string, coinbase2: string, branches: seq<string>,
                 version: string, bits: string, time: string, clean: bool)
    | BlobJob(jobId: string, blob: string, seedHash: string, prevHash: string, difficulty: real, clean: bool)
    | NewDifficulty(difficulty: real)
    | Subscribed(extranonce1: string, extranonce2Size: nat)
    | Authorization(granted: bool)
    | Verdict(id: nat, accepted: bool, reason: string)

  function Call(name: string, params: seq<Value>): Value {
    Object([Member("id", Null), Member("method", String(name)), Member("params", Array(params))])
  }

  function Reply(id: nat, result: Value, error: Value): Value {
    Object([Member("id", Number(id as real)), Member("result", result), Member("error", error)])
  }

  function Texts(ss: seq<string>): seq<Value> {
    seq(|ss|, i requires 0 <= i < |ss| => String(ss[i]))
  }

  /** The wire form of a pool message, by the parameter positions of the protocol. */
  function Encode(p: PoolMessage): Value {
    match p
    case ClassicJob(jobId, prevHash, coinbase1, coinbase2, branches, version, bits, time, clean) =>
      Call("mining.notify", [String(jobId), String(prevHash), String(coinbase1), String(coinbase2),
                             Array(Texts(branches)), String(version), String(bits), String(time), Bool(clean)])
    case BlobJob(jobId, blob, seedHash, prevHash, difficulty, clean) =>
      Call("mining.notify", [String(jobId), String(blob), String(seedHash), String(prevHash),
                             Number(difficulty), Bool(clean), Null])
    case NewDifficulty(d) => Call("mining.set_difficulty", [Number(d)])
    case Subscribed(extranonce1, size) =>
      Reply(1, Array([Array([]), String(extranonce1), Number(size as real)]), Null)
    case Authorization(granted) => Reply(2, Bool(granted), Null)
    case Verdict(id, accepted, reason) =>
      Reply(id, Bool(accepted), if accepted then Null else Array([Number(20.0), String(reason)]))
  }

  /** What each pool message means for the client, by name. */
  function Effect(s: Session, p: PoolMessage): Outcome {
    match p
    case ClassicJob(_, _, _, _, _, _, _, _, _) =>
      Outcome(s.(currentJobId := p.jobId), [JobEvent(MiningJob(
        jobId := p.jobId, prevHash := p.prevHash, coinbase1 := p.coinbase1, coinbase2 := p.coinbase2,
        merkleBranches := p.branches, version := p.version, bits := p.bits, time := p.time,
        cleanJobs := p.clean, extranonce1 := s.extranonce1, extranonce2Size := s.extranonce2Size,
        difficulty := 1.0, seedHash := "", blob := ""))])
    case BlobJob(_, _, _, _, _, _) =>
      Outcome(s.(currentJobId := p.jobId), [JobEvent(MiningJob(
        jobId := p.jobId, prevHash := p.prevHash, coinbase1 := "", coinbase2 := "",
        merkleBranches := [], version := "", bits := "1d00ffff", time := "00000000",
        cleanJobs := p.clean, extranonce1 := s.extranonce1, extranonce2Size := s.extranonce2Size,
        difficulty := p.difficulty, seedHash := p.seedHash, blob := p.blob))])
    case NewDifficulty(d) => Outcome(s, [DifficultyEvent(d)])
    case Subscribed(extranonce1, size) =>
      Outcome(s.(extranonce1 := extranonce1, extranonce2Size := size), [])
    case Authorization(granted) => Outcome(s.(authorized := granted), [])
    case Verdict(_, accepted, reason) =>
      Outcome(s, [SubmitEvent(accepted, if accepted then "" else reason)])
  }

  /** Decoding undoes encoding: every pool message has its named effect. */
  lemma EncodedHasEffect(s: Session, p: PoolMessage)
    requires p.Subscribed? ==> p.extranonce2Size < 0x1_0000_0000
    requires p.Verdict? ==> p.id != 1 && p.id != 2
    ensures Dispatch(s, Encode(p)) == Effect(s, p)
  {
    match p
    case ClassicJob(_, _, _, _, branches, _, _, _, _) =>
      CallMembers("mining.notify", Encode(p).members[2].value.items);
      assert Strings(Texts(branches)) == branches;
    case BlobJob(_, _, _, _, _, _) =>
      CallMembers("mining.notify", Encode(p).members[2].value.items);
    case NewDifficulty(_) =>
      CallMembers("mining.set_difficulty", Encode(p).members[2].value.items);
    case Subscribed(_, _) =>
      ReplyMembers(1, Encode(p).members[1].value, Encode(p).members[2].value);
    case Authorization(_) =>
      ReplyMembers(2, Encode(p).members[1].value, Encode(p).members[2].value);
    case Verdict(id, _, _) =>
      ReplyMembers(id, Encode(p).members[1].value, Encode(p).members[2].value);
  }

  predicate WellSaid(p: PoolMessage) {
    Exact(Encode(p)) &&
    (p.Subscribed? ==> p.extranonce2Size < 0x1_0000_0000) &&
    (p.Verdict? ==> p.id != 1 && p.id != 2)
  }

  function EncodeAll(ps: seq<PoolMessage>): seq<Value> {
    if ps == [] then [] else [Encode(ps[0])] + EncodeAll(ps[1..])
  }

  function EffectAll(o: Outcome, ps: seq<PoolMessage>): Outcome
    decreases ps
  {
    if ps == [] then o else EffectAll(o.Then(Effect(o.session, ps[0])), ps[1..])
  }

  lemma TripleIsNormal(a: Member, b: Member, c: Member)
    requires a.key != b.key && a.key != c.key && b.key != c.key
    requires Normal(a.value) && Normal(b.value) && Normal(c.value)
    ensures Normal(Object([a, b, c]))
  {
  }

  lemma FlatIsNormal(items: seq<Value>)
    requires forall i :: 0 <= i < |items| ==> !items[i].Object? && (items[i].Array? ==> Normal(items[i]))
    ensures Normal(Array(items))
  {
  }

  lemma EncodedIsNormal(p: PoolMessage)
    ensures Normal(Encode(p))
  {
    var ms := Encode(p).members;
    assert Normal(Array([])) && Normal(Null);
    if p.ClassicJob? {
      FlatIsNormal(Texts(p.branches));
    }
    if ms[1].value.Array? {
      FlatIsNormal(ms[1].value.items);
    }
    if ms[2].value.Array? {
      FlatIsNormal(ms[2].value.items);
    }
    assert ms == [ms[0], ms[1], ms[2]];
    TripleIsNormal(ms[0], ms[1], ms[2]);
  }

  lemma {:induction false} EncodedAllHaveEffect(o: Outcome, ps: seq<PoolMessage>)
    requires forall k :: 0 <= k < |ps| ==> WellSaid(ps[k])
    ensures Sendable(EncodeAll(ps)) && DispatchAll(o, EncodeAll(ps)) == EffectAll(o, ps)
    decreases ps
  {
    if ps != [] {
      EncodedHasEffect(o.session, ps[0]);
      EncodedIsNormal(ps[0]);
      assert Exact(Encode(ps[0]));
      hide Encode, Effect, Dispatch, Exact, Normal, WellSaid;
      assert EncodeAll(ps)[0] == Encode(ps[0]) && EncodeAll(ps)[1..] == EncodeAll(ps[1..]);
      EncodedAllHaveEffect(o.Then(Effect(o.session, ps[0])), ps[1..]);
    }
  }

  /** From what the pool means to what the client does, across printing, cutting and parsing. */
  lemma PoolIsUnderstood(o: Outcome, ps: seq<PoolMessage>, chunks: seq<string>)
    requires forall k :: 0 <= k < |ps| ==> WellSaid(ps[k])
    requires Sendable(EncodeAll(ps)) && Concat(chunks) == Frames(EncodeAll(ps))
    ensures HandleLines(o, Lines(Concat(chunks))) == EffectAll(o, ps)
  {
    EndToEnd(o, EncodeAll(ps), chunks);
    EncodedAllHaveEffect(o, ps);
  }

  lemma CallMembers(name: string, params: seq<Value>)
    ensures Call(name, params).Get("method") == Some(String(name))
    ensures Call(name, params).Get("params") == Some(Array(params))
  {
    var ms := Call(name, params).members;
    LookupThree(ms, "method");
    LookupThree(ms, "params");
  }

  lemma ReplyMembers(id: nat, result: Value, error: Value)
    ensures var m := Reply(id, result, error);
            m.Get("method") == None && m.Get("id") == Some(Number(id as real)) &&
            m.Get("result") == Some(result) && m.Get("error") == Some(error)
  {
    var ms := Reply(id, result, error).members;
    LookupThree(ms, "method");
    LookupThree(ms, "id");
    LookupThree(ms, "result");
    LookupThree(ms, "error");
  }

  lemma LookupThree(ms: seq<Member>, key: string)
    requires |ms| == 3
    ensures Lookup(ms, key) == if ms[0].key == key then Some(ms[0].value)
                               else if ms[1].key == key then Some(ms[1].value)
                               else if ms[2].key == key then Some(ms[2].value)
                               else None
  {
    assert ms[1..][1..] == [ms[2]] && [ms[2]][1..] == [];
    assert Lookup([ms[2]], key) == if ms[2].key == key then Some(ms[2].value) else None;
  }

  // ------------------------------------------- the seven-element notification

  /**
   A seven-element notification delivers its fifth element as the difficulty if and
   only if that is a number, and its sixth as the clean flag if and only if that is a
   boolean; otherwise zero and false.
   */
  lemma BlobFieldsIffTyped(s: Session, arr: seq<Value>)
    requires |arr| == 7
    ensures var d := Notify(s, Array(arr));
            && |d.events| == 1 && d.events[0].JobEvent?
            && (arr[4] == Number(d.events[0].job.difficulty) <==> arr[4].Number?)
            && (arr[5] == Bool(d.events[0].job.cleanJobs) <==> arr[5].Bool?)
            && (!arr[4].Number? ==> d.events[0].job.difficulty == 0.0)
            && (!arr[5].Bool? ==> !d.events[0].job.cleanJobs)
  {
  }

  /** With the boolean fifth and the number sixth, as in a logged pool message, neither is used. */
  lemma SwappedFieldsAreLost(s: Session, id: string, blob: string, seed: string, prev: string, clean: bool,
                             height: real, bits: string)
    ensures Notify(s, Array([String(id), String(blob), String(seed), String(prev), Bool(clean), Number(height),
                             String(bits)])).events
         == [JobEvent(MiningJob(id, prev, "", "", [], "", "1d00ffff", "00000000", false, s.extranonce1,
                                s.extranonce2Size, 0.0, seed, blob))]
  {
    BlobFieldsIffTyped(s, [String(id), String(blob), String(seed), String(prev), Bool(clean), Number(height),
                           String(bits)]);
  }

  // ----------------------------------------------- the session is its history

  /** What moves the session: a parsed message, or the end of a connection. */
  datatype Input = Message(msg: Value) | Dropped

  function Take(o: Outcome, i: Input): Outcome {
    match i
    case Message(m) => o.Then(Dispatch(o.session, m))
    case Dropped => o.(session := Disconnected(o.session))
  }

  function Replay(inputs: seq<Input>): Outcome {
    if inputs == [] then Outcome(START, [])
    else Take(Replay(inputs[..|inputs| - 1]), inputs[|inputs| - 1])
  }

  function Messages(lines: seq<string>): seq<Input> {
    if lines == [] then []
    else match Parse(lines[0])
      case Some(m) => [Message(m)] + Messages(lines[1..])
      case None => Messages(lines[1..])
  }

  /** The inputs hidden in the bytes of a run of the connection loop. */
  function InputsOf(attempts: seq<Attempt>): seq<Input> {
    if attempts == [] then []
    else (match attempts[0]
          case Failed => []
          case Connected(chunks) => Messages(Lines(Concat(chunks)))) + [Dropped] + InputsOf(attempts[1..])
  }

  function TakeAll(o: Outcome, inputs: seq<Input>): Outcome
    decreases inputs
  {
    if inputs == [] then o else TakeAll(Take(o, inputs[0]), inputs[1..])
  }

  lemma {:induction false} TakeMore(o: Outcome, a: seq<Input>, b: seq<Input>)
    ensures TakeAll(o, a + b) == TakeAll(TakeAll(o, a), b)
    decreases a
  {
    if a == [] {
      assert a + b == b;
    } else {
      assert (a + b)[0] == a[0] && (a + b)[1..] == a[1..] + b;
      TakeMore(Take(o, a[0]), a[1..], b);
    }
  }

  lemma {:induction false} ReplayIsTakeAll(inputs: seq<Input>)
    ensures Replay(inputs) == TakeAll(Outcome(START, []), inputs)
  {
    if inputs != [] {
      var init, last := inputs[..|inputs| - 1], inputs[|inputs| - 1];
      ReplayIsTakeAll(init);
      assert inputs == init + [last];
      TakeMore(Outcome(START, []), init, [last]);
    }
  }

  lemma {:induction false} LinesAreInputs(o: Outcome, lines: seq<string>)
    ensures HandleLines(o, lines) == TakeAll(o, Messages(lines))
    decreases lines
  {
    if lines != [] {
      var o' := o.Then(HandleText(o.session, lines[0]));
      LinesAreInputs(o', lines[1..]);
      var parsed := Parse(lines[0]);
      hide Parse, Dispatch;
      if parsed.Some? {
        assert Messages(lines)[0] == Message(parsed.value) && Messages(lines)[1..] == Messages(lines[1..]);
      } else {
        assert o.events + [] == o.events;
      }
    }
  }

  lemma {:induction false} AttemptsAreInputs(o: Outcome, attempts: seq<Attempt>)
    ensures Life(o, attempts) == TakeAll(o, InputsOf(attempts))
    decreases attempts
  {
    if attempts != [] {
      var a, others := attempts[0], InputsOf(attempts[1..]);
      var now: seq<Input> := match a case Failed => [] case Connected(chunks) => Messages(Lines(Concat(chunks)));
      if a.Connected? {
        LinesAreInputs(o, Lines(Concat(a.chunks)));
      }
      hide Lines, Messages, Take;
      AttemptsAreInputs(RunAttempt(o, a), attempts[1..]);
      TakeMore(o, now + [Dropped], others);
      TakeMore(o, now, [Dropped]);
      DropIsTaken(TakeAll(o, now));
      assert InputsOf(attempts) == now + [Dropped] + others;
    }
  }

  lemma DropIsTaken(o: Outcome)
    ensures TakeAll(o, [Dropped]) == o.(session := Disconnected(o.session))
  {
    assert [Dropped][1..] == [];
  }

  /** A run over bytes is the replay of the messages in them: no line spans two connections. */
  lemma LifeIsReplay(attempts: seq<Attempt>)
    ensures Life(Outcome(START, []), attempts) == Replay(InputsOf(attempts))
  {
    AttemptsAreInputs(Outcome(START, []), attempts);
    ReplayIsTakeAll(InputsOf(attempts));
  }

  /** A message that names no method is a response. */
  predicate IsResponse(m: Value) {
    match m.Get("method") case Some(String(_)) => false case _ => true
  }

  predicate IsSubscription(m: Value) {
    IsResponse(m) && IdOf(m) == Some(1) &&
    match m.Get("result") case Some(Array(items)) => |items| >= 3 case _ => false
  }

  predicate IsAuthorization(m: Value) {
    IsResponse(m) && IdOf(m) == Some(2)
  }

  predicate IsVerdict(m: Value) {
    IsResponse(m) && IdOf(m).Some? && IdOf(m).value != 1 && IdOf(m).value != 2
  }

  /** Extranonce and its size, from the latest accepted subscription of all time. */
  function LatestSubscription(inputs: seq<Input>): (string, int) {
    if inputs == [] then ("", 4)
    else
      var last := inputs[|inputs| - 1];
      if last.Message? && IsSubscription(last.msg) then
        var items := last.msg.Get("result").value.items;
        (items[1].AsString(), ToUnsigned(items[2].AsNumber()))
      else LatestSubscription(inputs[..|inputs| - 1])
  }

  /** The latest authorize response since the last disconnect. */
  function LatestAuthorization(inputs: seq<Input>): bool {
    if inputs == [] then false
    else
      var last := inputs[|inputs| - 1];
      if last.Dropped? then false
      else if IsAuthorization(last.msg) then Succeeded(last.msg)
      else LatestAuthorization(inputs[..|inputs| - 1])
  }

  function Verdicts(inputs: seq<Input>, accepted: bool): nat {
    if inputs == [] then 0
    else
      var last := inputs[|inputs| - 1];
      Verdicts(inputs[..|inputs| - 1], accepted)
      + if last.Message? && IsVerdict(last.msg) && Succeeded(last.msg) == accepted then 1 else 0
  }

  function Results(events: seq<Event>, accepted: bool): nat {
    if events == [] then 0
    else (if events[0].SubmitEvent? && events[0].accepted == accepted then 1 else 0) + Results(events[1..], accepted)
  }

  lemma {:induction false} ResultsAppend(a: seq<Event>, b: seq<Event>, accepted: bool)
    ensures Results(a + b, accepted) == Results(a, accepted) + Results(b, accepted)
  {
    if a == [] {
      assert a + b == b;
    } else {
      assert (a + b)[0] == a[0] && (a + b)[1..] == a[1..] + b;
      ResultsAppend(a[1..], b, accepted);
    }
  }

  /** One message and the fields it may touch. */
  lemma DispatchFrame(s: Session, m: Value)
    ensures var d := Dispatch(s, m);
            (!IsSubscription(m) ==>
               d.session.extranonce1 == s.extranonce1 && d.session.extranonce2Size == s.extranonce2Size) &&
            d.session.authorized == (if IsAuthorization(m) then Succeeded(m) else s.authorized) &&
            (IsVerdict(m) ==> d.events == [SubmitEvent(Succeeded(m), if Succeeded(m) then "" else Reason(m))]) &&
            (!IsVerdict(m) ==> forall k :: 0 <= k < |d.events| ==> !d.events[k].SubmitEvent?) &&
            |d.events| <= 1 &&
            (forall k :: 0 <= k < |d.events| && d.events[k].JobEvent? ==>
               d.events[k].job.extranonce1 == s.extranonce1 && d.events[k].job.extranonce2Size == s.extranonce2Size)
  {
  }

  /** The session fields are what the history of messages and disconnects says. */
  lemma {:induction false} SessionIsHistory(inputs: seq<Input>)
    ensures var s := Replay(inputs).session;
            (s.extranonce1, s.extranonce2Size) == LatestSubscription(inputs) &&
            s.authorized == LatestAuthorization(inputs)
  {
    if inputs != [] {
      var init, last := inputs[..|inputs| - 1], inputs[|inputs| - 1];
      SessionIsHistory(init);
      if last.Message? {
        DispatchFrame(Replay(init).session, last.msg);
      }
    }
  }

  /** The callbacks made when an input is taken in a session. */
  function EventsOf(s: Session, i: Input): seq<Event> {
    match i
    case Message(m) => Dispatch(s, m).events
    case Dropped => []
  }

  /** The callbacks the first n inputs made. */
  function MadeBy(inputs: seq<Input>, n: nat): seq<Event>
    requires n <= |inputs|
  {
    Replay(inputs[..n]).events
  }

  /** Input n appends its own callbacks, made in the session the earlier inputs left. */
  lemma EventsOfInput(inputs: seq<Input>, n: nat)
    requires n < |inputs|
    ensures MadeBy(inputs, n + 1) == MadeBy(inputs, n) + EventsOf(Replay(inputs[..n]).session, inputs[n])
  {
    assert inputs[..n + 1][..n] == inputs[..n];
  }

  /** The callback at position p of a run was made by input n. */
  ghost predicate MadeAt(inputs: seq<Input>, p: nat, n: nat)
    requires n < |inputs|
  {
    |MadeBy(inputs, n)| <= p < |MadeBy(inputs, n + 1)|
  }

  lemma {:induction false} MadeByGrows(inputs: seq<Input>, m: nat, n: nat)
    requires m <= n <= |inputs|
    ensures MadeBy(inputs, m) <= MadeBy(inputs, n)
    decreases n - m
  {
    hide MadeBy, EventsOf;
    if m < n {
      EventsOfInput(inputs, m);
      MadeByGrows(inputs, m + 1, n);
    }
  }

  /** Each callback of a run was made by exactly one of its inputs. */
  lemma {:induction false} EventHasInput(inputs: seq<Input>, p: nat) returns (n: nat)
    requires p < |Replay(inputs).events|
    ensures n < |inputs| && MadeAt(inputs, p, n)
    ensures forall m: nat :: m < |inputs| && MadeAt(inputs, p, m) ==> m == n
  {
    assert inputs[..|inputs|] == inputs;
    n := FirstPast(inputs, p, |inputs|);
    hide MadeBy;
    forall m: nat | m < |inputs| && MadeAt(inputs, p, m) ensures m == n {
      if m < n {
        MadeByGrows(inputs, m + 1, n);
      } else if n < m {
        MadeByGrows(inputs, n + 1, m);
      }
    }
  }

  lemma {:induction false} FirstPast(inputs: seq<Input>, p: nat, k: nat) returns (n: nat)
    requires k <= |inputs| && p < |MadeBy(inputs, k)|
    ensures n < k && MadeAt(inputs, p, n)
  {
    assert inputs[..0] == [];
    if |MadeBy(inputs, k - 1)| <= p {
      n := k - 1;
    } else {
      n := FirstPast(inputs, p, k - 1);
    }
  }

  /**
   The callback at any position is the one its own input made, and if it is a job
   the job carries the extranonce of the latest subscription before that input.
   */
  lemma JobsCarryLatestSubscription(inputs: seq<Input>, p: nat, n: nat)
    requires n < |inputs| && MadeAt(inputs, p, n) && p < |Replay(inputs).events|
    ensures var own := EventsOf(Replay(inputs[..n]).session, inputs[n]);
            var e := Replay(inputs).events[p];
            && p - |MadeBy(inputs, n)| < |own| && e == own[p - |MadeBy(inputs, n)|]
            && (e.JobEvent? ==> (e.job.extranonce1, e.job.extranonce2Size) == LatestSubscription(inputs[..n]))
  {
    var s := Replay(inputs[..n]).session;
    EventsOfInput(inputs, n);
    MadeByGrows(inputs, n + 1, |inputs|);
    assert inputs[..|inputs|] == inputs;
    if inputs[n].Message? {
      DispatchFrame(s, inputs[n].msg);
    }
    SessionIsHistory(inputs[..n]);
    hide Dispatch, LatestSubscription, Replay, LatestAuthorization;
  }

  /** Message by message: the jobs one message delivers carry the latest subscription before it. */
  lemma MessageJobsCarryLatestSubscription(inputs: seq<Input>, n: nat, k: nat)
    requires n < |inputs| && inputs[n].Message?
    requires k < |Dispatch(Replay(inputs[..n]).session, inputs[n].msg).events|
    ensures var e := Dispatch(Replay(inputs[..n]).session, inputs[n].msg).events[k];
            e.JobEvent? ==> (e.job.extranonce1, e.job.extranonce2Size) == LatestSubscription(inputs[..n])
  {
    DispatchFrame(Replay(inputs[..n]).session, inputs[n].msg);
    SessionIsHistory(inputs[..n]);
  }

  /** Accepted and rejected results are delivered once per share verdict, and for nothing else. */
  lemma {:induction false} ResultsAreVerdicts(inputs: seq<Input>, accepted: bool)
    ensures Results(Replay(inputs).events, accepted) == Verdicts(inputs, accepted)
  {
    if inputs != [] {
      var init, last := inputs[..|inputs| - 1], inputs[|inputs| - 1];
      ResultsAreVerdicts(init, accepted);
      if last.Message? {
        var s := Replay(init).session;
        DispatchFrame(s, last.msg);
        var latest := Dispatch(s, last.msg).events;
        hide Dispatch;
        ResultsAppend(Replay(init).events, latest, accepted);
        if |latest| == 1 {
          assert latest[1..] == [];
        }
      }
    }
  }
}
