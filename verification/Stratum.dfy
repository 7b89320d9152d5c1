/**
 The receiving side of network::StratumClient: what one message does to the
 session, how received bytes become lines, and the client class whose loops
 refine both, whatever the chunks the socket delivers.
 */
module Stratum {
  import opened Wrappers
  import opened Json
  import opened LineText
  import JsonParser

  datatype MiningJob = MiningJob(
    jobId: string, prevHash: string, coinbase1: string, coinbase2: string,
    merkleBranches: seq<string>, version: string, bits: string, time: string,
    cleanJobs: bool, extranonce1: string, extranonce2Size: int,
    difficulty: real, seedHash: string, blob: string)

  /** The callbacks the client makes. */
  datatype Event =
    | JobEvent(job: MiningJob)
    | DifficultyEvent(difficulty: real)
    | SubmitEvent(accepted: bool, message: string)

  /** The fields the handlers update. */
  datatype Session = Session(extranonce1: string, extranonce2Size: int, authorized: bool, currentJobId: string)

  const START := Session("", 4, false, "")

  /** A session and the callbacks made so far. */
  datatype Outcome = Outcome(session: Session, events: seq<Event>)
  {
    function Then(next: Outcome): Outcome {
      Outcome(next.session, events + next.events)
    }
  }

  // ------------------------------------------------------------ one message

  /** static_cast from double to an integer type: toward zero. */
  function Truncate(x: real): int {
    if x >= 0.0 then x.Floor else -((-x).Floor)
  }

  /** static_cast<unsigned int>: the low 32 bits of the truncated number. */
  function ToUnsigned(x: real): int {
    Truncate(x) % 0x1_0000_0000
  }

  function Strings(vs: seq<Value>): seq<string> {
    seq(|vs|, i requires 0 <= i < |vs| => vs[i].AsString())
  }

  function Notify(s: Session, params: Value): Outcome {
    var arr := params.AsArray();
    if |arr| == 7 then
      var job := MiningJob(
        arr[0].AsString(), arr[3].AsString(), "", "", [], "", "1d00ffff", "00000000",
        arr[5].IsTrue(), s.extranonce1, s.extranonce2Size,
        arr[4].AsNumber(), arr[2].AsString(), arr[1].AsString());
      Outcome(s.(currentJobId := job.jobId), [JobEvent(job)])
    else if |arr| >= 9 then
      var job := MiningJob(
        arr[0].AsString(), arr[1].AsString(), arr[2].AsString(), arr[3].AsString(),
        Strings(arr[4].AsArray()), arr[5].AsString(), arr[6].AsString(), arr[7].AsString(),
        arr[8].IsTrue(), s.extranonce1, s.extranonce2Size,
        1.0, "", "");
      Outcome(s.(currentJobId := job.jobId), [JobEvent(job)])
    else
      Outcome(s, [])
  }

  function SetDifficulty(s: Session, params: Value): Outcome {
    var arr := params.AsArray();
    Outcome(s, if arr == [] then [] else [DifficultyEvent(arr[0].AsNumber())])
  }

  /** The numeric id of a message, truncated to an integer. */
  function IdOf(msg: Value): Option<int> {
    match msg.Get("id")
    case Some(Number(n)) => Some(Truncate(n))
    case _ => None
  }

  /** A result of `true` and no error other than null. */
  predicate Succeeded(msg: Value) {
    var error := msg.Get("error");
    msg.Get("result") == Some(Bool(true)) && (error == None || error == Some(Null))
  }

  /** The pool's reason: the last element of an error array. */
  function Reason(msg: Value): string {
    match msg.Get("error")
    case Some(Array(items)) => if items == [] then "" else items[|items| - 1].AsString()
    case _ => ""
  }

  function Response(s: Session, msg: Value): Outcome {
    match IdOf(msg)
    case None => Outcome(s, [])
    case Some(id) =>
      if id == 2 then
        Outcome(s.(authorized := Succeeded(msg)), [])
      else if id == 1 then
        match msg.Get("result")
        case Some(Array(items)) =>
          if |items| >= 3 then
            Outcome(s.(extranonce1 := items[1].AsString(), extranonce2Size := ToUnsigned(items[2].AsNumber())), [])
          else Outcome(s, [])
        case _ => Outcome(s, [])
      else
        Outcome(s, [SubmitEvent(Succeeded(msg), if Succeeded(msg) then "" else Reason(msg))])
  }

  function Dispatch(s: Session, msg: Value): Outcome {
    match msg.Get("method")
    case Some(String(name)) =>
      var params := match msg.Get("params") case Some(p) => p case None => Array([]);
      if name == "mining.notify" then Notify(s, params)
      else if name == "mining.set_difficulty" then SetDifficulty(s, params)
      else Outcome(s, [])
    case _ => Response(s, msg)
  }

  function HandleText(s: Session, line: string): Outcome {
    if line == "" then Outcome(s, [])
    else match Parse(line)
      case None => Outcome(s, [])
      case Some(msg) => Dispatch(s, msg)
  }

  // ------------------------------------------------------------------- lines

  function Concat(chunks: seq<string>): string {
    if chunks == [] then "" else chunks[0] + Concat(chunks[1..])
  }

  function HandleLines(o: Outcome, lines: seq<string>): Outcome
    decreases lines
  {
    if lines == [] then o else HandleLines(o.Then(HandleText(o.session, lines[0])), lines[1..])
  }

  // -------------------------------------------------------------- whole runs

  /** One turn of the connection loop: a failed attempt, or the chunks received until it ended. */
  datatype Attempt = Failed | Connected(chunks: seq<string>)

  function Disconnected(s: Session): Session {
    s.(authorized := false)
  }

  /** One connection handles the lines of all it received and forgets the residue. */
  function RunAttempt(o: Outcome, a: Attempt): Outcome {
    var done := match a
      case Failed => o
      case Connected(chunks) => HandleLines(o, Lines(Concat(chunks)));
    done.(session := Disconnected(done.session))
  }

  function Life(o: Outcome, attempts: seq<Attempt>): Outcome
    decreases attempts
  {
    if attempts == [] then o else Life(RunAttempt(o, attempts[0]), attempts[1..])
  }

  // -------------------------------------------------------------- the client

  class StratumClient {
    var extranonce1: string
    var extranonce2Size: int
    var authorized: bool
    var currentJobId: string
    var events: seq<Event>  // the callbacks made, in order

    constructor ()
      ensures Now() == Outcome(START, [])
    {
      extranonce1, extranonce2Size, authorized, currentJobId := "", 4, false, "";
      events := [];
    }

    ghost function Now(): Outcome
      reads this
    {
      Outcome(Session(extranonce1, extranonce2Size, authorized, currentJobId), events)
    }

    method HandleNotify(params: Value)
      modifies this
      ensures Now() == old(Now()).Then(Notify(old(Now().session), params))
    {
      if !params.Array? {
        return;
      }
      var arr := params.items;
      if |arr| == 7 {
        var job := MiningJob(
          arr[0].AsString(), arr[3].AsString(), "", "", [], "", "1d00ffff", "00000000",
          arr[5].Bool? && arr[5].b, extranonce1, extranonce2Size,
          arr[4].AsNumber(), arr[2].AsString(), arr[1].AsString());
        currentJobId := job.jobId;
        events := events + [JobEvent(job)];
      } else if |arr| >= 9 {
        var branches := [];
        if arr[4].Array? {
          for i := 0 to |arr[4].items|
            invariant branches == Strings(arr[4].items[..i])
          {
            branches := branches + [arr[4].items[i].AsString()];
          }
        }
        assert arr[4].Array? ==> arr[4].items[..|arr[4].items|] == arr[4].items;
        assert branches == Strings(arr[4].AsArray());
        var job := MiningJob(
          arr[0].AsString(), arr[1].AsString(), arr[2].AsString(), arr[3].AsString(),
          branches, arr[5].AsString(), arr[6].AsString(), arr[7].AsString(),
          arr[8].Bool? && arr[8].b, extranonce1, extranonce2Size, 1.0, "", "");
        currentJobId := job.jobId;
        events := events + [JobEvent(job)];
      }
    }

    method HandleSetDifficulty(params: Value)
      modifies this
      ensures Now() == old(Now()).Then(SetDifficulty(old(Now().session), params))
    {
      if !params.Array? || params.items == [] {
        return;
      }
      events := events + [DifficultyEvent(params.items[0].AsNumber())];
    }

    method HandleResponse(msg: Value)
      modifies this
      ensures Now() == old(Now()).Then(Response(old(Now().session), msg))
    {
      var idOpt := msg.Get("id");
      if idOpt == None || !idOpt.value.Number? {
        return;
      }
      var id := Truncate(idOpt.value.AsNumber());
      var resultOpt := msg.Get("result");
      var resultTrue := resultOpt.Some? && resultOpt.value.Bool? && resultOpt.value.b;
      var errorOpt := msg.Get("error");
      var hasError := errorOpt.Some? && !errorOpt.value.Null?;
      if id == 2 {
        authorized := resultTrue && !hasError;
        return;
      }
      if id == 1 {
        if resultOpt.Some? && resultOpt.value.Array? && |resultOpt.value.items| >= 3 {
          extranonce1 := resultOpt.value.items[1].AsString();
          extranonce2Size := ToUnsigned(resultOpt.value.items[2].AsNumber());
        }
        return;
      }
      var accepted := resultTrue && !hasError;
      var message := "";
      if !accepted {
        if errorOpt.Some? && errorOpt.value.Array? && errorOpt.value.items != [] {
          var reasons := errorOpt.value.items;
          message := reasons[|reasons| - 1].AsString();
        }
      }
      events := events + [SubmitEvent(accepted, message)];
    }

    method HandleLine(line: string)
      modifies this
      ensures Now() == old(Now()).Then(HandleText(old(Now().session), line))
    {
      if line == "" {
        return;
      }
      var parsed := JsonParser.ParseText(line);
      if parsed == None {
        return;
      }
      var msg := parsed.value;
      var methodOpt := msg.Get("method");
      if methodOpt.Some? && methodOpt.value.String? {
        var name := methodOpt.value.s;
        var paramsOpt := msg.Get("params");
        var params := if paramsOpt.Some? then paramsOpt.value else Array([]);
        if name == "mining.notify" {
          HandleNotify(params);
        } else if name == "mining.set_difficulty" {
          HandleSetDifficulty(params);
        }
        return;
      }
      HandleResponse(msg);
    }

    /** The receive loop of one connection: append a chunk, hand over every complete line. */
    method Receive(chunks: seq<string>) returns (ghost leftover: string)
      modifies this
      ensures Now() == HandleLines(old(Now()), Lines(Concat(chunks)))
      ensures leftover == Residue(Concat(chunks))
    {
      var lineBuffer := "";
      ghost var start := Now();
      for k := 0 to |chunks|
        invariant lineBuffer == Residue(Concat(chunks[..k]))
        invariant Now() == HandleLines(start, Lines(Concat(chunks[..k])))
      {
        ghost var before := Concat(chunks[..k]);
        ConcatGrows(chunks, k);
        LinesOfMore(before, chunks[k]);
        lineBuffer := lineBuffer + chunks[k];
        ghost var all := Lines(lineBuffer);
        ghost var end := Residue(lineBuffer);
        ghost var handled: seq<string> := [];
        assert HandleLines(Now(), all) == HandleLines(start, Lines(before) + all) by {
          HandleMore(start, Lines(before), all);
        }
        var newlinePos := NewlineAt(lineBuffer);
        while newlinePos < |lineBuffer|
          invariant newlinePos == NewlineAt(lineBuffer)
          invariant Residue(lineBuffer) == end
          invariant HandleLines(Now(), Lines(lineBuffer)) == HandleLines(start, Lines(before) + all)
          decreases |lineBuffer|
        {
          var line := lineBuffer[..newlinePos];
          lineBuffer := lineBuffer[newlinePos + 1..];
          HandleLine(line);
          newlinePos := NewlineAt(lineBuffer);
        }
      }
      assert chunks[..|chunks|] == chunks;
      leftover := lineBuffer;
    }

    method Disconnect()
      modifies this
      ensures Now() == old(Now()).(session := Disconnected(old(Now().session)))
    {
      authorized := false;
    }

    /** The connection loop: attempt, receive, disconnect, again. */
    method RunLoop(attempts: seq<Attempt>)
      modifies this
      ensures Now() == Life(old(Now()), attempts)
    {
      for k := 0 to |attempts|
        invariant Life(Now(), attempts[k..]) == Life(old(Now()), attempts)
      {
        assert attempts[k..][0] == attempts[k] && attempts[k..][1..] == attempts[k + 1..];
        match attempts[k] {
          case Failed =>
          case Connected(chunks) =>
            ghost var leftover := Receive(chunks);
        }
        Disconnect();
      }
    }
  }

  // -------------------------------------------------------- facts about lines

  lemma ConcatGrows(chunks: seq<string>, k: nat)
    requires k < |chunks|
    ensures Concat(chunks[..k + 1]) == Concat(chunks[..k]) + chunks[k]
  {
    assert chunks[..k + 1] == chunks[..k] + [chunks[k]];
    ConcatAppend(chunks[..k], chunks[k]);
  }

  lemma {:induction false} ConcatAppend(chunks: seq<string>, c: string)
    ensures Concat(chunks + [c]) == Concat(chunks) + c
  {
    if chunks == [] {
      assert chunks + [c] == [c];
    } else {
      assert (chunks + [c])[0] == chunks[0] && (chunks + [c])[1..] == chunks[1..] + [c];
      ConcatAppend(chunks[1..], c);
    }
  }

  lemma {:induction false} HandleMore(o: Outcome, a: seq<string>, b: seq<string>)
    ensures HandleLines(o, a + b) == HandleLines(HandleLines(o, a), b)
    decreases a
  {
    if a == [] {
      assert a + b == b;
    } else {
      assert (a + b)[0] == a[0] && (a + b)[1..] == a[1..] + b;
      HandleMore(o.Then(HandleText(o.session, a[0])), a[1..], b);
    }
  }
}
