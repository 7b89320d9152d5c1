/**
 The sending side of network::StratumClient: request ids, newline framing over
 partial writes, and concurrent submissions as a step system.
 */
module StratumSubmit {
  import opened Wrappers
  import opened Shares
  import opened Json
  import opened JsonRoundTrip
  import JsonParser
  import opened Stratum
  import opened StratumRuns
  import opened Concatenation
  import opened LineText

  function Request(id: nat, name: string, params: seq<Value>): Value {
    Object([Member("id", Number(id as real)), Member("method", String(name)), Member("params", Array(params))])
  }

  function ShareParams(login: string, share: Share): seq<Value> {
    match share
    case ClassicShare(jobId, extranonce2, ntime, nonceHex) =>
      [String(login), String(jobId), String(extranonce2), String(ntime), String(nonceHex)]
    case BlobShare(jobId, blob) =>
      [String(login), String(jobId), String(blob)]
  }

  function Submission(login: string, t: Ticket): Value {
    Request(t.id, "mining.submit", ShareParams(login, t.share))
  }

  function Handshake(login: string, password: string): seq<Value> {
    [Request(1, "mining.subscribe", [String("cpp-miner/1.0")]),
     Request(2, "mining.authorize", [String(login), String(password)])]
  }

  lemma IdIsSendable(id: nat)
    requires id <= MAX_EXACT
    ensures Exact(Number(id as real)) && Normal(Number(id as real))
  {
    SmallIsExact(id);
    hide ExactInteger;
  }

  lemma TextsAreSendable(params: seq<Value>)
    requires forall i :: 0 <= i < |params| ==> params[i].String?
    ensures Exact(Array(params)) && Normal(Array(params))
  {
    hide ExactInteger;
  }

  lemma ThreeAreExact(ms: seq<Member>)
    requires |ms| == 3 && Exact(ms[0].value) && Exact(ms[1].value) && Exact(ms[2].value)
    ensures Exact(Object(ms))
  {
    hide ExactInteger;
  }

  lemma RequestIsSendable(id: nat, name: string, params: seq<Value>)
    requires id <= MAX_EXACT && forall i :: 0 <= i < |params| ==> params[i].String?
    ensures Exact(Request(id, name, params)) && Normal(Request(id, name, params))
  {
    IdIsSendable(id);
    TextsAreSendable(params);
    assert Exact(String(name)) && Normal(String(name));
    var ms := Request(id, name, params).members;
    hide Exact, Normal;
    ThreeAreExact(ms);
    TripleIsNormal(ms[0], ms[1], ms[2]);
  }

  lemma SubmissionIsSendable(login: string, t: Ticket)
    requires t.id <= MAX_EXACT
    ensures Exact(Submission(login, t)) && Normal(Submission(login, t))
  {
    RequestIsSendable(t.id, "mining.submit", ShareParams(login, t.share));
  }

  lemma HandshakeIsSendable(login: string, password: string)
    ensures Sendable(Handshake(login, password))
  {
    RequestIsSendable(1, "mining.subscribe", [String("cpp-miner/1.0")]);
    RequestIsSendable(2, "mining.authorize", [String(login), String(password)]);
  }

  // ------------------------------------------------------------- one thread

  class Sender {
    const login: string
    var nextRequestId: nat
    var wire: string  // the bytes the current socket has accepted

    constructor (wallet: string, worker: string)
      ensures nextRequestId == 1 && wire == "" && login == wallet + "." + worker
    {
      login := wallet + "." + worker;
      nextRequestId := 1;
      wire := "";
    }

    /** Writes a line and its newline; `kernel` answers the successive send calls. */
    method SendLine(jsonLine: string, kernel: seq<int>) returns (ok: bool, sent: nat)
      modifies this`wire
      ensures sent <= |jsonLine| + 1 && wire == old(wire) + (jsonLine + "\n")[..sent]
      ensures ok <==> sent == |jsonLine| + 1
    {
      var withNewline := jsonLine + "\n";
      sent := 0;
      var call := 0;
      while sent < |withNewline|
        invariant sent <= |withNewline|
        invariant wire == old(wire) + withNewline[..sent]
        decreases |withNewline| - sent
      {
        var n := if call < |kernel| then kernel[call] else -1;
        call := call + 1;
        if n <= 0 {
          return false, sent;
        }
        if n > |withNewline| - sent {
          n := |withNewline| - sent;
        }
        wire := wire + withNewline[sent..sent + n];
        assert withNewline[..sent] + withNewline[sent..sent + n] == withNewline[..sent + n];
        sent := sent + n;
      }
      return true, sent;
    }

    method Submit(share: Share, kernel: seq<int>) returns (id: nat, ok: bool)
      requires nextRequestId < MAX_EXACT
      modifies this
      ensures id == old(nextRequestId) + 1 && nextRequestId == id
      ensures Exact(Submission(login, Ticket(id, share)))
      ensures ok ==> wire == old(wire) + Dump(Submission(login, Ticket(id, share))) + "\n"
      ensures !ok ==> exists n: nat ::
                n <= |Dump(Submission(login, Ticket(id, share)))|
                && wire == old(wire) + (Dump(Submission(login, Ticket(id, share))) + "\n")[..n]
    {
      var params: seq<Value>;
      match share {
        case ClassicShare(jobId, extranonce2, ntime, nonceHex) =>
          params := [String(login), String(jobId)];
          params := params + [String(extranonce2)] + [String(ntime)] + [String(nonceHex)];
        case BlobShare(jobId, blob) =>
          params := [String(login), String(jobId)];
          params := params + [String(blob)];
      }
      assert params == ShareParams(login, share);
      nextRequestId := nextRequestId + 1;
      id := nextRequestId;
      var req: seq<Member> := JsonParser.SetMember([], "id", Number(id as real));
      req := JsonParser.SetMember(req, "method", String("mining.submit"));
      req := JsonParser.SetMember(req, "params", Array(params));
      RequestBySets(id, "mining.submit", params);
      SubmissionIsSendable(login, Ticket(id, share));
      var line := JsonParser.DumpText(Object(req));
      var sent;
      ok, sent := SendLine(line, kernel);
      if ok {
        assert (line + "\n")[..sent] == line + "\n";
        Assoc(old(wire), line, "\n");
      }
    }
  }

  lemma RequestBySets(id: nat, name: string, params: seq<Value>)
    ensures Object(Set(Set(Set([], "id", Number(id as real)), "method", String(name)), "params", Array(params)))
         == Request(id, name, params)
  {
    var one := [Member("id", Number(id as real))];
    SetAppends(one, "method", String(name));
    SetAppends(one + [Member("method", String(name))], "params", Array(params));
  }

  // ------------------------------------------------------------ many threads

  /** A share with the request id it drew. */
  datatype Ticket = Ticket(id: nat, share: Share)

  /** A line written whole: one of the two handshake requests, or a share. */
  datatype Said = Hello(number: nat) | Filed(ticket: Ticket)

  /** The one write of a share, and whether the socket took all of it. */
  datatype Effort = Effort(ticket: Ticket, whole: bool)

  /**
   Ids are drawn under one mutex and lines written under another. `efforts` records
   the writes of the whole run, over all connections; no step reads it.
   */
  datatype Traffic = Traffic(
    next: nat,                    // nextRequestId_
    drawn: seq<Ticket>,           // every ticket ever drawn, in order
    waiting: map<nat, Ticket>,    // by thread: drawn and not yet written
    open: bool,                   // the socket exists
    greeted: nat,                 // handshake lines attempted on this connection
    said: seq<Said>,              // lines written whole on this connection, before any failure
    broken: bool,                 // a write failed on this connection
    wire: string,                 // the bytes this connection's socket took
    efforts: seq<Effort>)         // every write of a share so far

  datatype Step =
    | Connect
    | Greet(count: nat)               // connectOnce writes its next line; the socket takes count bytes
    | Draw(thread: nat, share: Share)
    | Write(thread: nat, count: nat)  // a share's frame, of which the socket takes count bytes
    | Disconnect

  function Initial(): Traffic {
    Traffic(1, [], map[], false, 2, [], false, "", [])
  }

  /** Who is sending. */
  datatype Account = Account(login: string, password: string)

  predicate Speakable(x: Said) {
    match x case Hello(n) => 1 <= n <= 2 case Filed(t) => t.id <= MAX_EXACT
  }

  function RequestOf(a: Account, x: Said): Value
    requires Speakable(x)
  {
    match x
    case Hello(n) => Handshake(a.login, a.password)[n - 1]
    case Filed(t) => Submission(a.login, t)
  }

  lemma RequestIsExact(a: Account, x: Said)
    requires Speakable(x)
    ensures Exact(RequestOf(a, x)) && Normal(RequestOf(a, x))
  {
    match x
    case Hello(n) => HandshakeIsSendable(a.login, a.password);
    case Filed(t) => SubmissionIsSendable(a.login, t);
  }

  function FrameOf(a: Account, x: Said): string
    requires Speakable(x)
  {
    RequestIsExact(a, x);
    Dump(RequestOf(a, x)) + "\n"
  }

  predicate Enabled(a: Account, s: Traffic, step: Step) {
    match step
    case Connect => !s.open
    case Greet(n) => s.open && s.greeted < 2 && n <= |FrameOf(a, Hello(s.greeted + 1))|
    case Draw(t, _) => t !in s.waiting && s.next < MAX_EXACT
    case Write(t, n) => t in s.waiting && s.waiting[t].id <= MAX_EXACT && n <= |FrameOf(a, Filed(s.waiting[t]))|
                        && (!s.open ==> n == 0)
    case Disconnect => true
  }

  /** The socket takes the first bytes of a frame. */
  function Say(a: Account, s: Traffic, x: Said, count: nat): Traffic
    requires Speakable(x) && count <= |FrameOf(a, x)|
  {
    var t := s.(wire := s.wire + FrameOf(a, x)[..count]);
    if count < |FrameOf(a, x)| || s.broken then t.(broken := true) else t.(said := s.said + [x])
  }

  function Next(a: Account, s: Traffic, step: Step): Traffic
    requires Enabled(a, s, step)
  {
    match step
    case Connect => s.(open := true, greeted := 0, said := [], broken := false, wire := "")
    case Greet(n) =>
      // a failed line makes connectOnce give up
      var hello := Hello(s.greeted + 1);
      Say(a, s, hello, n).(greeted := if n < |FrameOf(a, hello)| then 2 else s.greeted + 1)
    case Draw(t, share) =>
      var ticket := Ticket(s.next + 1, share);
      s.(next := s.next + 1, drawn := s.drawn + [ticket], waiting := s.waiting[t := ticket])
    case Write(t, n) =>
      var ticket := s.waiting[t];
      Say(a, s, Filed(ticket), n).(
        waiting := s.waiting - {t},
        efforts := s.efforts + [Effort(ticket, n == |FrameOf(a, Filed(ticket))|)])
    case Disconnect => s.(open := false, greeted := 2)
  }

  predicate AllSpeakable(said: seq<Said>) {
    forall k :: 0 <= k < |said| ==> Speakable(said[k])
  }

  /** Everything the pool should be able to read on this connection. */
  function Written(a: Account, said: seq<Said>): seq<Value>
    requires AllSpeakable(said)
  {
    if said == [] then [] else Written(a, said[..|said| - 1]) + [RequestOf(a, said[|said| - 1])]
  }

  predicate IsDrawn(s: Traffic, t: Ticket) {
    2 <= t.id < |s.drawn| + 2 && s.drawn[t.id - 2] == t
  }

  /** Ids: drawn consecutively, and no ticket is both waiting and written, or written twice. */
  ghost predicate IdsHold(s: Traffic) {
    && s.next == |s.drawn| + 1 && s.next <= MAX_EXACT
    && (forall k :: 0 <= k < |s.drawn| ==> s.drawn[k].id == k + 2)
    && (forall t :: t in s.waiting ==> IsDrawn(s, s.waiting[t]))
    && (forall t, u :: t in s.waiting && u in s.waiting && t != u ==> s.waiting[t].id != s.waiting[u].id)
  }

  /** Lines: handshake requests in order, every share one that was drawn, none twice. */
  ghost predicate SaidHolds(s: Traffic) {
    && s.greeted <= 2
    && (forall k :: 0 <= k < |s.said| ==>
          if s.said[k].Hello? then 1 <= s.said[k].number <= s.greeted else IsDrawn(s, s.said[k].ticket))
    && (forall j, k :: 0 <= j < k < |s.said| ==> InOrder(s.said[j], s.said[k]))
    && (forall t, k :: t in s.waiting && 0 <= k < |s.said| ==> s.said[k] != Filed(s.waiting[t]))
  }

  predicate Waits(s: Traffic, ticket: Ticket, thread: nat) {
    thread in s.waiting && s.waiting[thread] == ticket
  }

  predicate TriedAt(s: Traffic, ticket: Ticket, k: nat) {
    k < |s.efforts| && s.efforts[k].ticket == ticket
  }

  predicate WholeAt(s: Traffic, ticket: Ticket, k: nat) {
    TriedAt(s, ticket, k) && s.efforts[k].whole
  }

  /** A ticket drawn is with its thread until it is written. */
  ghost predicate Kept(s: Traffic, ticket: Ticket) {
    (exists t :: Waits(s, ticket, t)) || exists k :: TriedAt(s, ticket, k)
  }

  /** Over all connections a share is written once and never while it waits, and none is dropped. */
  ghost predicate EffortsHold(s: Traffic) {
    && (forall k :: 0 <= k < |s.efforts| ==> IsDrawn(s, s.efforts[k].ticket))
    && (forall j, k :: 0 <= j < k < |s.efforts| ==> s.efforts[j].ticket.id != s.efforts[k].ticket.id)
    && (forall t, k :: t in s.waiting && 0 <= k < |s.efforts| ==> s.waiting[t].id != s.efforts[k].ticket.id)
  }

  ghost predicate KeptHolds(s: Traffic) {
    && (forall k :: 0 <= k < |s.drawn| ==> Kept(s, s.drawn[k]))
    && (forall k :: 0 <= k < |s.said| && s.said[k].Filed? ==> exists j :: WholeAt(s, s.said[k].ticket, j))
  }

  predicate InOrder(x: Said, y: Said) {
    && (x.Hello? && y.Hello? ==> x.number < y.number)
    && (x.Filed? && y.Filed? ==> x.ticket.id != y.ticket.id)
  }

  /** Bytes: the whole frames first, and nothing after them until a write fails. */
  ghost predicate WireHolds(a: Account, s: Traffic) {
    && AllSpeakable(s.said) && Sendable(Written(a, s.said))
    && Frames(Written(a, s.said)) <= s.wire
    && (!s.broken ==> Frames(Written(a, s.said)) == s.wire)
  }

  ghost predicate Inv(a: Account, s: Traffic) {
    IdsHold(s) && SaidHolds(s) && EffortsHold(s) && KeptHolds(s) && WireHolds(a, s)
  }

  lemma {:induction false} FramesAppend(ms: seq<Value>, m: Value)
    requires Sendable(ms) && Exact(m) && Normal(m)
    ensures Sendable(ms + [m]) && Frames(ms + [m]) == Frames(ms) + (Dump(m) + "\n")
  {
    hide Exact, Normal, Dump;
    if ms == [] {
      assert ms + [m] == [m];
      assert Frames([m]) == Dump(m) + "\n" + Frames([]);
    } else {
      FramesAppend(ms[1..], m);
      assert (ms + [m])[0] == ms[0] && (ms + [m])[1..] == ms[1..] + [m];
      Assoc(Dump(ms[0]) + "\n", Frames(ms[1..]), Dump(m) + "\n");
    }
  }

  lemma DrawKeepsIds(s: Traffic, n: Traffic, t: nat, ticket: Ticket)
    requires IdsHold(s) && t !in s.waiting && ticket.id == s.next + 1 <= MAX_EXACT
    requires n.next == s.next + 1 && n.drawn == s.drawn + [ticket] && n.waiting == s.waiting[t := ticket]
    ensures IdsHold(n)
  {
    assert forall u :: u in s.waiting ==> IsDrawn(n, s.waiting[u]);
  }

  lemma IdsKept(a: Account, s: Traffic, step: Step)
    requires IdsHold(s) && Enabled(a, s, step)
    ensures IdsHold(Next(a, s, step))
  {
    hide FrameOf;
    var n := Next(a, s, step);
    if step.Draw? {
      hide IdsHold;
      DrawKeepsIds(s, n, step.thread, Ticket(s.next + 1, step.share));
    } else {
      assert n.next == s.next && n.drawn == s.drawn;
      assert n.waiting == if step.Write? then s.waiting - {step.thread} else s.waiting;
      hide Next, Enabled;
    }
  }

  lemma GreetKeepsSaid(a: Account, s: Traffic, count: nat)
    requires SaidHolds(s) && Enabled(a, s, Greet(count))
    ensures SaidHolds(Next(a, s, Greet(count)))
  {
    hide FrameOf;
    var n := Next(a, s, Greet(count));
    assert n.waiting == s.waiting && n.drawn == s.drawn;
    assert n.said == s.said || (n.greeted == s.greeted + 1 && n.said == s.said + [Hello(n.greeted)]);
    hide Next;
  }

  lemma WriteKeepsSaid(a: Account, s: Traffic, t: nat, count: nat)
    requires IdsHold(s) && SaidHolds(s) && Enabled(a, s, Write(t, count))
    ensures SaidHolds(Next(a, s, Write(t, count)))
  {
    hide FrameOf;
    var n := Next(a, s, Write(t, count));
    var x := Filed(s.waiting[t]);
    assert n.waiting == s.waiting - {t} && n.drawn == s.drawn && n.greeted == s.greeted;
    assert n.said == s.said || n.said == s.said + [x];
    hide Next, Enabled;
    forall k | 0 <= k < |s.said| ensures InOrder(s.said[k], x) {
      assert s.said[k] != x;
    }
  }

  lemma SaidKept(a: Account, s: Traffic, step: Step)
    requires IdsHold(s) && SaidHolds(s) && Enabled(a, s, step)
    ensures SaidHolds(Next(a, s, step))
  {
    hide FrameOf;
    match step
    case Greet(n) => GreetKeepsSaid(a, s, n);
    case Write(t, n) => WriteKeepsSaid(a, s, t, n);
    case _ =>
  }

  /** One line, or part of one, on the wire. */
  lemma SayKeepsWire(a: Account, s: Traffic, x: Said, count: nat)
    requires WireHolds(a, s) && Speakable(x) && count <= |FrameOf(a, x)|
    ensures WireHolds(a, Say(a, s, x, count))
  {
    var t := Say(a, s, x, count);
    var frame := FrameOf(a, x);
    assert t.wire == s.wire + frame[..count];
    assert t.said == s.said || (!s.broken && !t.broken && frame[..count] == frame && t.said == s.said + [x]);
    assert t.broken || t.said != s.said;
    hide Say;
    if t.said == s.said {
      hide Written, Frames, Sendable, FrameOf;
      PrefixGrows(Frames(Written(a, s.said)), s.wire, frame[..count]);
    } else {
      WholeFrame(a, s.said, x);
    }
  }

  lemma WholeFrame(a: Account, said: seq<Said>, x: Said)
    requires AllSpeakable(said) && Speakable(x) && Sendable(Written(a, said))
    ensures AllSpeakable(said + [x]) && Sendable(Written(a, said + [x]))
    ensures Frames(Written(a, said + [x])) == Frames(Written(a, said)) + FrameOf(a, x)
  {
    RequestIsExact(a, x);
    assert (said + [x])[..|said|] == said;
    hide Exact, Normal, Dump, Frames, RequestOf, Speakable, Sendable;
    FramesAppend(Written(a, said), RequestOf(a, x));
  }

  lemma PrefixGrows(f: string, wire: string, more: string)
    requires f <= wire
    ensures f <= wire + more
  {
  }

  lemma WireKept(a: Account, s: Traffic, step: Step)
    requires WireHolds(a, s) && Enabled(a, s, step)
    ensures WireHolds(a, Next(a, s, step))
  {
    match step
    case Greet(n) =>
      SayKeepsWire(a, s, Hello(s.greeted + 1), n);
      hide FrameOf, Written, Frames, Sendable, Speakable;
    case Write(t, n) =>
      SayKeepsWire(a, s, Filed(s.waiting[t]), n);
      hide FrameOf, Written, Frames, Sendable, Speakable;
    case _ =>
      hide FrameOf;
  }

  lemma DrawKeepsEfforts(s: Traffic, n: Traffic, t: nat, ticket: Ticket)
    requires IdsHold(s) && EffortsHold(s) && ticket.id == s.next + 1
    requires n.drawn == s.drawn + [ticket] && n.waiting == s.waiting[t := ticket] && n.efforts == s.efforts
    ensures EffortsHold(n)
  {
  }

  lemma WriteKeepsEfforts(s: Traffic, n: Traffic, t: nat, whole: bool)
    requires IdsHold(s) && EffortsHold(s) && t in s.waiting
    requires n.drawn == s.drawn && n.waiting == s.waiting - {t}
    requires n.efforts == s.efforts + [Effort(s.waiting[t], whole)]
    ensures EffortsHold(n)
  {
  }

  lemma EffortsKept(a: Account, s: Traffic, step: Step)
    requires IdsHold(s) && EffortsHold(s) && Enabled(a, s, step)
    ensures EffortsHold(Next(a, s, step))
  {
    hide FrameOf, IdsHold;
    var n := Next(a, s, step);
    match step
    case Draw(t, share) =>
      hide EffortsHold;
      DrawKeepsEfforts(s, n, t, Ticket(s.next + 1, share));
    case Write(t, count) =>
      hide EffortsHold;
      WriteKeepsEfforts(s, n, t, count == |FrameOf(a, Filed(s.waiting[t]))|);
    case _ =>
      assert n.drawn == s.drawn && n.waiting == s.waiting && n.efforts == s.efforts;
  }

  /** A step leaves a ticket with its thread, or writes it. */
  lemma StillKept(a: Account, s: Traffic, step: Step, ticket: Ticket)
    requires Enabled(a, s, step) && Kept(s, ticket)
    ensures Kept(Next(a, s, step), ticket)
  {
    hide FrameOf;
    var n := Next(a, s, step);
    if t :| Waits(s, ticket, t) {
      if step.Write? && step.thread == t {
        assert TriedAt(n, ticket, |s.efforts|);
      } else {
        assert Waits(n, ticket, t);
      }
    } else {
      var k :| TriedAt(s, ticket, k);
      assert TriedAt(n, ticket, k);
    }
  }

  lemma StillWhole(a: Account, s: Traffic, step: Step, ticket: Ticket)
    requires Enabled(a, s, step) && exists j :: WholeAt(s, ticket, j)
    ensures exists j :: WholeAt(Next(a, s, step), ticket, j)
  {
    hide FrameOf;
    var j :| WholeAt(s, ticket, j);
    assert WholeAt(Next(a, s, step), ticket, j);
  }

  lemma KeptKept(a: Account, s: Traffic, step: Step)
    requires KeptHolds(s) && Enabled(a, s, step)
    ensures KeptHolds(Next(a, s, step))
  {
    hide FrameOf;
    var n := Next(a, s, step);
    assert n.drawn == s.drawn || (step.Draw? && n.drawn == s.drawn + [n.waiting[step.thread]]);
    forall k | 0 <= k < |n.drawn| ensures Kept(n, n.drawn[k]) {
      if k < |s.drawn| {
        StillKept(a, s, step, s.drawn[k]);
      } else {
        assert Waits(n, n.drawn[k], step.thread);
      }
    }
    forall k | 0 <= k < |n.said| && n.said[k].Filed? ensures exists j :: WholeAt(n, n.said[k].ticket, j) {
      if k < |s.said| {
        StillWhole(a, s, step, s.said[k].ticket);
      } else {
        assert WholeAt(n, n.said[k].ticket, |s.efforts|);
      }
    }
  }

  /** The state a schedule leads to, if every step of it is enabled when its turn comes. */
  function After(a: Account, steps: seq<Step>): Option<Traffic>
    decreases steps
  {
    if steps == [] then Some(Initial())
    else
      var last := steps[|steps| - 1];
      match After(a, steps[..|steps| - 1])
      case None => None
      case Some(p) => if Enabled(a, p, last) then Some(Next(a, p, last)) else None
  }

  lemma InitialHolds(a: Account)
    ensures Inv(a, Initial())
  {
  }

  lemma {:induction false} ReachableHolds(a: Account, steps: seq<Step>, s: Traffic)
    requires After(a, steps) == Some(s)
    ensures Inv(a, s)
    decreases steps
  {
    hide Enabled, Next, Initial, IdsHold, SaidHolds, EffortsHold, KeptHolds, WireHolds;
    if steps == [] {
      InitialHolds(a);
    } else {
      var init, last := steps[..|steps| - 1], steps[|steps| - 1];
      var p := After(a, init).value;
      ReachableHolds(a, init, p);
      IdsKept(a, p, last);
      SaidKept(a, p, last);
      EffortsKept(a, p, last);
      KeptKept(a, p, last);
      WireKept(a, p, last);
    }
  }

  /**
   Over all interleavings of submitting threads with each other, with the handshake
   and with lost connections: ids are drawn as 2, 3, 4, ... without gaps; each share
   written was drawn and is written once; the handshake requests keep their order;
   and the pool reads exactly the lines written whole, in the order they were.
   */
  lemma PoolReadsSubmissions(a: Account, steps: seq<Step>, s: Traffic)
    requires After(a, steps) == Some(s)
    ensures forall k :: 0 <= k < |s.drawn| ==> s.drawn[k].id == k + 2
    ensures forall k :: 0 <= k < |s.said| && s.said[k].Filed? ==> IsDrawn(s, s.said[k].ticket)
    ensures forall j, k :: 0 <= j < k < |s.said| ==> InOrder(s.said[j], s.said[k])
    ensures AllSpeakable(s.said) && Sendable(Written(a, s.said))
    ensures Dumps(Written(a, s.said)) <= Lines(s.wire)
    ensures !s.broken ==> Lines(s.wire) == Dumps(Written(a, s.said)) && Residue(s.wire) == ""
  {
    hide After;
    ReachableHolds(a, steps, s);
    hide Speakable, Written;
    var ms := Written(a, s.said);
    var rest := s.wire[|Frames(ms)|..];
    assert s.wire == Frames(ms) + rest;
    FramesSplit(ms, rest);
    if !s.broken {
      assert rest == "";
    }
  }

  /**
   Over a whole schedule, reconnects included: every share drawn is either still with
   its thread or was written exactly once, on one connection, whole or cut short;
   nothing else was written, and what the pool reads is among the whole writes.
   */
  lemma WrittenOnce(a: Account, steps: seq<Step>, s: Traffic)
    requires After(a, steps) == Some(s)
    ensures forall k :: 0 <= k < |s.efforts| ==> IsDrawn(s, s.efforts[k].ticket)
    ensures forall j, k :: 0 <= j < k < |s.efforts| ==> s.efforts[j].ticket.id != s.efforts[k].ticket.id
    ensures forall t, k :: t in s.waiting && 0 <= k < |s.efforts| ==> s.waiting[t].id != s.efforts[k].ticket.id
    ensures forall k :: 0 <= k < |s.drawn| ==> Kept(s, s.drawn[k])
    ensures forall k :: 0 <= k < |s.said| && s.said[k].Filed? ==> exists j :: WholeAt(s, s.said[k].ticket, j)
  {
    hide After;
    ReachableHolds(a, steps, s);
  }

  // --------------------------------------------- which verdicts are delivered

  /** A verdict reaches the submit callback exactly when its id is neither 1 nor 2. */
  lemma VerdictDelivered(s: Session, id: nat, accepted: bool, reason: string)
    ensures (exists e :: e in Dispatch(s, Encode(Verdict(id, accepted, reason))).events && e.SubmitEvent?)
       <==> id != 1 && id != 2
  {
    var v := Verdict(id, accepted, reason);
    var d := Dispatch(s, Encode(v));
    ReplyMembers(id, Encode(v).members[1].value, Encode(v).members[2].value);
    if id != 1 && id != 2 {
      EncodedHasEffect(s, v);
      assert SubmitEvent(accepted, if accepted then "" else reason) in d.events;
    }
  }

  /** A verdict with id 2 is an authorization. */
  lemma SecondIdAuthorizes(s: Session, accepted: bool, reason: string)
    ensures Dispatch(s, Encode(Verdict(2, accepted, reason))) == Outcome(s.(authorized := accepted), [])
  {
    var v := Verdict(2, accepted, reason);
    ReplyMembers(2, Encode(v).members[1].value, Encode(v).members[2].value);
  }

  /**
   So of the shares ever drawn, the first is the one whose verdict is lost: it is
   taken for the authorize response and overwrites the authorization instead.
   */
  lemma FirstVerdictIsLost(a: Account, steps: seq<Step>, t: Traffic, k: nat,
                           s: Session, accepted: bool, reason: string)
    requires After(a, steps) == Some(t) && k < |t.drawn|
    ensures var d := Dispatch(s, Encode(Verdict(t.drawn[k].id, accepted, reason)));
            ((exists e :: e in d.events && e.SubmitEvent?) <==> k != 0) &&
            (k == 0 ==> d.events == [] && d.session == s.(authorized := accepted))
  {
    ReachableHolds(a, steps, t);
    assert t.drawn[k].id == k + 2;
    hide *;
    VerdictDelivered(s, k + 2, accepted, reason);
    SecondIdAuthorizes(s, accepted, reason);
  }
}
