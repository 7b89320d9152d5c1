/**
 The lines the client writes, character by character: the two of the handshake and the
 two kinds of submission, with the place of every field.
 */
module SubmitLines {
  import opened Wrappers
  import opened Shares
  import opened Json
  import opened StratumSubmit

  /** A string as it is printed. */
  function Quote(s: string): string {
    "\"" + Escape(s) + "\""
  }

  lemma TwoTexts(a: string, b: string)
    ensures Exact(Array([String(a), String(b)]))
    ensures DumpItems([String(a), String(b)]) == Quote(a) + "," + Quote(b)
  {
    assert [String(a), String(b)][1..] == [String(b)];
    hide Escape;
    assert Dump(String(a)) == Quote(a) && DumpItems([String(b)]) == Quote(b);
    hide Dump;
  }

  lemma MoreTexts(a: string, rest: seq<Value>)
    requires rest != [] && forall i :: 0 <= i < |rest| ==> Exact(rest[i])
    ensures forall i :: 0 <= i < |[String(a)] + rest| ==> Exact(([String(a)] + rest)[i])
    ensures DumpItems([String(a)] + rest) == Quote(a) + "," + DumpItems(rest)
  {
    assert ([String(a)] + rest)[1..] == rest;
    assert Dump(String(a)) == Quote(a);
    hide Dump, Escape;
  }

  lemma ThreeMembers(a: Member, b: Member, c: Member)
    requires Exact(a.value) && Exact(b.value) && Exact(c.value)
    ensures forall i :: 0 <= i < 3 ==> Exact([a, b, c][i].value)
    ensures DumpMembers([a, b, c]) == DumpMember(a) + "," + (DumpMember(b) + "," + DumpMember(c))
  {
    hide Exact, DumpMember;
    assert [a, b, c][1..] == [b, c] && [b, c][1..] == [c];
    assert DumpMembers([c]) == DumpMember(c);
    assert DumpMembers([b, c]) == DumpMember(b) + "," + DumpMember(c);
  }

  lemma IdText(id: nat)
    requires Exact(Number(id as real))
    ensures DumpMember(Member("id", Number(id as real))) == "\"id\":" + IntText(id)
  {
    hide IntText, ExactInteger;
    assert Escape("id") == "id";
  }

  /** No character that prints with a backslash. */
  predicate Plain(s: string) {
    forall i :: 0 <= i < |s| ==> s[i] !in {'"', '\\', '\n', '\r', '\t'}
  }

  lemma {:induction false} PlainStays(s: string)
    requires Plain(s)
    ensures Escape(s) == s
  {
    if s != "" {
      PlainStays(s[1..]);
    }
  }

  lemma KeyText(key: string, v: Value)
    requires Plain(key) && Exact(v)
    ensures DumpMember(Member(key, v)) == "\"" + key + "\":" + Dump(v)
  {
    PlainStays(key);
    hide Escape, Dump, Exact;
  }

  lemma MethodText(name: string)
    requires Plain(name)
    ensures DumpMember(Member("method", String(name))) == "\"method\":\"" + name + "\""
  {
    KeyText("method", String(name));
    PlainStays(name);
    hide Escape, DumpMember, Plain;
    MethodJoined(name);
  }

  lemma MethodJoined(name: string)
    ensures "\"" + "method" + "\":" + ("\"" + name + "\"") == "\"method\":\"" + name + "\""
  {
  }

  lemma ParamsJoined(params: string)
    ensures "\"" + "params" + "\":" + ("[" + params + "]") == "\"params\":[" + params + "]"
  {
  }

  lemma ArrayText(params: seq<Value>)
    requires forall i :: 0 <= i < |params| ==> Exact(params[i])
    ensures Exact(Array(params)) && Dump(Array(params)) == "[" + DumpItems(params) + "]"
  {
    hide DumpItems;
  }

  lemma ParamsText(v: Value, inside: string)
    requires Exact(v) && Dump(v) == "[" + inside + "]"
    ensures DumpMember(Member("params", v)) == "\"params\":[" + inside + "]"
  {
    KeyText("params", v);
    hide Dump, DumpMember, Exact, Plain;
    ParamsJoined(inside);
  }

  lemma Enclosed(id: string, name: string, params: string)
    ensures "{" + ("\"id\":" + id + "," + ("\"method\":\"" + name + "\"" + "," + ("\"params\":[" + params + "]"))) + "}"
         == "{\"id\":" + id + ",\"method\":\"" + name + "\",\"params\":[" + params + "]}"
  {
  }

  lemma RequestText(id: nat, name: string, params: seq<Value>)
    requires id <= MAX_EXACT && Plain(name) && forall i :: 0 <= i < |params| ==> params[i].String?
    ensures Exact(Request(id, name, params)) && forall i :: 0 <= i < |params| ==> Exact(params[i])
    ensures Dump(Request(id, name, params))
         == "{\"id\":" + IntText(id) + ",\"method\":\"" + name + "\",\"params\":[" + DumpItems(params) + "]}"
  {
    RequestIsSendable(id, name, params);
    IdIsSendable(id);
    var a, b, c := Member("id", Number(id as real)), Member("method", String(name)), Member("params", Array(params));
    assert Dump(Object([a, b, c])) == "{" + DumpMembers([a, b, c]) + "}";
    IdText(id);
    MethodText(name);
    ArrayText(params);
    ParamsText(Array(params), DumpItems(params));
    hide Dump, DumpMembers, DumpMember, IntText, Escape, DumpItems, ExactInteger;
    ThreeMembers(a, b, c);
    Enclosed(IntText(id), name, DumpItems(params));
  }

  // ------------------------------------------------------------------ the lines

  lemma FourTexts(b: string, c: string, d: string, e: string)
    ensures forall i :: 0 <= i < 4 ==> Exact([String(b), String(c), String(d), String(e)][i])
    ensures DumpItems([String(b), String(c), String(d), String(e)])
         == Quote(b) + "," + (Quote(c) + "," + (Quote(d) + "," + Quote(e)))
  {
    TwoTexts(d, e);
    hide Quote, DumpItems;
    MoreTexts(c, [String(d), String(e)]);
    assert [String(c)] + [String(d), String(e)] == [String(c), String(d), String(e)];
    MoreTexts(b, [String(c), String(d), String(e)]);
    assert [String(b)] + [String(c), String(d), String(e)] == [String(b), String(c), String(d), String(e)];
  }

  /** login, jobId, extranonce2, ntime, nonce. */
  lemma ClassicLine(login: string, id: nat, jobId: string, extranonce2: string, ntime: string, nonceHex: string)
    requires id <= MAX_EXACT
    ensures var v := Submission(login, Ticket(id, ClassicShare(jobId, extranonce2, ntime, nonceHex)));
            && Exact(v)
            && Dump(v) == "{\"id\":" + IntText(id) + ",\"method\":\"" + "mining.submit" + "\",\"params\":["
                          + (Quote(login) + "," + (Quote(jobId) + "," + (Quote(extranonce2) + ","
                             + (Quote(ntime) + "," + Quote(nonceHex)))))
                          + "]}"
  {
    assert Plain("mining.submit");
    hide Plain, Escape, Quote, IntText, Dump, Exact, DumpItems;
    var four := [String(jobId), String(extranonce2), String(ntime), String(nonceHex)];
    FourTexts(jobId, extranonce2, ntime, nonceHex);
    MoreTexts(login, four);
    var params := ShareParams(login, ClassicShare(jobId, extranonce2, ntime, nonceHex));
    assert params == [String(login)] + four;
    RequestText(id, "mining.submit", params);
  }

  /** login, jobId, blob. */
  lemma BlobLine(login: string, id: nat, jobId: string, blob: string)
    requires id <= MAX_EXACT
    ensures var v := Submission(login, Ticket(id, BlobShare(jobId, blob)));
            && Exact(v)
            && Dump(v) == "{\"id\":" + IntText(id) + ",\"method\":\"" + "mining.submit" + "\",\"params\":["
                          + (Quote(login) + "," + (Quote(jobId) + "," + Quote(blob))) + "]}"
  {
    assert Plain("mining.submit");
    hide Plain, Escape, Quote, IntText, Dump, Exact, DumpItems;
    TwoTexts(jobId, blob);
    MoreTexts(login, [String(jobId), String(blob)]);
    assert ShareParams(login, BlobShare(jobId, blob)) == [String(login)] + [String(jobId), String(blob)];
    RequestText(id, "mining.submit", ShareParams(login, BlobShare(jobId, blob)));
  }

  /** The client's name. */
  lemma SubscribeLine(login: string, password: string)
    ensures var v := Handshake(login, password)[0];
            && Exact(v)
            && Dump(v) == "{\"id\":" + "1" + ",\"method\":\"" + "mining.subscribe" + "\",\"params\":["
                          + Quote("cpp-miner/1.0") + "]}"
  {
    hide Dump, Exact, Quote;
    SubscribeAs("cpp-miner/1.0");
  }

  lemma SubscribeAs(agent: string)
    ensures var v := Request(1, "mining.subscribe", [String(agent)]);
            && Exact(v)
            && Dump(v) == "{\"id\":" + "1" + ",\"method\":\"" + "mining.subscribe" + "\",\"params\":["
                          + Quote(agent) + "]}"
  {
    assert Plain("mining.subscribe");
    SmallIds();
    OneText(agent);
    hide Plain, Escape, Quote, IntText, Dump, Exact, DumpItems;
    RequestText(1, "mining.subscribe", [String(agent)]);
  }

  /** Login and password. */
  lemma AuthorizeLine(login: string, password: string)
    ensures |Handshake(login, password)| == 2
    ensures var v := Handshake(login, password)[1];
            && Exact(v)
            && Dump(v) == "{\"id\":" + "2" + ",\"method\":\"" + "mining.authorize" + "\",\"params\":["
                          + (Quote(login) + "," + Quote(password)) + "]}"
  {
    assert Plain("mining.authorize");
    SmallIds();
    TwoTexts(login, password);
    hide Plain, Escape, Quote, IntText, Dump, Exact, DumpItems;
    RequestText(2, "mining.authorize", [String(login), String(password)]);
  }

  lemma SmallIds()
    ensures IntText(1) == "1" && IntText(2) == "2"
  {
  }

  lemma OneText(a: string)
    ensures Exact(String(a)) && DumpItems([String(a)]) == Quote(a)
  {
    hide Escape;
  }

  // ------------------------------------------------------------- shares and ids

  /** The shares the workers hand over in a run, in order. */
  function SharesHanded(steps: seq<Step>): seq<Share> {
    if steps == [] then []
    else
      var last := steps[|steps| - 1];
      SharesHanded(steps[..|steps| - 1]) + if last.Draw? then [last.share] else []
  }

  lemma StepDraws(a: Account, s: Traffic, step: Step)
    requires Enabled(a, s, step)
    ensures var n := Next(a, s, step);
            if step.Draw? then n.drawn == s.drawn + [Ticket(s.next + 1, step.share)] && n.next == s.next + 1
            else n.drawn == s.drawn && n.next == s.next
  {
    hide FrameOf;
  }

  /** Each share handed over is drawn for as it is, and their ids count from 2. */
  lemma {:induction false} SharesAreDrawn(a: Account, steps: seq<Step>, s: Traffic)
    requires After(a, steps) == Some(s)
    ensures s.next == |s.drawn| + 1 && |s.drawn| == |SharesHanded(steps)|
    ensures forall k :: 0 <= k < |s.drawn| ==> s.drawn[k] == Ticket(k + 2, SharesHanded(steps)[k])
    decreases steps
  {
    if steps != [] {
      var init, last := steps[..|steps| - 1], steps[|steps| - 1];
      var p := After(a, init).value;
      SharesAreDrawn(a, init, p);
      hide Next, Enabled;
      StepDraws(a, p, last);
      hide After;
    }
  }
}
