/**
 The imperative side of utils::json: a cursor that moves over a fixed buffer, and
 the loops that build text and members, each refining the functions of Json.dfy.
 */
module JsonParser {
  import opened Wrappers
  import opened Json
  import opened JsonGrammar
  import opened JsonRoundTrip

  /** What a parsing method leaves behind: nothing promised of the cursor on failure. */
  ghost predicate Refines<T>(spec: Parsed<T>, r: Option<T>, rest: string) {
    match spec
    case Fail => r == None
    case Ok(v, after) => r == Some(v) && rest == after
  }

  class Parser {
    const text: string
    var pos: nat

    constructor (text: string)
      ensures Valid() && this.text == text && Rest() == text
    {
      this.text := text;
      pos := 0;
    }

    ghost predicate Valid()
      reads this
    {
      pos <= |text|
    }

    /** The text from the cursor on. */
    ghost function Rest(): string
      requires Valid()
      reads this
    {
      text[pos..]
    }

    method SkipWhitespace()
      requires Valid()
      modifies this`pos
      ensures Valid() && pos >= old(pos)
      ensures Rest() == SkipWs(old(Rest()))
    {
      while pos < |text| && IsSpace(text[pos])
        invariant old(pos) <= pos <= |text|
        invariant SkipWs(Rest()) == SkipWs(old(Rest()))
      {
        assert Rest()[1..] == text[pos + 1..];
        pos := pos + 1;
      }
    }

    method TakeMark(expected: char) returns (found: bool)
      requires Valid()
      modifies this`pos
      ensures Valid() && pos >= old(pos)
      ensures found == Consume(old(Rest()), expected).Some?
      ensures Rest() == if found then Consume(old(Rest()), expected).value else SkipWs(old(Rest()))
      ensures found ==> pos > old(pos)
    {
      SkipWhitespace();
      if pos < |text| && text[pos] == expected {
        pos := pos + 1;
        return true;
      }
      return false;
    }

    method ReadRawString() returns (r: Option<string>)
      requires Valid()
      modifies this`pos
      ensures Valid() && pos >= old(pos) && (r.Some? ==> pos > old(pos))
      ensures Refines(RawString(old(Rest())), r, Rest())
    {
      SkipWhitespace();
      SkipTwice(old(Rest()));
      if pos >= |text| || text[pos] != '"' {
        return None;
      }
      pos := pos + 1;
      r := ReadBody();
    }

    /** The loop over the characters after the opening quote. */
    method ReadBody() returns (r: Option<string>)
      requires Valid()
      modifies this`pos
      ensures Valid() && pos >= old(pos)
      ensures Refines(RawBody(old(Rest())), r, Rest())
    {
      var out := "";
      ghost var start := pos;
      BodyAtStart(text, start);
      hide RawBody, Unescape;
      while pos < |text| && text[pos] != '"'
        invariant start <= pos <= |text|
        invariant BodyAt(text, pos, out) == BodyAt(text, start, "")
      {
        if text[pos] == '\\' && pos + 1 < |text| {
          out := out + [Unescape(text[pos + 1])];
          pos := pos + 2;
        } else {
          out := out + [text[pos]];
          pos := pos + 1;
        }
      }
      if pos >= |text| {
        return None;  // unterminated string
      }
      pos := pos + 1;
      return Some(out);
    }

    method ReadBool() returns (r: Option<Value>)
      requires Valid()
      modifies this`pos
      ensures Valid() && pos >= old(pos)
      ensures old(Rest()) != "" && old(Rest())[0] == 't' ==>
                Refines(ParseLiteral(old(Rest()), "true", Bool(true)), r, Rest())
      ensures old(Rest()) != "" && old(Rest())[0] == 'f' ==>
                Refines(ParseLiteral(old(Rest()), "false", Bool(false)), r, Rest())
    {
      if "true" <= text[pos..] {
        pos := pos + 4;
        return Some(Bool(true));
      }
      if "false" <= text[pos..] {
        pos := pos + 5;
        return Some(Bool(false));
      }
      return None;
    }

    method ReadNull() returns (r: Option<Value>)
      requires Valid()
      modifies this`pos
      ensures Valid() && pos >= old(pos)
      ensures Refines(ParseLiteral(old(Rest()), "null", Null), r, Rest())
    {
      if "null" <= text[pos..] {
        pos := pos + 4;
        return Some(Null);
      }
      return None;
    }

    method ReadNumber() returns (r: Option<Value>)
      requires Valid()
      modifies this`pos
      ensures Valid() && pos >= old(pos)
      ensures Refines(ParseNumber(old(Rest())), r, Rest())
    {
      var start := pos;
      if pos < |text| && (text[pos] == '-' || text[pos] == '+') {
        pos := pos + 1;
      }
      while pos < |text| && IsNumberChar(text[pos])
        invariant start <= pos <= |text|
        invariant forall i :: start <= i < pos ==> IsNumberChar(text[i])
      {
        pos := pos + 1;
      }
      RunIsExact(text[start..pos], text[pos..]);
      assert text[start..] == text[start..pos] + text[pos..];
      if pos == start {
        return None;
      }
      match Stod(text[start..pos]) {
        case None => return None;
        case Some(x) => return Some(Number(x));
      }
    }

    method ReadValue() returns (r: Option<Value>)
      requires Valid()
      modifies this`pos
      ensures Valid() && pos >= old(pos) && (r.Some? ==> pos > old(pos))
      ensures Refines(ParseValue(old(Rest())), r, Rest())
      decreases |text| - pos, 1
    {
      SkipWhitespace();
      SkipTwice(old(Rest()));
      if pos >= |text| {
        return None;
      }
      match text[pos] {
        case '{' => r := ReadObject();
        case '[' => r := ReadArray();
        case '"' =>
          var s := ReadRawString();
          r := if s.None? then None else Some(String(s.value));
        case 't' => r := ReadBool();
        case 'f' => r := ReadBool();
        case 'n' => r := ReadNull();
        case _ => r := ReadNumber();
      }
    }

    method ReadArray() returns (r: Option<Value>)
      requires Valid() && pos < |text| && text[pos] == '['
      modifies this`pos
      ensures Valid() && pos >= old(pos) && (r.Some? ==> pos > old(pos))
      ensures Refines(ParseArray(old(Rest())), r, Rest())
      decreases |text| - pos, 0
    {
      Opens(text[pos..], '[');
      hide SkipWs, Consume, ParseValue, ParseItems;
      var open := TakeMark('[');
      SkipTwice(text[pos..]);
      SkipWhitespace();
      var empty := TakeMark(']');
      if empty {
        return Some(Array([]));
      }
      ghost var inside := old(Rest())[1..];
      ghost var whole := ParseItems(inside, []);
      assert ParseArray(old(Rest())) == whole;
      StartsLate(inside);
      var items := [];
      hide ParseArray;
      while true
        invariant old(pos) < pos <= |text|
        invariant ParseItems(text[pos..], items) == whole
        decreases |text| - pos
      {
        ItemsFail(text[pos..], items);
        ghost var s := text[pos..];
        var val := ReadValue();
        if val == None {
          return None;
        }
        ItemsStep(s, items, val.value, text[pos..]);
        items := items + [val.value];
        SkipTwice(text[pos..]);
        SkipWhitespace();
        var comma := TakeMark(',');
        if comma {
          continue;
        }
        var close := TakeMark(']');
        if close {
          break;
        }
        return None;
      }
      return Some(Array(items));
    }

    /** One turn of the object loop up to the comma: key, colon, value. */
    method ReadMember() returns (r: Option<Member>)
      requires Valid()
      modifies this`pos
      ensures Valid() && pos >= old(pos) && (r.Some? ==> pos > old(pos))
      ensures Refines(ParseMember(old(Rest())), r, Rest())
      decreases |text| - pos, 2
    {
      hide RawString, Consume, ParseValue;
      var key := ReadRawString();
      if key == None {
        return None;
      }
      var colon := TakeMark(':');
      if !colon {
        return None;
      }
      var val := ReadValue();
      if val == None {
        return None;
      }
      return Some(Member(key.value, val.value));
    }

    method ReadObject() returns (r: Option<Value>)
      requires Valid() && pos < |text| && text[pos] == '{'
      modifies this`pos
      ensures Valid() && pos >= old(pos) && (r.Some? ==> pos > old(pos))
      ensures Refines(ParseObject(old(Rest())), r, Rest())
      decreases |text| - pos, 0
    {
      Opens(text[pos..], '{');
      hide SkipWs, Consume, Set, ParseMember, ParseMembers;
      var open := TakeMark('{');
      SkipTwice(text[pos..]);
      SkipWhitespace();
      var empty := TakeMark('}');
      if empty {
        return Some(Object([]));
      }
      ghost var inside := old(Rest())[1..];
      ghost var whole := ParseMembers(inside, []);
      assert ParseObject(old(Rest())) == whole;
      StartsLate(inside);
      var members := [];
      hide ParseObject;
      while true
        invariant old(pos) < pos <= |text|
        invariant ParseMembers(text[pos..], members) == whole
        decreases |text| - pos
      {
        StartsLate(text[pos..]);
        SkipWhitespace();
        MembersFail(text[pos..], members);
        ghost var s := text[pos..];
        var m := ReadMember();
        if m == None {
          return None;
        }
        MembersTurn(s, members, m.value, text[pos..]);
        members := SetMember(members, m.value.key, m.value.value);
        SkipTwice(text[pos..]);
        SkipWhitespace();
        var comma := TakeMark(',');
        if comma {
          continue;
        }
        var close := TakeMark('}');
        if close {
          break;
        }
        return None;
      }
      return Some(Object(members));
    }
  }

  /** Value::set: overwrite the first member with the key, or append. */
  method SetMember(members: seq<Member>, key: string, v: Value) returns (r: seq<Member>)
    ensures r == Set(members, key, v)
  {
    for i := 0 to |members|
      invariant forall j :: 0 <= j < i ==> members[j].key != key
    {
      if members[i].key == key {
        SetReplaces(members, i, key, v);
        return members[i := Member(key, v)];
      }
    }
    SetAppends(members, key, v);
    return members + [Member(key, v)];
  }

  /** utils::json::parse. */
  method ParseText(text: string) returns (r: Option<Value>)
    ensures r == Parse(text)
  {
    var parser := new Parser(text);
    r := parser.ReadValue();
  }

  method EscapeText(s: string) returns (out: string)
    ensures out == Escape(s)
  {
    out := "";
    for i := 0 to |s|
      invariant out == Escape(s[..i])
    {
      EscapeGrows(s[..i], s[i]);
      assert s[..i] + [s[i]] == s[..i + 1];
      out := out + EscapeChar(s[i]);
    }
    assert s[..|s|] == s;
  }

  /** Value::dump, with its loops over elements and members. */
  method DumpText(v: Value) returns (out: string)
    requires Exact(v)
    ensures out == Dump(v)
    decreases v
  {
    match v {
      case Null => out := "null";
      case Bool(b) => out := if b then "true" else "false";
      case Number(n) => out := IntText(n.Floor);
      case String(s) =>
        var e := EscapeText(s);
        out := "\"" + e + "\"";
      case Array(items) => out := DumpArray(items);
      case Object(ms) => out := DumpObject(ms);
    }
  }

  method DumpArray(items: seq<Value>) returns (out: string)
    requires forall i :: 0 <= i < |items| ==> Exact(items[i])
    ensures out == "[" + DumpItems(items) + "]"
    decreases items
  {
    hide Exact, Dump, DumpItems;
    out := "[";
    NothingDumped();
    for i := 0 to |items|
      invariant out == "[" + DumpItems(items[..i])
    {
      if i != 0 {
        out := out + ",";
      }
      var e := DumpText(items[i]);
      DumpItemsGrows(items[..i], items[i]);
      assert items[..i] + [items[i]] == items[..i + 1];
      out := out + e;
    }
    assert items[..|items|] == items;
    out := out + "]";
  }

  method DumpObject(ms: seq<Member>) returns (out: string)
    requires forall i :: 0 <= i < |ms| ==> Exact(ms[i].value)
    ensures out == "{" + DumpMembers(ms) + "}"
    decreases ms
  {
    hide Exact, Escape, Dump, DumpMembers;
    out := "{";
    NothingDumped();
    for i := 0 to |ms|
      invariant out == "{" + DumpMembers(ms[..i])
    {
      if i != 0 {
        out := out + ",";
      }
      var key := EscapeText(ms[i].key);
      assert ms[i].value < ms[i];
      var e := DumpText(ms[i].value);
      DumpMembersGrows(ms[..i], ms[i]);
      assert ms[..i] + [ms[i]] == ms[..i + 1];
      out := out + ("\"" + key + "\":" + e);
    }
    assert ms[..|ms|] == ms;
    out := out + "}";
  }

  // -------------------------------------------------------- supporting facts

  lemma SkipTwice(s: string)
    ensures SkipWs(SkipWs(s)) == SkipWs(s)
    ensures forall c :: Consume(SkipWs(s), c) == Consume(s, c)
  {
    var ws := SplitBlank(s);
  }

  /** Element and member loops may start before or after white space. */
  lemma StartsLate(s: string)
    ensures forall items :: ParseItems(SkipWs(s), items) == ParseItems(s, items)
    ensures forall members :: ParseMembers(SkipWs(s), members) == ParseMembers(s, members)
  {
    SkipTwice(s);
    SkipFirst(s);
  }

  lemma Opens(s: string, c: char)
    requires s != "" && s[0] == c && !IsSpace(c)
    ensures Consume(s, c) == Some(s[1..])
  {
  }

  lemma ItemsFail(s: string, items: seq<Value>)
    ensures ParseValue(s).Fail? ==> ParseItems(s, items).Fail?
  {
  }

  lemma MembersFail(s: string, members: seq<Member>)
    ensures ParseMember(s).Fail? ==> ParseMembers(s, members).Fail?
  {
  }

  lemma MembersTurn(s: string, members: seq<Member>, m: Member, t: string)
    requires ParseMember(s) == Ok(m, t)
    ensures ParseMembers(s, members)
         == match Consume(t, ',')
            case Some(u) => ParseMembers(u, Set(members, m.key, m.value))
            case None =>
              match Consume(t, '}')
              case Some(u) => Ok(Object(Set(members, m.key, m.value)), u)
              case None => Fail
  {
  }

  lemma {:induction false} SetReplaces(ms: seq<Member>, i: nat, key: string, v: Value)
    requires i < |ms| && ms[i].key == key && forall j :: 0 <= j < i ==> ms[j].key != key
    ensures Set(ms, key, v) == ms[i := Member(key, v)]
  {
    if i != 0 {
      SetReplaces(ms[1..], i - 1, key, v);
    }
  }

  lemma NothingDumped()
    ensures DumpItems([]) == "" && DumpMembers([]) == ""
    ensures "[" + "" == "[" && "{" + "" == "{"
  {
  }

  datatype Scan = Unterminated | Ended(out: string, pos: nat)

  /** The character loop by position, `out` already read. */
  function BodyAt(text: string, i: nat, out: string): (r: Scan)
    requires i <= |text|
    ensures r.Ended? ==> i < r.pos <= |text|
    decreases |text| - i
  {
    if i == |text| then Unterminated
    else if text[i] == '"' then Ended(out, i + 1)
    else if text[i] == '\\' && i + 1 < |text| then BodyAt(text, i + 2, out + [Unescape(text[i + 1])])
    else BodyAt(text, i + 1, out + [text[i]])
  }

  lemma BodyAtStart(text: string, i: nat)
    requires i <= |text|
    ensures RawBody(text[i..])
         == match BodyAt(text, i, "") case Unterminated => Fail case Ended(out, pos) => Ok(out, text[pos..])
  {
    hide RawBody, BodyAt;
    BodyAtMeaning(text, i, "");
    var p := RawBody(text[i..]);
    if p.Ok? {
      assert "" + p.value == p.value;
    }
  }

  lemma {:induction false} BodyAtMeaning(text: string, i: nat, out: string)
    requires i <= |text|
    ensures match BodyAt(text, i, out)
            case Unterminated => RawBody(text[i..]) == Fail
            case Ended(all, pos) => RawBody(text[i..]).Ok? && text[pos..] == RawBody(text[i..]).rest
                                    && all == out + RawBody(text[i..]).value
    decreases |text| - i
  {
    if i == |text| || text[i] == '"' {
      assert out + "" == out;
    } else if text[i] == '\\' && i + 1 < |text| {
      assert text[i..][2..] == text[i + 2..];
      BodyAtMeaning(text, i + 2, out + [Unescape(text[i + 1])]);
    } else {
      assert text[i..][1..] == text[i + 1..];
      BodyAtMeaning(text, i + 1, out + [text[i]]);
    }
  }

  lemma {:induction false} EscapeGrows(s: string, c: char)
    ensures Escape(s + [c]) == Escape(s) + EscapeChar(c)
  {
    hide EscapeChar;
    if s != "" {
      EscapeGrows(s[1..], c);
      assert (s + [c])[0] == s[0] && (s + [c])[1..] == s[1..] + [c];
    } else {
      assert s + [c] == [c];
    }
  }

  lemma {:induction false} DumpItemsGrows(items: seq<Value>, v: Value)
    requires (forall i :: 0 <= i < |items| ==> Exact(items[i])) && Exact(v)
    ensures DumpItems(items + [v]) == DumpItems(items) + (if items == [] then "" else ",") + Dump(v)
  {
    hide Exact, Dump;
    if items != [] {
      DumpItemsGrows(items[1..], v);
      assert (items + [v])[0] == items[0] && (items + [v])[1..] == items[1..] + [v];
    } else {
      assert items + [v] == [v];
    }
  }

  lemma {:induction false} DumpMembersGrows(ms: seq<Member>, m: Member)
    requires (forall i :: 0 <= i < |ms| ==> Exact(ms[i].value)) && Exact(m.value)
    ensures DumpMembers(ms + [m]) == DumpMembers(ms) + (if ms == [] then "" else ",") + DumpMember(m)
  {
    hide Exact, DumpMember;
    if ms != [] {
      DumpMembersGrows(ms[1..], m);
      assert (ms + [m])[0] == ms[0] && (ms + [m])[1..] == ms[1..] + [m];
    } else {
      assert ms + [m] == [m];
    }
  }
}
