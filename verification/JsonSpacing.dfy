/**
 White space, with its characters named by their codes: a value laid out with any white
 space around its tokens reads back, and no other character may stand there.
 */
module JsonSpacing {
  import opened Wrappers
  import opened Json
  import opened JsonGrammar
  import opened JsonRoundTrip
  import opened Concatenation

  /** Nothing but blanks (32), tabs (9), newlines (10, 11, 12) and carriage returns (13). */
  predicate OnlySpace(ws: string) {
    forall i :: 0 <= i < |ws| ==> SpaceCode(ws[i] as int)
  }

  predicate SpaceCode(code: int) {
    code == 32 || code == 9 || code == 10 || code == 11 || code == 12 || code == 13
  }

  // ----------------------------------------------------------- a laid-out value

  /** What stands inside the brackets, and on both sides of a comma and of a colon. */
  datatype Style = Style(opening: string, closing: string, beforeComma: string, afterComma: string,
                         beforeColon: string, afterColon: string)

  predicate SpaceOnly(s: Style) {
    && OnlySpace(s.opening) && OnlySpace(s.closing) && OnlySpace(s.beforeComma) && OnlySpace(s.afterComma)
    && OnlySpace(s.beforeColon) && OnlySpace(s.afterColon)
  }

  function Laid(v: Value, s: Style): string
    requires Exact(v)
    decreases v
  {
    match v
    case Array(items) => "[" + s.opening + (if items == [] then "" else LaidItems(items, s) + s.closing) + "]"
    case Object(ms) => "{" + s.opening + (if ms == [] then "" else LaidMembers(ms, s) + s.closing) + "}"
    case _ => Dump(v)
  }

  function LaidItems(items: seq<Value>, s: Style): string
    requires items != [] && forall i :: 0 <= i < |items| ==> Exact(items[i])
    decreases items
  {
    if |items| == 1 then Laid(items[0], s)
    else Laid(items[0], s) + s.beforeComma + "," + s.afterComma + LaidItems(items[1..], s)
  }

  function LaidMember(m: Member, s: Style): string
    requires Exact(m.value)
    decreases m
  {
    "\"" + Escape(m.key) + "\"" + s.beforeColon + ":" + s.afterColon + Laid(m.value, s)
  }

  function LaidMembers(ms: seq<Member>, s: Style): string
    requires ms != [] && forall i :: 0 <= i < |ms| ==> Exact(ms[i].value)
    decreases ms
  {
    if |ms| == 1 then LaidMember(ms[0], s)
    else LaidMember(ms[0], s) + s.beforeComma + "," + s.afterComma + LaidMembers(ms[1..], s)
  }

  // ------------------------------------------------------------------- its tree

  function Tree(v: Value, lead: string, s: Style): Doc
    requires Exact(v)
    decreases v
  {
    match v
    case Array(items) =>
      Doc(lead, if items == [] then EmptyArray(s.opening) else ArrayOf(TreeItems(items, s.opening, s)))
    case Object(ms) =>
      Doc(lead, if ms == [] then EmptyObject(s.opening) else ObjectOf(TreeFields(ms, s.opening, s)))
    case _ => Doc(lead, Canon(v).body)
  }

  function TreeItems(items: seq<Value>, lead: string, s: Style): Items
    requires items != [] && forall i :: 0 <= i < |items| ==> Exact(items[i])
    decreases items
  {
    if |items| == 1 then Items(Tree(items[0], lead, s), s.closing, None)
    else Items(Tree(items[0], lead, s), s.beforeComma, Some(TreeItems(items[1..], s.afterComma, s)))
  }

  function TreeFields(ms: seq<Member>, lead: string, s: Style): Fields
    requires ms != [] && forall i :: 0 <= i < |ms| ==> Exact(ms[i].value)
    decreases ms
  {
    assert ms[0].value < ms[0];
    if |ms| == 1 then
      Fields(lead, EscapeUnits(ms[0].key), s.beforeColon, Tree(ms[0].value, s.afterColon, s), s.closing, None)
    else
      Fields(lead, EscapeUnits(ms[0].key), s.beforeColon, Tree(ms[0].value, s.afterColon, s), s.beforeComma,
             Some(TreeFields(ms[1..], s.afterComma, s)))
  }

  lemma SpaceIsBlank(ws: string)
    ensures OnlySpace(ws) <==> Blank(ws)
  {
    forall i | 0 <= i < |ws| ensures SpaceCode(ws[i] as int) <==> IsSpace(ws[i]) {
      SpaceByCode(ws[i]);
    }
    hide SpaceCode, IsSpace;
  }

  lemma SpaceByCode(c: char)
    ensures SpaceCode(c as int) <==> IsSpace(c)
  {
  }

  predicate BlankStyle(s: Style) {
    && Blank(s.opening) && Blank(s.closing) && Blank(s.beforeComma) && Blank(s.afterComma)
    && Blank(s.beforeColon) && Blank(s.afterColon)
  }

  lemma {:induction false} LaidIsTree(v: Value, lead: string, s: Style)
    requires Exact(v) && Normal(v) && Blank(lead) && BlankStyle(s)
    ensures var d := Tree(v, lead, s);
            WellFormed(d) && DocText(d) == lead + Laid(v, s) && Meaning(d) == v
    decreases v, 1
  {
    match v
    case Array(items) =>
      if items != [] {
        LaidIsItems(items, s.opening, s);
        ArrayLaid(TreeItems(items, s.opening, s), lead, s.opening, LaidItems(items, s), s.closing, items);
      }
    case Object(ms) =>
      if ms != [] {
        LaidIsFields(ms, s.opening, s, []);
        assert [] + ms == ms;
        ObjectLaid(TreeFields(ms, s.opening, s), lead, s.opening, LaidMembers(ms, s), s.closing, ms);
      }
    case _ =>
      DumpIsTree(v);
      AtomLaid(Canon(v), lead, Dump(v));
  }

  lemma AtomLaid(d: Doc, lead: string, text: string)
    requires WellFormed(d) && Blank(lead) && d.ws == "" && DocText(d) == text
    ensures var e := Doc(lead, d.body);
            WellFormed(e) && DocText(e) == lead + text && Meaning(e) == Meaning(d)
  {
    assert "" + BodyText(d.body) == BodyText(d.body);
  }

  lemma ArrayLaid(i: Items, lead: string, opening: string, inside: string, closing: string, items: seq<Value>)
    requires WellFormedItems(i) && Blank(lead)
    requires ItemsText(i) == opening + (inside + closing) + "]" && ItemsMeaning(i) == items
    ensures var d := Doc(lead, ArrayOf(i));
            && WellFormed(d) && Meaning(d) == Array(items)
            && DocText(d) == lead + ("[" + opening + (inside + closing) + "]")
  {
    hide ItemsText, WellFormedItems, ItemsMeaning;
    assert "[" + (opening + (inside + closing) + "]") == "[" + opening + (inside + closing) + "]";
  }

  lemma ObjectLaid(f: Fields, lead: string, opening: string, inside: string, closing: string, ms: seq<Member>)
    requires WellFormedFields(f) && Blank(lead)
    requires FieldsText(f) == opening + (inside + closing) + "}" && FieldsMeaning(f, []) == ms
    ensures var d := Doc(lead, ObjectOf(f));
            && WellFormed(d) && Meaning(d) == Object(ms)
            && DocText(d) == lead + ("{" + opening + (inside + closing) + "}")
  {
    hide FieldsText, WellFormedFields, FieldsMeaning;
    assert "{" + (opening + (inside + closing) + "}") == "{" + opening + (inside + closing) + "}";
  }

  lemma {:induction false} LaidIsItems(items: seq<Value>, lead: string, s: Style)
    requires items != [] && forall i :: 0 <= i < |items| ==> Exact(items[i]) && Normal(items[i])
    requires Blank(lead) && BlankStyle(s)
    ensures var t := TreeItems(items, lead, s);
            && WellFormedItems(t) && ItemsMeaning(t) == items
            && ItemsText(t) == lead + (LaidItems(items, s) + s.closing) + "]"
    decreases items, 0
  {
    LaidIsTree(items[0], lead, s);
    hide Blank, Exact, Normal, Laid, Tree, DocText, Meaning, WellFormed;
    if |items| > 1 {
      LaidIsItems(items[1..], s.afterComma, s);
      Between(lead, Laid(items[0], s), s.beforeComma, s.afterComma, LaidItems(items[1..], s), s.closing, "]");
    } else {
      Alone(lead, Laid(items[0], s), s.closing, "]");
    }
  }

  lemma Alone(lead: string, first: string, closing: string, mark: string)
    ensures lead + first + closing + mark == lead + (first + closing) + mark
  {
  }

  lemma Between(lead: string, first: string, before: string, after: string, others: string, closing: string,
                mark: string)
    ensures lead + first + before + ("," + (after + (others + closing) + mark))
         == lead + (first + before + "," + after + others + closing) + mark
  {
    Assoc(lead + first + before, ",", after + (others + closing) + mark);
    var front := lead + first + before + ",";
    assert front + (after + (others + closing) + mark) == front + after + others + closing + mark;
    assert lead + (first + before + "," + after + others + closing) == front + after + others + closing;
  }

  lemma {:induction false} LaidIsFields(ms: seq<Member>, lead: string, s: Style, before: seq<Member>)
    requires ms != [] && DistinctKeys(before + ms)
    requires forall i :: 0 <= i < |ms| ==> Exact(ms[i].value) && Normal(ms[i].value)
    requires Blank(lead) && BlankStyle(s)
    ensures var t := TreeFields(ms, lead, s);
            && WellFormedFields(t) && FieldsMeaning(t, before) == before + ms
            && FieldsText(t) == lead + (LaidMembers(ms, s) + s.closing) + "}"
    decreases ms, 0
  {
    assert ms[0].value < ms[0];
    LaidIsTree(ms[0].value, s.afterColon, s);
    EscapeIsUnits(ms[0].key);
    AppendDistinct(before, ms);
    if |ms| > 1 {
      LaidIsFields(ms[1..], s.afterComma, s, before + [ms[0]]);
    }
    LaidFieldTexts(ms, lead, s);
    hide Blank, Exact, Normal, Laid, Tree, DocText, FieldsText, Meaning, WellFormed, Escape, EscapeUnits, Set;
  }

  lemma LaidFieldTexts(ms: seq<Member>, lead: string, s: Style)
    requires ms != [] && forall i :: 0 <= i < |ms| ==> Exact(ms[i].value)
    requires UnitsText(EscapeUnits(ms[0].key)) == Escape(ms[0].key)
    requires DocText(Tree(ms[0].value, s.afterColon, s)) == s.afterColon + Laid(ms[0].value, s)
    requires |ms| == 1 || FieldsText(TreeFields(ms[1..], s.afterComma, s))
                       == s.afterComma + (LaidMembers(ms[1..], s) + s.closing) + "}"
    ensures FieldsText(TreeFields(ms, lead, s)) == lead + (LaidMembers(ms, s) + s.closing) + "}"
  {
    hide Exact, Escape, EscapeUnits, UnitsText, Laid, Tree, DocText, FieldsText;
    var key, first := Escape(ms[0].key), Laid(ms[0].value, s);
    if |ms| == 1 {
      SpacedField(TreeFields(ms, lead, s), key, s.afterColon, first, "}");
      Alone(lead, LaidMember(ms[0], s), s.closing, "}");
    } else {
      var others := LaidMembers(ms[1..], s);
      SpacedField(TreeFields(ms, lead, s), key, s.afterColon, first,
                  "," + (s.afterComma + (others + s.closing) + "}"));
      Between(lead, LaidMember(ms[0], s), s.beforeComma, s.afterComma, others, s.closing, "}");
    }
  }

  lemma SpacedField(f: Fields, key: string, after: string, first: string, tail: string)
    requires UnitsText(f.key) == key && DocText(f.val) == after + first
    requires tail == match f.tail case None => "}" case Some(t) => "," + FieldsText(t)
    ensures FieldsText(f)
         == f.wsKey + ("\"" + key + "\"" + f.wsColon + ":" + after + first) + f.ws + tail
  {
    hide UnitsText, DocText;
    Regroup(f.wsKey, "\"" + key + "\"", f.wsColon, after, first);
  }

  lemma Regroup(lead: string, key: string, colon: string, after: string, first: string)
    ensures lead + key + colon + ":" + (after + first) == lead + (key + colon + ":" + after + first)
  {
  }

  // ------------------------------------------------------------------ main laws

  /** However it is spaced, a value reads back, and text after it is ignored. */
  lemma SpacedReadsBack(v: Value, lead: string, s: Style, suffix: string)
    requires Exact(v) && Normal(v) && OnlySpace(lead) && SpaceOnly(s)
    requires suffix == "" || suffix[0] in {',', ']', '}'} || SpaceCode(suffix[0] as int)
    ensures ParseValue(lead + Laid(v, s) + suffix) == Ok(v, suffix)
    ensures Parse(lead + Laid(v, s) + suffix) == Some(v)
  {
    SpaceIsBlank(lead);
    SpaceIsBlank(s.opening);
    SpaceIsBlank(s.closing);
    SpaceIsBlank(s.beforeComma);
    SpaceIsBlank(s.afterComma);
    SpaceIsBlank(s.beforeColon);
    SpaceIsBlank(s.afterColon);
    LaidIsTree(v, lead, s);
    hide Blank, Exact, Normal, Laid, Tree, DocText, Meaning, WellFormed, ParseValue;
    TreeIsParsed(Tree(v, lead, s), suffix);
  }

  /** The spacing an ordinary pool sends: a blank after each comma and colon. */
  const POOL := Style("", "", "", " ", "", " ")

  lemma PoolSpacingReadsBack(v: Value)
    requires Exact(v) && Normal(v)
    ensures Parse(Laid(v, POOL)) == Some(v)
  {
    SpacedReadsBack(v, "", POOL, "");
    assert "" + Laid(v, POOL) + "" == Laid(v, POOL);
  }

  /** The character with a code below 128. */
  function Coded(code: nat): string
    requires code < 128
  {
    [code as char]
  }

  /** Each of the six, in every place where white space may stand. */
  lemma EachSpaceReadsBack(v: Value, code: nat)
    requires Exact(v) && Normal(v) && code in {9, 10, 11, 12, 13, 32}
    ensures var c := Coded(code);
            Parse(c + Laid(v, Style(c, c, c, c, c, c)) + c) == Some(v)
  {
    var c := Coded(code);
    SpacedReadsBack(v, c, Style(c, c, c, c, c, c), c);
  }

  /**
   A character is passed over before a value exactly when it is one of the six; any other
   that opens no value stops the parser.
   */
  lemma SpaceIsPassedOver(c: char, s: string)
    ensures SpaceCode(c as int) ==> ParseValue([c] + s) == ParseValue(s)
    ensures !SpaceCode(c as int) && c !in {'{', '[', '"', 't', 'f', 'n', '+', '-', '.', 'e', 'E'} && !('0' <= c <= '9')
        ==> ParseValue([c] + s) == Fail
  {
    SpaceByCode(c);
    if IsSpace(c) {
      SpaceBefore([c], s);
    } else {
      assert SkipWs([c] + s) == [c] + s;
    }
  }
}
