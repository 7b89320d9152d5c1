/**
 A declarative grammar for the parser's dialect: concrete syntax trees with the
 text they spell and the value they mean. The parser accepts exactly the texts
 that begin with a well-formed tree, returns its value and stops right after it.
 */
module JsonGrammar {
  import opened Wrappers
  import opened Json

  /** Inside a string literal: a character for itself, or a backslash and any character. */
  datatype Unit = Plain(c: char) | Escaped(c: char)

  /** A value with the white space before it. */
  datatype Doc = Doc(ws: string, body: Body)

  datatype Body =
    | NullWord
    | BoolWord(b: bool)
    | NumberToken(tok: string)
    | Quoted(units: seq<Unit>)
    | EmptyArray(ws: string)
    | ArrayOf(items: Items)
    | EmptyObject(ws: string)
    | ObjectOf(fields: Fields)

  /** One or more elements; `ws` precedes the comma or closing bracket. */
  datatype Items = Items(head: Doc, ws: string, tail: Option<Items>)

  datatype Fields =
    Fields(wsKey: string, key: seq<Unit>, wsColon: string, val: Doc, ws: string, tail: Option<Fields>)

  // ------------------------------------------------------------ what is spelt

  function UnitText(u: Unit): string {
    match u
    case Plain(c) => [c]
    case Escaped(c) => ['\\', c]
  }

  function UnitsText(us: seq<Unit>): string {
    if us == [] then "" else UnitText(us[0]) + UnitsText(us[1..])
  }

  function QuotedText(us: seq<Unit>): string {
    "\"" + UnitsText(us) + "\""
  }

  function DocText(d: Doc): string {
    d.ws + BodyText(d.body)
  }

  function BodyText(b: Body): string {
    match b
    case NullWord => "null"
    case BoolWord(b) => if b then "true" else "false"
    case NumberToken(tok) => tok
    case Quoted(us) => QuotedText(us)
    case EmptyArray(ws) => "[" + ws + "]"
    case ArrayOf(items) => "[" + ItemsText(items)
    case EmptyObject(ws) => "{" + ws + "}"
    case ObjectOf(fields) => "{" + FieldsText(fields)
  }

  function ItemsText(i: Items): string {
    DocText(i.head) + i.ws + (match i.tail case None => "]" case Some(t) => "," + ItemsText(t))
  }

  function FieldsText(f: Fields): string {
    f.wsKey + QuotedText(f.key) + f.wsColon + ":" + DocText(f.val) + f.ws
    + (match f.tail case None => "}" case Some(t) => "," + FieldsText(t))
  }

  // ------------------------------------------------------------ what is meant

  function UnitMeaning(u: Unit): char {
    match u
    case Plain(c) => c
    case Escaped(c) => Unescape(c)
  }

  function UnitsMeaning(us: seq<Unit>): string {
    if us == [] then "" else [UnitMeaning(us[0])] + UnitsMeaning(us[1..])
  }

  function Meaning(d: Doc): Value
    requires WellFormed(d)
  {
    match d.body
    case NullWord => Null
    case BoolWord(b) => Bool(b)
    case NumberToken(tok) => Number(Stod(tok).value)
    case Quoted(us) => String(UnitsMeaning(us))
    case EmptyArray(_) => Array([])
    case ArrayOf(items) => Array(ItemsMeaning(items))
    case EmptyObject(_) => Object([])
    case ObjectOf(fields) => Object(FieldsMeaning(fields, []))
  }

  function ItemsMeaning(i: Items): seq<Value>
    requires WellFormedItems(i)
  {
    [Meaning(i.head)] + match i.tail case None => [] case Some(t) => ItemsMeaning(t)
  }

  /** Later members overwrite earlier ones in place. */
  function FieldsMeaning(f: Fields, before: seq<Member>): seq<Member>
    requires WellFormedFields(f)
    decreases f
  {
    var ms := Set(before, UnitsMeaning(f.key), Meaning(f.val));
    match f.tail case None => ms case Some(t) => FieldsMeaning(t, ms)
  }

  // ---------------------------------------------------------- well-formedness

  predicate Blank(ws: string) {
    forall i :: 0 <= i < |ws| ==> IsSpace(ws[i])
  }

  predicate WellFormedUnits(us: seq<Unit>) {
    forall i :: 0 <= i < |us| ==> us[i].Plain? ==> us[i].c != '"' && us[i].c != '\\'
  }

  predicate NumberWord(tok: string) {
    tok != "" && (forall i :: 0 <= i < |tok| ==> IsNumberChar(tok[i])) && Stod(tok).Some?
  }

  predicate WellFormed(d: Doc) {
    Blank(d.ws) &&
    match d.body
    case NumberToken(tok) => NumberWord(tok)
    case Quoted(us) => WellFormedUnits(us)
    case EmptyArray(ws) => Blank(ws)
    case ArrayOf(items) => WellFormedItems(items)
    case EmptyObject(ws) => Blank(ws)
    case ObjectOf(fields) => WellFormedFields(fields)
    case _ => true
  }

  predicate WellFormedItems(i: Items) {
    WellFormed(i.head) && Blank(i.ws) && (i.tail.Some? ==> WellFormedItems(i.tail.value))
  }

  predicate WellFormedFields(f: Fields) {
    Blank(f.wsKey) && WellFormedUnits(f.key) && Blank(f.wsColon) && WellFormed(f.val) && Blank(f.ws) &&
    (f.tail.Some? ==> WellFormedFields(f.tail.value))
  }

  /** A number token ends where the next character cannot extend it. */
  predicate Delimits(d: Doc, suffix: string) {
    d.body.NumberToken? && suffix != "" ==> !IsNumberChar(suffix[0])
  }

  // ------------------------------------------------------------ white space

  lemma {:induction false} SkipBlank(ws: string, t: string)
    requires Blank(ws)
    ensures SkipWs(ws + t) == SkipWs(t)
  {
    if ws == "" {
      assert ws + t == t;
    } else {
      assert (ws + t)[1..] == ws[1..] + t;
      SkipBlank(ws[1..], t);
    }
  }

  /** What SkipWs drops is blank and what it leaves does not start with a space. */
  lemma {:induction false} SplitBlank(s: string) returns (ws: string)
    ensures Blank(ws) && s == ws + SkipWs(s)
    ensures SkipWs(s) == "" || !IsSpace(SkipWs(s)[0])
    ensures SkipWs(SkipWs(s)) == SkipWs(s)
    ensures s == "" || !IsSpace(s[0]) ==> ws == ""
  {
    if s != "" && IsSpace(s[0]) {
      var tail := SplitBlank(s[1..]);
      ws := [s[0]] + tail;
    } else {
      ws := "";
    }
  }

  lemma ConsumeBlank(ws: string, t: string, c: char)
    requires Blank(ws)
    ensures Consume(ws + t, c) == Consume(t, c)
  {
    SkipBlank(ws, t);
  }

  /** The punctuation mark after optional white space is consumed, and no other is. */
  lemma ConsumeMark(ws: string, mark: char, t: string, c: char)
    requires Blank(ws) && !IsSpace(mark)
    ensures Consume(ws + [mark] + t, c) == if c == mark then Some(t) else None
  {
    assert ws + [mark] + t == ws + ([mark] + t);
    ConsumeBlank(ws, [mark] + t, c);
  }

  lemma ConsumeSplits(s: string, c: char) returns (ws: string)
    requires Consume(s, c).Some?
    ensures Blank(ws) && s == ws + [c] + Consume(s, c).value
    ensures !IsSpace(s[0]) ==> ws == ""
  {
    ws := SplitBlank(s);
  }

  // ----------------------------------------------------------------- strings

  lemma {:induction false} UnitsParse(us: seq<Unit>, suffix: string)
    requires WellFormedUnits(us)
    ensures RawBody(UnitsText(us) + "\"" + suffix) == Ok(UnitsMeaning(us), suffix)
  {
    var s := UnitsText(us) + "\"" + suffix;
    if us == [] {
      assert s == "\"" + suffix;
    } else {
      var rest := UnitsText(us[1..]) + "\"" + suffix;
      assert s == UnitText(us[0]) + rest;
      assert s[|UnitText(us[0])|..] == rest;
      UnitsParse(us[1..], suffix);
    }
  }

  lemma {:induction false} UnitsExist(s: string) returns (us: seq<Unit>)
    requires RawBody(s).Ok?
    ensures WellFormedUnits(us)
    ensures s == UnitsText(us) + "\"" + RawBody(s).rest
    ensures RawBody(s).value == UnitsMeaning(us)
  {
    if s[0] == '"' {
      us := [];
    } else if s[0] == '\\' && |s| > 1 {
      var tail := UnitsExist(s[2..]);
      us := AddUnit(Escaped(s[1]), tail, s[2..], RawBody(s[2..]).rest);
    } else {
      var tail := UnitsExist(s[1..]);
      us := AddUnit(Plain(s[0]), tail, s[1..], RawBody(s[1..]).rest);
    }
  }

  lemma AddUnit(u: Unit, tail: seq<Unit>, t: string, rest: string) returns (us: seq<Unit>)
    requires WellFormedUnits([u]) && WellFormedUnits(tail)
    requires t == UnitsText(tail) + "\"" + rest
    ensures us == [u] + tail && WellFormedUnits(us)
    ensures UnitText(u) + t == UnitsText(us) + "\"" + rest
    ensures UnitsMeaning(us) == [UnitMeaning(u)] + UnitsMeaning(tail)
  {
    us := [u] + tail;
    assert us[1..] == tail;
  }

  lemma QuotedParse(ws: string, us: seq<Unit>, suffix: string)
    requires Blank(ws) && WellFormedUnits(us)
    ensures RawString(ws + QuotedText(us) + suffix) == Ok(UnitsMeaning(us), suffix)
  {
    var body := UnitsText(us) + "\"" + suffix;
    assert ws + QuotedText(us) + suffix == ws + ['"'] + body;
    ConsumeMark(ws, '"', body, '"');
    UnitsParse(us, suffix);
  }

  lemma QuotedExists(s: string) returns (ws: string, us: seq<Unit>)
    requires RawString(s).Ok?
    ensures Blank(ws) && WellFormedUnits(us)
    ensures s == ws + QuotedText(us) + RawString(s).rest
    ensures !IsSpace(s[0]) ==> ws == ""
    ensures RawString(s).value == UnitsMeaning(us)
  {
    ws := ConsumeSplits(s, '"');
    var body := Consume(s, '"').value;
    us := UnitsExist(body);
    assert s == ws + "\"" + (UnitsText(us) + "\"" + RawString(s).rest);
  }

  // ----------------------------------------------------------------- numbers

  lemma RunIsExact(tok: string, suffix: string)
    requires forall i :: 0 <= i < |tok| ==> IsNumberChar(tok[i])
    requires suffix != "" ==> !IsNumberChar(suffix[0])
    ensures NumberRun(tok + suffix) == |tok|
  {
    assert forall i :: 0 <= i < |tok| ==> (tok + suffix)[i] == tok[i];
    assert suffix != "" ==> (tok + suffix)[|tok|] == suffix[0];
  }

  lemma NumberParse(tok: string, suffix: string)
    requires NumberWord(tok)
    requires suffix != "" ==> !IsNumberChar(suffix[0])
    ensures ParseNumber(tok + suffix) == Ok(Number(Stod(tok).value), suffix)
  {
    RunIsExact(tok, suffix);
    assert (tok + suffix)[..|tok|] == tok && (tok + suffix)[|tok|..] == suffix;
  }

  // ------------------------------------------- every well-formed tree is parsed

  lemma SkipToBody(ws: string, text: string)
    requires Blank(ws)
    requires text != "" && !IsSpace(text[0])
    ensures SkipWs(ws + text) == text
  {
    SkipBlank(ws, text);
  }

  /** Completeness: a tree followed by any text that does not extend it parses to its meaning. */
  lemma {:induction false} TreeIsParsed(d: Doc, suffix: string)
    requires WellFormed(d) && Delimits(d, suffix)
    ensures ParseValue(DocText(d) + suffix) == Ok(Meaning(d), suffix)
    decreases d, 1
  {
    assert DocText(d) + suffix == d.ws + (BodyText(d.body) + suffix);
    BodyIsParsed(d, suffix);
    SpaceBefore(d.ws, BodyText(d.body) + suffix);
  }

  lemma SpaceBefore(ws: string, t: string)
    requires Blank(ws)
    ensures ParseValue(ws + t) == ParseValue(t)
  {
    SkipBlank(ws, t);
  }

  lemma SkipFirst(s: string)
    ensures ParseValue(s) == ParseValue(SkipWs(s))
  {
    var ws := SplitBlank(s);
    SpaceBefore(ws, SkipWs(s));
  }

  lemma {:induction false} BodyIsParsed(d: Doc, suffix: string)
    requires WellFormed(d) && Delimits(d, suffix)
    ensures ParseValue(BodyText(d.body) + suffix) == Ok(Meaning(d), suffix)
    decreases d, 0
  {
    var text := BodyText(d.body) + suffix;
    BodyStarts(d);
    assert text[0] == BodyText(d.body)[0];
    assert SkipWs(text) == text;
    match d.body
    case NumberToken(tok) =>
      NumberParse(tok, suffix);
    case Quoted(us) =>
      assert text == "" + QuotedText(us) + suffix;
      QuotedParse("", us, suffix);
    case ArrayOf(items) =>
      ArrayIsParsed(items, suffix, text);
    case ObjectOf(fields) =>
      ObjectIsParsed(fields, suffix, text);
    case _ =>
      AtomIsParsed(d, suffix, text);
  }

  lemma WordIsParsed(word: string, suffix: string, v: Value)
    requires word != ""
    ensures ParseLiteral(word + suffix, word, v) == Ok(v, suffix)
  {
    assert (word + suffix)[|word|..] == suffix;
  }

  lemma AtomIsParsed(d: Doc, suffix: string, text: string)
    requires WellFormed(d) && text == BodyText(d.body) + suffix && SkipWs(text) == text
    requires d.body.NullWord? || d.body.BoolWord? || d.body.EmptyArray? || d.body.EmptyObject?
    ensures ParseValue(text) == Ok(Meaning(d), suffix)
  {
    match d.body
    case NullWord =>
      WordIsParsed("null", suffix, Null);
    case BoolWord(b) =>
      WordIsParsed(if b then "true" else "false", suffix, Bool(b));
    case EmptyArray(ws) =>
      EmptyIsParsed(ws, suffix);
    case EmptyObject(ws) =>
      EmptyIsParsed(ws, suffix);
  }

  lemma EmptyIsParsed(ws: string, suffix: string)
    requires Blank(ws)
    ensures ParseArray("[" + ws + "]" + suffix) == Ok(Array([]), suffix)
    ensures ParseObject("{" + ws + "}" + suffix) == Ok(Object([]), suffix)
  {
    assert ("[" + ws + "]" + suffix)[1..] == ws + [']'] + suffix;
    assert ("{" + ws + "}" + suffix)[1..] == ws + ['}'] + suffix;
    ConsumeMark(ws, ']', suffix, ']');
    ConsumeMark(ws, '}', suffix, '}');
  }

  lemma {:induction false} ArrayIsParsed(items: Items, suffix: string, text: string)
    requires WellFormedItems(items) && text == "[" + ItemsText(items) + suffix
    ensures ParseArray(text) == Ok(Array(ItemsMeaning(items)), suffix)
    decreases items, 1
  {
    assert text[1..] == ItemsText(items) + suffix;
    ItemsStart(items, suffix);
    ItemsAreParsed(items, suffix, []);
    assert [] + ItemsMeaning(items) == ItemsMeaning(items);
  }

  lemma {:induction false} ObjectIsParsed(fields: Fields, suffix: string, text: string)
    requires WellFormedFields(fields) && text == "{" + FieldsText(fields) + suffix
    ensures ParseObject(text) == Ok(Object(FieldsMeaning(fields, [])), suffix)
    decreases fields, 1
  {
    assert text[1..] == FieldsText(fields) + suffix;
    FieldsStart(fields, suffix);
    FieldsAreParsed(fields, suffix, []);
  }

  lemma BodyStarts(d: Doc)
    requires WellFormed(d)
    ensures BodyText(d.body) != "" && !IsSpace(BodyText(d.body)[0])
    ensures BodyText(d.body)[0] !in {',', ':', ']', '}'}
    ensures d.body.NumberToken? ==> BodyText(d.body)[0] !in {'{', '[', '"', 't', 'f', 'n'}
  {
    if d.body.NumberToken? {
      assert IsNumberChar(d.body.tok[0]);
    }
  }

  /** A tree never starts with a closing bracket, so a non-empty list is not taken for an empty one. */
  lemma ItemsStart(i: Items, suffix: string)
    requires WellFormedItems(i)
    ensures Consume(ItemsText(i) + suffix, ']') == None
  {
    var d := i.head;
    BodyStarts(d);
    var rest := ItemsText(i)[|DocText(d)|..] + suffix;
    assert ItemsText(i) + suffix == d.ws + (BodyText(d.body) + rest);
    SkipToBody(d.ws, BodyText(d.body) + rest);
  }

  lemma FieldsStart(f: Fields, suffix: string)
    requires WellFormedFields(f)
    ensures Consume(FieldsText(f) + suffix, '}') == None
  {
    var rest := FieldsText(f)[|f.wsKey| + 1..] + suffix;
    assert FieldsText(f) + suffix == f.wsKey + ['"'] + rest;
    ConsumeMark(f.wsKey, '"', rest, '}');
  }

  lemma {:induction false} ItemsAreParsed(i: Items, suffix: string, before: seq<Value>)
    requires WellFormedItems(i)
    ensures ParseItems(ItemsText(i) + suffix, before) == Ok(Array(before + ItemsMeaning(i)), suffix)
    decreases i, 0
  {
    var mark := if i.tail.None? then ']' else ',';
    var after := if i.tail.None? then suffix else ItemsText(i.tail.value) + suffix;
    var rest := i.ws + [mark] + after;
    ItemsSplit(i, suffix, mark, after);
    assert Delimits(i.head, rest) by { assert rest[0] == if i.ws == "" then mark else i.ws[0]; }
    TreeIsParsed(i.head, rest);
    ConsumeMark(i.ws, mark, after, ',');
    ConsumeMark(i.ws, mark, after, ']');
    if i.tail.Some? {
      ItemsAreParsed(i.tail.value, suffix, before + [Meaning(i.head)]);
    }
    ItemsMeaningSplit(i, before);
  }

  lemma ItemsSplit(i: Items, suffix: string, mark: char, after: string)
    requires mark == if i.tail.None? then ']' else ','
    requires after == if i.tail.None? then suffix else ItemsText(i.tail.value) + suffix
    ensures ItemsText(i) + suffix == DocText(i.head) + (i.ws + [mark] + after)
  {
    assert ItemsText(i) + suffix == DocText(i.head) + i.ws + ([mark] + after);
  }

  lemma ItemsMeaningSplit(i: Items, before: seq<Value>)
    requires WellFormedItems(i)
    ensures before + ItemsMeaning(i)
         == if i.tail.None? then before + [Meaning(i.head)]
            else before + [Meaning(i.head)] + ItemsMeaning(i.tail.value)
  {
  }

  /** One turn of the element loop. */
  lemma ItemsStep(s: string, before: seq<Value>, v: Value, t: string)
    requires ParseValue(s) == Ok(v, t)
    ensures ParseItems(s, before)
         == match Consume(t, ',')
            case Some(u) => ParseItems(u, before + [v])
            case None =>
              match Consume(t, ']')
              case Some(u) => Ok(Array(before + [v]), u)
              case None => Fail
  {
  }

  lemma {:induction false} FieldsAreParsed(f: Fields, suffix: string, before: seq<Member>)
    requires WellFormedFields(f)
    ensures ParseMembers(FieldsText(f) + suffix, before) == Ok(Object(FieldsMeaning(f, before)), suffix)
    decreases f, 0
  {
    var mark := if f.tail.None? then '}' else ',';
    var after := if f.tail.None? then suffix else FieldsText(f.tail.value) + suffix;
    var afterValue := f.ws + [mark] + after;
    var value := DocText(f.val) + afterValue;
    var afterKey := f.wsColon + [':'] + value;
    FieldsSplit(f, suffix, mark, after);
    QuotedParse(f.wsKey, f.key, afterKey);
    ConsumeMark(f.wsColon, ':', value, ':');
    assert Delimits(f.val, afterValue) by { assert afterValue[0] == if f.ws == "" then mark else f.ws[0]; }
    TreeIsParsed(f.val, afterValue);
    ConsumeMark(f.ws, mark, after, ',');
    ConsumeMark(f.ws, mark, after, '}');
    MembersStep(FieldsText(f) + suffix, before, UnitsMeaning(f.key), afterKey, value, Meaning(f.val), afterValue);
    if f.tail.Some? {
      FieldsAreParsed(f.tail.value, suffix, Set(before, UnitsMeaning(f.key), Meaning(f.val)));
    }
  }

  lemma FieldsSplit(f: Fields, suffix: string, mark: char, after: string)
    requires mark == if f.tail.None? then '}' else ','
    requires after == if f.tail.None? then suffix else FieldsText(f.tail.value) + suffix
    ensures FieldsText(f) + suffix
         == f.wsKey + QuotedText(f.key) + (f.wsColon + [':'] + (DocText(f.val) + (f.ws + [mark] + after)))
  {
    hide QuotedText, DocText;
    var tail := match f.tail case None => "}" case Some(t) => "," + FieldsText(t);
    assert FieldsText(f) == f.wsKey + QuotedText(f.key) + f.wsColon + ":" + DocText(f.val) + f.ws + tail;
    hide FieldsText;
    assert tail + suffix == [mark] + after;
    Reassociate(f.wsKey + QuotedText(f.key), f.wsColon, DocText(f.val), f.ws, tail, suffix, [mark], after);
  }

  lemma Reassociate(a: string, b: string, v: string, c: string, tail: string, suffix: string, mark: string,
                    after: string)
    requires tail + suffix == mark + after
    ensures a + b + ":" + v + c + tail + suffix == a + (b + [':'] + (v + (c + mark + after)))
  {
    assert a + b + ":" + v + c + tail + suffix == a + (b + [':'] + (v + (c + (tail + suffix))));
  }

  /** One turn of the member loop, given what its parts return. */
  lemma MembersStep(s: string, before: seq<Member>, key: string, t: string, u: string, v: Value, w: string)
    requires RawString(s) == Ok(key, t)
    requires Consume(t, ':') == Some(u)
    requires ParseValue(u) == Ok(v, w)
    ensures ParseMembers(s, before)
         == match Consume(w, ',')
            case Some(x) => ParseMembers(x, Set(before, key, v))
            case None =>
              match Consume(w, '}')
              case Some(x) => Ok(Object(Set(before, key, v)), x)
              case None => Fail
  {
  }

  // ------------------------------------- every successful parse has such a tree

  /** Soundness: what the parser consumed is a well-formed tree that means what it returned. */
  lemma {:induction false} ParsedIsTree(s: string) returns (d: Doc)
    requires ParseValue(s).Ok?
    ensures WellFormed(d) && Delimits(d, ParseValue(s).rest)
    ensures s == DocText(d) + ParseValue(s).rest
    ensures Meaning(d) == ParseValue(s).value
    decreases |s|, 1
  {
    var ws := SplitBlank(s);
    SkipFirst(s);
    var body := ParsedBody(SkipWs(s));
    d := Doc(ws, body);
    SpaceIsMeaningless(ws, body);
    assert s == ws + (BodyText(body) + ParseValue(s).rest);
  }

  lemma SpaceIsMeaningless(ws: string, b: Body)
    requires Blank(ws) && WellFormed(Doc("", b))
    ensures WellFormed(Doc(ws, b)) && Meaning(Doc(ws, b)) == Meaning(Doc("", b))
  {
  }

  lemma {:induction false} ParsedBody(t: string) returns (b: Body)
    requires SkipWs(t) == t && (t != "" ==> !IsSpace(t[0]))
    requires ParseValue(t).Ok?
    ensures WellFormed(Doc("", b)) && Delimits(Doc("", b), ParseValue(t).rest)
    ensures t == BodyText(b) + ParseValue(t).rest
    ensures Meaning(Doc("", b)) == ParseValue(t).value
    decreases |t|, 0, 1
  {
    match t[0] {
      case '{' => b := ParsedObject(t);
      case '[' => b := ParsedArray(t);
      case '"' =>
        var blank, us := QuotedExists(t);
        b := Quoted(us);
      case 't' => b := BoolWord(true);
      case 'f' => b := BoolWord(false);
      case 'n' => b := NullWord;
      case _ => b := NumberToken(t[..NumberRun(t)]);
    }
  }

  lemma {:induction false} ParsedArray(t: string) returns (b: Body)
    requires t != "" && t[0] == '[' && ParseArray(t).Ok?
    ensures !b.NumberToken? && WellFormed(Doc("", b))
    ensures t == BodyText(b) + ParseArray(t).rest
    ensures Meaning(Doc("", b)) == ParseArray(t).value
    decreases |t|, 0, 0
  {
    hide Consume, ParseItems, ItemsText, WellFormedItems, ItemsMeaning, BodyText, WellFormed, Meaning;
    var rest := ParseArray(t).rest;
    assert t == "[" + t[1..];
    if Consume(t[1..], ']').Some? {
      var ws := ConsumeSplits(t[1..], ']');
      b := EmptyArray(ws);
      EmptyTree(ws, rest);
    } else {
      var items := ParsedItems(t[1..], []);
      b := ArrayOf(items);
      ItemsTree(items, rest);
      assert [] + ItemsMeaning(items) == ItemsMeaning(items);
    }
  }

  lemma EmptyTree(ws: string, rest: string)
    requires Blank(ws)
    ensures WellFormed(Doc("", EmptyArray(ws))) && WellFormed(Doc("", EmptyObject(ws)))
    ensures Meaning(Doc("", EmptyArray(ws))) == Array([]) && Meaning(Doc("", EmptyObject(ws))) == Object([])
    ensures BodyText(EmptyArray(ws)) + rest == "[" + (ws + [']'] + rest)
    ensures BodyText(EmptyObject(ws)) + rest == "{" + (ws + ['}'] + rest)
  {
  }

  lemma ItemsTree(items: Items, rest: string)
    requires WellFormedItems(items)
    ensures WellFormed(Doc("", ArrayOf(items)))
    ensures Meaning(Doc("", ArrayOf(items))) == Array(ItemsMeaning(items))
    ensures BodyText(ArrayOf(items)) + rest == "[" + (ItemsText(items) + rest)
  {
    hide ItemsText, WellFormedItems, ItemsMeaning;
  }

  lemma FieldsTree(fields: Fields, rest: string)
    requires WellFormedFields(fields)
    ensures WellFormed(Doc("", ObjectOf(fields)))
    ensures Meaning(Doc("", ObjectOf(fields))) == Object(FieldsMeaning(fields, []))
    ensures BodyText(ObjectOf(fields)) + rest == "{" + (FieldsText(fields) + rest)
  {
    hide FieldsText, WellFormedFields, FieldsMeaning;
  }

  lemma {:induction false} ParsedObject(t: string) returns (b: Body)
    requires t != "" && t[0] == '{' && ParseObject(t).Ok?
    ensures !b.NumberToken? && WellFormed(Doc("", b))
    ensures t == BodyText(b) + ParseObject(t).rest
    ensures Meaning(Doc("", b)) == ParseObject(t).value
    decreases |t|, 0, 0
  {
    hide Consume, ParseMembers, FieldsText, WellFormedFields, FieldsMeaning, BodyText, WellFormed, Meaning;
    var rest := ParseObject(t).rest;
    assert t == "{" + t[1..];
    if Consume(t[1..], '}').Some? {
      var ws := ConsumeSplits(t[1..], '}');
      b := EmptyObject(ws);
      EmptyTree(ws, rest);
    } else {
      var fields := ParsedFields(t[1..], []);
      b := ObjectOf(fields);
      FieldsTree(fields, rest);
    }
  }

  lemma {:induction false} ParsedItems(s: string, before: seq<Value>) returns (i: Items)
    requires ParseItems(s, before).Ok?
    ensures WellFormedItems(i)
    ensures s == ItemsText(i) + ParseItems(s, before).rest
    ensures ParseItems(s, before).value == Array(before + ItemsMeaning(i))
    decreases |s|, 2
  {
    var head := ParsedIsTree(s);
    var v, t := ParseValue(s).value, ParseValue(s).rest;
    ItemsStep(s, before, v, t);
    if Consume(t, ',').Some? {
      var ws := ConsumeSplits(t, ',');
      var u := Consume(t, ',').value;
      var tail := ParsedItems(u, before + [v]);
      i := Items(head, ws, Some(tail));
      ItemsSplit(i, ParseItems(s, before).rest, ',', u);
    } else {
      var ws := ConsumeSplits(t, ']');
      i := Items(head, ws, None);
      ItemsSplit(i, ParseItems(s, before).rest, ']', Consume(t, ']').value);
    }
    ItemsMeaningSplit(i, before);
  }

  lemma {:induction false} ParsedFields(s: string, before: seq<Member>) returns (f: Fields)
    requires ParseMembers(s, before).Ok?
    ensures WellFormedFields(f)
    ensures s == FieldsText(f) + ParseMembers(s, before).rest
    ensures ParseMembers(s, before).value == Object(FieldsMeaning(f, before))
    decreases |s|, 2
  {
    var wsKey, key := QuotedExists(s);
    var t := RawString(s).rest;
    var wsColon := ConsumeSplits(t, ':');
    var u := Consume(t, ':').value;
    var val := ParsedIsTree(u);
    var v, w := ParseValue(u).value, ParseValue(u).rest;
    MembersStep(s, before, UnitsMeaning(key), t, u, v, w);
    if Consume(w, ',').Some? {
      var ws := ConsumeSplits(w, ',');
      var x := Consume(w, ',').value;
      var tail := ParsedFields(x, Set(before, UnitsMeaning(key), v));
      f := Fields(wsKey, key, wsColon, val, ws, Some(tail));
      FieldsSplit(f, ParseMembers(s, before).rest, ',', x);
    } else {
      var ws := ConsumeSplits(w, '}');
      f := Fields(wsKey, key, wsColon, val, ws, None);
      FieldsSplit(f, ParseMembers(s, before).rest, '}', Consume(w, '}').value);
    }
  }

  /** The parser and the grammar agree, in both directions. */
  lemma ParserMeetsGrammar(s: string, v: Value, rest: string)
    ensures ParseValue(s) == Ok(v, rest)
       <==> exists d :: WellFormed(d) && Delimits(d, rest) && s == DocText(d) + rest && Meaning(d) == v
  {
    if ParseValue(s) == Ok(v, rest) {
      var d := ParsedIsTree(s);
    }
    forall d | WellFormed(d) && Delimits(d, rest) && s == DocText(d) + rest && Meaning(d) == v
      ensures ParseValue(s) == Ok(v, rest)
    {
      TreeIsParsed(d, rest);
    }
  }
}
