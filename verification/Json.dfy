/**
 The JSON values of utils::json: a value type, the text `dump` prints, and the
 language-level specification of the parser.

 Text is a sequence of characters standing for the bytes of a std::string. The
 specification functions consume a suffix of the input and return what is left;
 JsonParser.dfy refines them by a cursor that moves over a fixed buffer.
 */
module Json {
  import opened Powers
  import opened Doubles
  import opened Wrappers

  datatype Member = Member(key: string, value: Value)

  datatype Value =
    | Null
    | Bool(b: bool)
    | Number(n: real)
    | String(s: string)
    | Array(items: seq<Value>)
    | Object(members: seq<Member>)
  {
    // The accessors answer the default of the field when the type differs.
    function AsString(): string { if String? then s else "" }
    function AsNumber(): real { if Number? then n else 0.0 }
    predicate IsTrue() { Bool? && b }
    function AsArray(): seq<Value> { if Array? then items else [] }

    function Get(key: string): Option<Value> {
      if Object? then Lookup(members, key) else None
    }
  }

  /** The value of the first member with that key. */
  function Lookup(ms: seq<Member>, key: string): Option<Value> {
    if ms == [] then None
    else if ms[0].key == key then Some(ms[0].value)
    else Lookup(ms[1..], key)
  }

  /** Replaces the value of the first member with that key, or appends a member. */
  function Set(ms: seq<Member>, key: string, v: Value): seq<Member> {
    if ms == [] then [Member(key, v)]
    else if ms[0].key == key then [Member(key, v)] + ms[1..]
    else [ms[0]] + Set(ms[1..], key, v)
  }

  // ---------------------------------------------------------------- printing

  function EscapeChar(c: char): string {
    match c
    case '"' => "\\\""
    case '\\' => "\\\\"
    case '\n' => "\\n"
    case '\r' => "\\r"
    case '\t' => "\\t"
    case c => [c]
  }

  function Escape(s: string): string {
    if s == "" then "" else EscapeChar(s[0]) + Escape(s[1..])
  }

  function Digit(d: nat): char
    requires d < 10
  {
    ('0' as int + d) as char
  }

  function NatText(n: nat): string {
    if n < 10 then [Digit(n)] else NatText(n / 10) + [Digit(n % 10)]
  }

  function IntText(i: int): string {
    if i < 0 then "-" + NatText(-i) else NatText(i)
  }

  const MAX_EXACT: int := 0x20_0000_0000_0000  // 2^53

  /** A double that is an integer and fits a long long, so that it is printed digit by digit. */
  predicate ExactInteger(n: real) {
    n == n.Floor as real && -0x8000_0000_0000_0000 <= n.Floor < 0x8000_0000_0000_0000 && IsDouble(n)
  }

  /** Up to 2^53 that is every integer. */
  lemma SmallIsExact(i: int)
    requires -MAX_EXACT <= i <= MAX_EXACT
    ensures ExactInteger(i as real)
  {
    hide Nearest;
    IntegerIsDouble(if i < 0 then -i else i);
  }

  /** Every number in the value is an exact integer. */
  predicate Exact(v: Value) {
    match v
    case Number(n) => ExactInteger(n)
    case Array(items) => forall i :: 0 <= i < |items| ==> Exact(items[i])
    case Object(ms) => forall i :: 0 <= i < |ms| ==> Exact(ms[i].value)
    case _ => true
  }

  predicate DistinctKeys(ms: seq<Member>) {
    forall i, j :: 0 <= i < j < |ms| ==> ms[i].key != ms[j].key
  }

  /** No object in the value has the same key twice. */
  predicate Normal(v: Value) {
    match v
    case Array(items) => forall i :: 0 <= i < |items| ==> Normal(items[i])
    case Object(ms) => DistinctKeys(ms) && forall i :: 0 <= i < |ms| ==> Normal(ms[i].value)
    case _ => true
  }

  function Dump(v: Value): string
    requires Exact(v)
    decreases v
  {
    match v
    case Null => "null"
    case Bool(b) => if b then "true" else "false"
    case Number(n) => IntText(n.Floor)
    case String(s) => "\"" + Escape(s) + "\""
    case Array(items) => "[" + DumpItems(items) + "]"
    case Object(ms) => "{" + DumpMembers(ms) + "}"
  }

  function DumpItems(items: seq<Value>): string
    requires forall i :: 0 <= i < |items| ==> Exact(items[i])
    decreases items
  {
    if items == [] then ""
    else if |items| == 1 then Dump(items[0])
    else Dump(items[0]) + "," + DumpItems(items[1..])
  }

  function DumpMember(m: Member): string
    requires Exact(m.value)
    decreases m
  {
    "\"" + Escape(m.key) + "\":" + Dump(m.value)
  }

  function DumpMembers(ms: seq<Member>): string
    requires forall i :: 0 <= i < |ms| ==> Exact(ms[i].value)
    decreases ms
  {
    if ms == [] then ""
    else if |ms| == 1 then DumpMember(ms[0])
    else DumpMember(ms[0]) + "," + DumpMembers(ms[1..])
  }

  // ----------------------------------------------------------------- parsing

  /** The outcome of a parsing function: a value and the text after it. */
  datatype Parsed<+T> = Fail | Ok(value: T, rest: string)

  /** std::isspace in the "C" locale. */
  predicate IsSpace(c: char) {
    c == ' ' || 9 <= c as int <= 13
  }

  predicate IsDigit(c: char) {
    '0' <= c <= '9'
  }

  predicate IsNumberChar(c: char) {
    IsDigit(c) || c == '.' || c == 'e' || c == 'E' || c == '-' || c == '+'
  }

  function SkipWs(s: string): (r: string)
    ensures |r| <= |s|
  {
    if s != "" && IsSpace(s[0]) then SkipWs(s[1..]) else s
  }

  function Consume(s: string, c: char): (r: Option<string>)
    ensures r.Some? ==> |r.value| < |s|
  {
    var t := SkipWs(s);
    if t != "" && t[0] == c then Some(t[1..]) else None
  }

  function Unescape(c: char): char {
    match c
    case 'n' => '\n'
    case 't' => '\t'
    case 'r' => '\r'
    case _ => c
  }

  /** The rest of a string literal, after its opening quote. */
  function RawBody(s: string): (r: Parsed<string>)
    ensures r.Ok? ==> |r.rest| < |s|
  {
    if s == "" then Fail
    else if s[0] == '"' then Ok("", s[1..])
    else if s[0] == '\\' && |s| > 1 then Prepend(Unescape(s[1]), RawBody(s[2..]))
    else Prepend(s[0], RawBody(s[1..]))
  }

  function Prepend(c: char, p: Parsed<string>): Parsed<string> {
    match p
    case Fail => Fail
    case Ok(out, rest) => Ok([c] + out, rest)
  }

  function RawString(s: string): (r: Parsed<string>)
    ensures r.Ok? ==> |r.rest| < |s|
  {
    match Consume(s, '"')
    case None => Fail
    case Some(t) => RawBody(t)
  }

  /** How many leading characters belong to a number token. */
  function NumberRun(s: string): (k: nat)
    ensures k <= |s|
    ensures forall i :: 0 <= i < k ==> IsNumberChar(s[i])
    ensures k < |s| ==> !IsNumberChar(s[k])
  {
    if s != "" && IsNumberChar(s[0]) then 1 + NumberRun(s[1..]) else 0
  }

  function DigitRun(s: string): (k: nat)
    ensures k <= |s|
    ensures forall i :: 0 <= i < k ==> IsDigit(s[i])
    ensures k < |s| ==> !IsDigit(s[k])
  {
    if s != "" && IsDigit(s[0]) then 1 + DigitRun(s[1..]) else 0
  }

  function DigitOf(c: char): nat
    requires IsDigit(c)
  {
    c as int - '0' as int
  }

  function DigitsValue(s: string): nat
    requires forall i :: 0 <= i < |s| ==> IsDigit(s[i])
  {
    if s == "" then 0 else 10 * DigitsValue(s[..|s| - 1]) + DigitOf(s[|s| - 1])
  }

  /**
   std::stod on a token of number characters: the longest prefix that is a decimal
   counts, rounded to a double; no digits or a range error raise, which is None.
   */
  function Stod(tok: string): Option<real> {
    if tok == "" || (tok[0] != '-' && tok[0] != '+') then Magnitude(tok)
    else match Magnitude(tok[1..])
      case None => None
      case Some(x) => Some(if tok[0] == '-' then -x else x)
  }

  function Magnitude(t: string): Option<real> {
    match Decimal(t)
    case None => None
    case Some(x) => Converted(x)
  }

  /** The value spelt by the digits, point and exponent at the head of a text. */
  function Decimal(t: string): Option<real> {
    var i := DigitRun(t);
    var point := i < |t| && t[i] == '.';
    var u := if point then t[i + 1..] else "";
    var f := DigitRun(u);
    if i + f == 0 then None
    else
      Some(ApplyExponent(Mantissa(t[..i], u[..f]), if point then u[f..] else t[i..]))
  }

  function Mantissa(whole: string, fraction: string): real
    requires forall i :: 0 <= i < |whole| ==> IsDigit(whole[i])
    requires forall i :: 0 <= i < |fraction| ==> IsDigit(fraction[i])
  {
    DigitsValue(whole) as real + DigitsValue(fraction) as real / Power(10, |fraction|) as real
  }

  /** Scales the mantissa by the exponent part at the head of `s`, if there is one. */
  function ApplyExponent(mantissa: real, s: string): real {
    if s == "" || (s[0] != 'e' && s[0] != 'E') then mantissa
    else
      var signed := |s| > 1 && (s[1] == '-' || s[1] == '+');
      var digits := if signed then s[2..] else s[1..];
      var e := DigitsValue(digits[..DigitRun(digits)]);
      if signed && s[1] == '-' then mantissa / Power(10, e) as real else mantissa * Power(10, e) as real
  }

  function ParseNumber(s: string): (r: Parsed<Value>)
    ensures r.Ok? ==> |r.rest| < |s|
  {
    var k := NumberRun(s);
    if k == 0 then Fail
    else match Stod(s[..k])
      case None => Fail
      case Some(x) => Ok(Number(x), s[k..])
  }

  function ParseLiteral(s: string, word: string, v: Value): (r: Parsed<Value>)
    requires word != ""
    ensures r.Ok? ==> |r.rest| < |s|
  {
    if word <= s then Ok(v, s[|word|..]) else Fail
  }

  function ParseValue(s: string): (r: Parsed<Value>)
    ensures r.Ok? ==> |r.rest| < |s|
    decreases |s|, 1
  {
    var t := SkipWs(s);
    if t == "" then Fail
    else match t[0]
      case '{' => ParseObject(t)
      case '[' => ParseArray(t)
      case '"' => (match RawString(t)
                   case Fail => Fail
                   case Ok(x, rest) => Ok(String(x), rest))
      case 't' => ParseLiteral(t, "true", Bool(true))
      case 'f' => ParseLiteral(t, "false", Bool(false))
      case 'n' => ParseLiteral(t, "null", Null)
      case _ => ParseNumber(t)
  }

  function ParseArray(s: string): (r: Parsed<Value>)
    requires s != ""
    ensures r.Ok? ==> |r.rest| < |s|
    decreases |s|, 0
  {
    match Consume(s[1..], ']')
    case Some(t) => Ok(Array([]), t)
    case None => ParseItems(s[1..], [])
  }

  /** The element loop of an array, `items` already read. */
  function ParseItems(s: string, items: seq<Value>): (r: Parsed<Value>)
    ensures r.Ok? ==> |r.rest| < |s|
    decreases |s|, 2
  {
    match ParseValue(s)
    case Fail => Fail
    case Ok(v, t) =>
      match Consume(t, ',')
      case Some(u) => ParseItems(u, items + [v])
      case None =>
        match Consume(t, ']')
        case Some(u) => Ok(Array(items + [v]), u)
        case None => Fail
  }

  function ParseObject(s: string): (r: Parsed<Value>)
    requires s != ""
    ensures r.Ok? ==> |r.rest| < |s|
    decreases |s|, 0
  {
    match Consume(s[1..], '}')
    case Some(t) => Ok(Object([]), t)
    case None => ParseMembers(s[1..], [])
  }

  /** A key, a colon and a value. */
  function ParseMember(s: string): (r: Parsed<Member>)
    ensures r.Ok? ==> |r.rest| < |s|
    decreases |s|, 2
  {
    match RawString(s)
    case Fail => Fail
    case Ok(key, t) =>
      match Consume(t, ':')
      case None => Fail
      case Some(u) =>
        match ParseValue(u)
        case Fail => Fail
        case Ok(v, w) => Ok(Member(key, v), w)
  }

  /** The member loop of an object, `members` already read. */
  function ParseMembers(s: string, members: seq<Member>): (r: Parsed<Value>)
    ensures r.Ok? ==> |r.rest| < |s|
    decreases |s|, 3
  {
    match ParseMember(s)
    case Fail => Fail
    case Ok(m, t) =>
      match Consume(t, ',')
      case Some(u) => ParseMembers(u, Set(members, m.key, m.value))
      case None =>
        match Consume(t, '}')
        case Some(u) => Ok(Object(Set(members, m.key, m.value)), u)
        case None => Fail
  }

  /** The public entry point: text after the first value is ignored. */
  function Parse(text: string): Option<Value> {
    match ParseValue(text)
    case Fail => None
    case Ok(v, _) => Some(v)
  }
}
