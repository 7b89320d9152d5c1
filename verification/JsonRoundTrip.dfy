/**
 What printing and parsing promise together: a printed value is one of the
 grammar's texts, so it parses back to itself in any context, and whatever the
 parser returns is in a normal form that printing preserves.
 */
module JsonRoundTrip {
  import opened Powers
  import opened Wrappers
  import opened Json
  import opened Doubles
  import opened JsonGrammar
  import opened Concatenation
  import opened LineText

  // --------------------------------------------- the tree of a printed value

  function EscapeUnit(c: char): Unit {
    match c
    case '"' => Escaped('"')
    case '\\' => Escaped('\\')
    case '\n' => Escaped('n')
    case '\r' => Escaped('r')
    case '\t' => Escaped('t')
    case c => Plain(c)
  }

  function EscapeUnits(s: string): seq<Unit> {
    if s == "" then [] else [EscapeUnit(s[0])] + EscapeUnits(s[1..])
  }

  lemma {:induction false} EscapeIsUnits(s: string)
    ensures WellFormedUnits(EscapeUnits(s))
    ensures UnitsText(EscapeUnits(s)) == Escape(s)
    ensures UnitsMeaning(EscapeUnits(s)) == s
  {
    if s != "" {
      EscapeIsUnits(s[1..]);
      var u := EscapeUnit(s[0]);
      assert UnitText(u) == EscapeChar(s[0]) && UnitMeaning(u) == s[0];
      hide EscapeUnit, UnitText, UnitMeaning, EscapeChar;
      assert EscapeUnits(s)[1..] == EscapeUnits(s[1..]);
    }
  }

  /** The tree printed for a value: no white space anywhere. */
  function Canon(v: Value): Doc
    requires Exact(v)
    decreases v
  {
    Doc("", match v
            case Null => NullWord
            case Bool(b) => BoolWord(b)
            case Number(n) => NumberToken(IntText(n.Floor))
            case String(s) => Quoted(EscapeUnits(s))
            case Array(items) => if items == [] then EmptyArray("") else ArrayOf(CanonItems(items))
            case Object(ms) => if ms == [] then EmptyObject("") else ObjectOf(CanonFields(ms)))
  }

  function CanonItems(items: seq<Value>): Items
    requires items != [] && forall i :: 0 <= i < |items| ==> Exact(items[i])
    decreases items
  {
    Items(Canon(items[0]), "", if |items| == 1 then None else Some(CanonItems(items[1..])))
  }

  function CanonFields(ms: seq<Member>): Fields
    requires ms != [] && forall i :: 0 <= i < |ms| ==> Exact(ms[i].value)
    decreases ms
  {
    assert ms[0].value < ms[0];
    Fields("", EscapeUnits(ms[0].key), "", Canon(ms[0].value), "",
           if |ms| == 1 then None else Some(CanonFields(ms[1..])))
  }

  lemma {:induction false} DumpIsTree(v: Value)
    requires Exact(v) && Normal(v)
    ensures WellFormed(Canon(v)) && DocText(Canon(v)) == Dump(v) && Meaning(Canon(v)) == v
    decreases v, 1
  {
    match v
    case Number(n) =>
      IntegerToken(n.Floor);
    case String(s) =>
      EscapeIsUnits(s);
    case Array(items) =>
      if items != [] {
        DumpIsItems(items);
        ArrayTree(CanonItems(items), DumpItems(items), items);
      }
    case Object(ms) =>
      if ms != [] {
        DumpIsFields(ms, []);
        assert [] + ms == ms;
        ObjectTree(CanonFields(ms), DumpMembers(ms), ms);
      }
    case _ =>
  }

  lemma ArrayTree(i: Items, inside: string, items: seq<Value>)
    requires WellFormedItems(i) && ItemsText(i) == inside + "]" && ItemsMeaning(i) == items
    ensures var d := Doc("", ArrayOf(i));
            WellFormed(d) && DocText(d) == "[" + inside + "]" && Meaning(d) == Array(items)
  {
    hide ItemsText, WellFormedItems, ItemsMeaning;
    assert "" + ("[" + (inside + "]")) == "[" + inside + "]";
  }

  lemma ObjectTree(f: Fields, inside: string, ms: seq<Member>)
    requires WellFormedFields(f) && FieldsText(f) == inside + "}" && FieldsMeaning(f, []) == ms
    ensures var d := Doc("", ObjectOf(f));
            WellFormed(d) && DocText(d) == "{" + inside + "}" && Meaning(d) == Object(ms)
  {
    hide FieldsText, WellFormedFields, FieldsMeaning;
    assert "" + ("{" + (inside + "}")) == "{" + inside + "}";
  }

  lemma {:induction false} DumpIsItems(items: seq<Value>)
    requires items != []
    requires forall i :: 0 <= i < |items| ==> Exact(items[i]) && Normal(items[i])
    ensures var t := CanonItems(items);
            WellFormedItems(t) && ItemsText(t) == DumpItems(items) + "]" && ItemsMeaning(t) == items
    decreases items, 0
  {
    DumpIsTree(items[0]);
    if |items| > 1 {
      DumpIsItems(items[1..]);
      assert Dump(items[0]) + "" == Dump(items[0]);
      Separated(Dump(items[0]), DumpItems(items[1..]), "]");
    }
  }

  lemma {:induction false} DumpIsFields(ms: seq<Member>, before: seq<Member>)
    requires ms != [] && DistinctKeys(before + ms)
    requires forall i :: 0 <= i < |ms| ==> Exact(ms[i].value) && Normal(ms[i].value)
    ensures var t := CanonFields(ms);
            WellFormedFields(t) && FieldsText(t) == DumpMembers(ms) + "}" && FieldsMeaning(t, before) == before + ms
    decreases ms, 0
  {
    assert ms[0].value < ms[0];
    DumpIsTree(ms[0].value);
    EscapeIsUnits(ms[0].key);
    AppendDistinct(before, ms);
    if |ms| > 1 {
      DumpIsFields(ms[1..], before + [ms[0]]);
    }
    FieldTexts(ms);
  }

  lemma FieldTexts(ms: seq<Member>)
    requires ms != [] && forall i :: 0 <= i < |ms| ==> Exact(ms[i].value)
    requires UnitsText(EscapeUnits(ms[0].key)) == Escape(ms[0].key)
    requires DocText(Canon(ms[0].value)) == Dump(ms[0].value)
    requires |ms| > 1 ==> FieldsText(CanonFields(ms[1..])) == DumpMembers(ms[1..]) + "}"
    ensures FieldsText(CanonFields(ms)) == DumpMembers(ms) + "}"
  {
    hide Exact, Escape, EscapeUnits, UnitsText, Dump, Canon, DocText, FieldsText;
    var key, first := Escape(ms[0].key), Dump(ms[0].value);
    if |ms| == 1 {
      UnspacedField(CanonFields(ms), key, first, "}");
    } else {
      var others := DumpMembers(ms[1..]);
      UnspacedField(CanonFields(ms), key, first, "," + (others + "}"));
      Separated(DumpMember(ms[0]), others, "}");
    }
  }

  /** A printed element, a comma and the others up to the closing bracket. */
  lemma Separated(first: string, others: string, close: string)
    ensures first + ("," + (others + close)) == first + "," + others + close
  {
    Assoc(first, ",", others + close);
    Assoc(first + ",", others, close);
  }

  lemma UnspacedField(f: Fields, key: string, first: string, tail: string)
    requires f.wsKey == "" && f.wsColon == "" && f.ws == ""
    requires UnitsText(f.key) == key && DocText(f.val) == first
    requires tail == match f.tail case None => "}" case Some(t) => "," + FieldsText(t)
    ensures FieldsText(f) == "\"" + key + "\":" + first + tail
  {
    hide UnitsText, DocText;
    assert "" + ("\"" + key + "\"") + "" + ":" + first + "" + tail == "\"" + key + "\":" + first + tail;
  }

  lemma AppendDistinct(before: seq<Member>, ms: seq<Member>)
    requires ms != [] && DistinctKeys(before + ms)
    ensures Set(before, ms[0].key, ms[0].value) == before + [ms[0]]
    ensures before + [ms[0]] + ms[1..] == before + ms
  {
    forall i | 0 <= i < |before| ensures before[i].key != ms[0].key {
      assert (before + ms)[i] == before[i] && (before + ms)[|before|] == ms[0];
    }
    SetAppends(before, ms[0].key, ms[0].value);
    assert Member(ms[0].key, ms[0].value) == ms[0];
  }

  lemma {:induction false} SetAppends(ms: seq<Member>, key: string, v: Value)
    requires forall i :: 0 <= i < |ms| ==> ms[i].key != key
    ensures Set(ms, key, v) == ms + [Member(key, v)]
  {
    if ms != [] {
      SetAppends(ms[1..], key, v);
    }
  }

  // ----------------------------------------------------------------- integers

  predicate AllDigits(s: string) {
    forall i :: 0 <= i < |s| ==> IsDigit(s[i])
  }

  lemma {:induction false} NatTextValue(n: nat)
    ensures NatText(n) != "" && AllDigits(NatText(n)) && DigitsValue(NatText(n)) == n
  {
    if n >= 10 {
      NatTextValue(n / 10);
      assert NatText(n)[..|NatText(n)| - 1] == NatText(n / 10);
    } else {
      assert NatText(n)[..0] == "";
    }
  }

  /** Digits alone: no point, no exponent. */
  lemma DecimalOfDigits(t: string)
    requires t != "" && AllDigits(t)
    ensures Decimal(t) == Some(DigitsValue(t) as real)
  {
    assert DigitRun(t) == |t| && t[..|t|] == t && t[|t|..] == "";
    NoFraction(t);
    hide DigitsValue, Mantissa, DigitRun, ApplyExponent;
  }

  lemma NoFraction(whole: string)
    requires AllDigits(whole)
    ensures DigitRun("") == 0 && ""[..0] == "" && Mantissa(whole, "") == DigitsValue(whole) as real
    ensures ApplyExponent(DigitsValue(whole) as real, "") == DigitsValue(whole) as real
  {
  }

  lemma MagnitudeOfDigits(t: string)
    requires t != "" && AllDigits(t) && IsDouble(DigitsValue(t) as real) && DigitsValue(t) as real < Limit()
    ensures Magnitude(t) == Some(DigitsValue(t) as real)
  {
    DecimalOfDigits(t);
    hide DigitsValue, Decimal, Limit, IsDouble, Converted;
    DoubleConverts(DigitsValue(t) as real);
  }

  lemma LongFits()
    ensures 9223372036854775808.0 < Limit()
  {
  }

  lemma NatToken(n: nat)
    requires IsDouble(n as real) && n <= 0x8000_0000_0000_0000
    ensures NatText(n) != "" && AllDigits(NatText(n)) && Magnitude(NatText(n)) == Some(n as real)
  {
    LongFits();
    NatTextValue(n);
    hide IsDouble, Limit, NatText, Magnitude;
    MagnitudeOfDigits(NatText(n));
  }

  /** std::to_string of an exact integer is a number word that std::stod reads back. */
  lemma IntegerToken(i: int)
    requires ExactInteger(i as real)
    ensures NumberWord(IntText(i)) && Stod(IntText(i)) == Some(i as real)
  {
    var n := if i < 0 then -i else i;
    hide Nearest;
    NatToken(n);
    hide IsDouble, Magnitude, NatText;
    assert ("-" + NatText(n))[1..] == NatText(n);
  }

  // --------------------------------------------------------------- main laws

  /** A suffix after which a printed value cannot continue: nothing, or punctuation. */
  predicate Closing(suffix: string) {
    suffix == "" || suffix[0] == ',' || suffix[0] == ']' || suffix[0] == '}' || IsSpace(suffix[0])
  }

  /** Printed in any context, a value is read back exactly and the reader stops at its end. */
  lemma RoundTrip(v: Value, ws: string, suffix: string)
    requires Exact(v) && Normal(v) && Blank(ws) && Closing(suffix)
    ensures ParseValue(ws + Dump(v) + suffix) == Ok(v, suffix)
  {
    hide Canon, DocText, Dump, Exact, Normal, WellFormed, Meaning, ParseValue;
    DumpIsTree(v);
    TreeIsParsed(Canon(v), suffix);
    assert ws + Dump(v) + suffix == ws + (DocText(Canon(v)) + suffix);
    SpaceBefore(ws, DocText(Canon(v)) + suffix);
  }

  /** No two values print alike. */
  lemma DumpInjective(v: Value, w: Value)
    requires Exact(v) && Normal(v) && Exact(w) && Normal(w)
    ensures Dump(v) == Dump(w) <==> v == w
  {
    RoundTrip(v, "", "");
    RoundTrip(w, "", "");
    assert "" + Dump(v) + "" == Dump(v) && "" + Dump(w) + "" == Dump(w);
  }

  // -------------------------------------------------------------- normal form

  function Keys(ms: seq<Member>): seq<string> {
    if ms == [] then [] else [ms[0].key] + Keys(ms[1..])
  }

  lemma {:induction false} KeysAt(ms: seq<Member>)
    ensures |Keys(ms)| == |ms| && forall i :: 0 <= i < |ms| ==> Keys(ms)[i] == ms[i].key
  {
    if ms != [] {
      KeysAt(ms[1..]);
    }
  }

  /** Setting a member: last value wins, at the position of the first use of the key. */
  lemma {:induction false} SetMeaning(ms: seq<Member>, key: string, v: Value)
    ensures forall k :: Lookup(Set(ms, key, v), k) == if k == key then Some(v) else Lookup(ms, k)
    ensures Keys(Set(ms, key, v)) == if key in Keys(ms) then Keys(ms) else Keys(ms) + [key]
  {
    if ms != [] && ms[0].key != key {
      SetMeaning(ms[1..], key, v);
    }
  }

  lemma {:induction false} SetNormal(ms: seq<Member>, key: string, v: Value)
    requires Normal(Object(ms)) && Normal(v)
    ensures Normal(Object(Set(ms, key, v)))
  {
    var s := Set(ms, key, v);
    KeysAt(ms);
    KeysAt(s);
    SetMeaning(ms, key, v);
    forall i, j | 0 <= i < j < |s| ensures s[i].key != s[j].key {
      assert s[i].key == Keys(s)[i] && s[j].key == Keys(s)[j];
    }
    SetValues(ms, key, v);
  }

  lemma {:induction false} SetValues(ms: seq<Member>, key: string, v: Value)
    requires Normal(v) && forall i :: 0 <= i < |ms| ==> Normal(ms[i].value)
    ensures forall i :: 0 <= i < |Set(ms, key, v)| ==> Normal(Set(ms, key, v)[i].value)
  {
    if ms != [] && ms[0].key != key {
      SetValues(ms[1..], key, v);
    }
  }

  lemma {:induction false} ParsedIsNormal(s: string)
    requires ParseValue(s).Ok?
    ensures Normal(ParseValue(s).value)
    decreases |s|, 1
  {
    var t := SkipWs(s);
    if t[0] == '[' && Consume(t[1..], ']').None? {
      ParsedItemsNormal(t[1..], []);
    } else if t[0] == '{' && Consume(t[1..], '}').None? {
      ParsedMembersNormal(t[1..], []);
    }
  }

  lemma {:induction false} ParsedItemsNormal(s: string, before: seq<Value>)
    requires ParseItems(s, before).Ok? && forall i :: 0 <= i < |before| ==> Normal(before[i])
    ensures Normal(ParseItems(s, before).value)
    decreases |s|, 2
  {
    ParsedIsNormal(s);
    var v, t := ParseValue(s).value, ParseValue(s).rest;
    ItemsStep(s, before, v, t);
    if Consume(t, ',').Some? {
      ParsedItemsNormal(Consume(t, ',').value, before + [v]);
    }
  }

  lemma {:induction false} ParsedMembersNormal(s: string, before: seq<Member>)
    requires ParseMembers(s, before).Ok? && Normal(Object(before))
    ensures Normal(ParseMembers(s, before).value)
    decreases |s|, 2
  {
    var key, t := RawString(s).value, RawString(s).rest;
    var u := Consume(t, ':').value;
    ParsedIsNormal(u);
    var v, w := ParseValue(u).value, ParseValue(u).rest;
    MembersStep(s, before, key, t, u, v, w);
    SetNormal(before, key, v);
    if Consume(w, ',').Some? {
      ParsedMembersNormal(Consume(w, ',').value, Set(before, key, v));
    }
  }

  // ------------------------------------------------------------ parsed numbers

  /** Every number in the value is a double. */
  predicate AllDoubles(v: Value) {
    match v
    case Number(n) => IsDouble(n)
    case Array(items) => forall i :: 0 <= i < |items| ==> AllDoubles(items[i])
    case Object(ms) => forall i :: 0 <= i < |ms| ==> AllDoubles(ms[i].value)
    case _ => true
  }

  /** Every number in the value is an integer that fits a long long. */
  predicate Integral(v: Value) {
    match v
    case Number(n) => n == n.Floor as real && -0x8000_0000_0000_0000 <= n.Floor < 0x8000_0000_0000_0000
    case Array(items) => forall i :: 0 <= i < |items| ==> Integral(items[i])
    case Object(ms) => forall i :: 0 <= i < |ms| ==> Integral(ms[i].value)
    case _ => true
  }

  lemma {:induction false} ExactParts(v: Value)
    requires AllDoubles(v) && Integral(v)
    ensures Exact(v)
  {
    hide IsDouble;
    match v
    case Array(items) =>
      forall i | 0 <= i < |items| ensures Exact(items[i]) {
        ExactParts(items[i]);
      }
    case Object(ms) =>
      forall i | 0 <= i < |ms| ensures Exact(ms[i].value) {
        assert ms[i].value < ms[i];
        ExactParts(ms[i].value);
      }
    case _ =>
  }

  lemma {:induction false} SetDoubles(ms: seq<Member>, key: string, v: Value)
    requires AllDoubles(v) && AllDoubles(Object(ms))
    ensures AllDoubles(Object(Set(ms, key, v)))
  {
    hide IsDouble;
    if ms != [] && ms[0].key != key {
      SetDoubles(ms[1..], key, v);
    }
  }

  lemma TokenIsDouble(tok: string)
    requires Stod(tok).Some?
    ensures IsDouble(Stod(tok).value)
  {
    hide IsDouble, Magnitude;
    MagnitudeIsDouble(tok);
    if tok != "" {
      MagnitudeIsDouble(tok[1..]);
    }
  }

  lemma MagnitudeIsDouble(t: string)
    ensures Magnitude(t).Some? ==> IsDouble(Magnitude(t).value) && IsDouble(-Magnitude(t).value)
  {
    DecimalIsPositive(t);
    hide IsDouble, Converted, Decimal;
    if Magnitude(t).Some? {
      ConvertedIsDouble(Decimal(t).value);
    }
  }

  lemma DecimalIsPositive(t: string)
    ensures Decimal(t).Some? ==> Decimal(t).value >= 0.0
  {
    hide DigitRun, DigitsValue, Mantissa, ApplyExponent;
    var i := DigitRun(t);
    var point := i < |t| && t[i] == '.';
    var u := if point then t[i + 1..] else "";
    var f := DigitRun(u);
    MantissaIsPositive(t[..i], u[..f]);
    Scaled(Mantissa(t[..i], u[..f]), if point then u[f..] else t[i..]);
  }

  lemma MantissaIsPositive(whole: string, fraction: string)
    requires AllDigits(whole) && AllDigits(fraction)
    ensures Mantissa(whole, fraction) >= 0.0
  {
    hide DigitsValue, Power;
    Fraction(DigitsValue(fraction) as real, Power(10, |fraction|) as real);
  }

  lemma Fraction(n: real, d: real)
    requires n >= 0.0 && d > 0.0
    ensures n / d >= 0.0 && n * d >= 0.0
  {
    NotNegative(n / d, d);
  }

  lemma Scaled(mantissa: real, s: string)
    requires mantissa >= 0.0
    ensures ApplyExponent(mantissa, s) >= 0.0
  {
    hide DigitRun, DigitsValue, Power;
    if s != "" && (s[0] == 'e' || s[0] == 'E') {
      var signed := |s| > 1 && (s[1] == '-' || s[1] == '+');
      var digits := if signed then s[2..] else s[1..];
      Fraction(mantissa, Power(10, DigitsValue(digits[..DigitRun(digits)])) as real);
    }
  }

  lemma {:induction false} MeaningIsDoubles(d: Doc)
    requires WellFormed(d)
    ensures AllDoubles(Meaning(d))
    decreases d
  {
    hide IsDouble;
    match d.body
    case NumberToken(tok) => TokenIsDouble(tok);
    case ArrayOf(items) => ItemsAreDoubles(items);
    case ObjectOf(fields) => FieldsAreDoubles(fields, []);
    case _ =>
  }

  lemma {:induction false} ItemsAreDoubles(i: Items)
    requires WellFormedItems(i)
    ensures AllDoubles(Array(ItemsMeaning(i)))
    decreases i
  {
    hide IsDouble;
    MeaningIsDoubles(i.head);
    if i.tail.Some? {
      ItemsAreDoubles(i.tail.value);
    }
  }

  lemma {:induction false} FieldsAreDoubles(f: Fields, before: seq<Member>)
    requires WellFormedFields(f) && AllDoubles(Object(before))
    ensures AllDoubles(Object(FieldsMeaning(f, before)))
    decreases f
  {
    hide IsDouble;
    MeaningIsDoubles(f.val);
    SetDoubles(before, UnitsMeaning(f.key), Meaning(f.val));
    if f.tail.Some? {
      FieldsAreDoubles(f.tail.value, Set(before, UnitsMeaning(f.key), Meaning(f.val)));
    }
  }

  /** Whatever is parsed, its numbers are doubles. */
  lemma ParsedAreDoubles(text: string)
    requires Parse(text).Some?
    ensures AllDoubles(Parse(text).value)
  {
    var d := ParsedIsTree(text);
    MeaningIsDoubles(d);
  }

  /** Printing what was parsed and parsing again changes nothing, if its numbers are integers. */
  lemma ReparseIsStable(text: string)
    requires Parse(text).Some? && Integral(Parse(text).value)
    ensures Exact(Parse(text).value) && Parse(Dump(Parse(text).value)) == Parse(text)
  {
    var v := Parse(text).value;
    ParsedAreDoubles(text);
    ExactParts(v);
    ParsedIsNormal(text);
    RoundTrip(v, "", "");
    assert "" + Dump(v) + "" == Dump(v);
  }

  // ------------------------------------------------------------------ framing

  lemma {:induction false} EscapeIsOneLine(s: string)
    ensures OneLine(Escape(s))
  {
    if s != "" {
      EscapeIsOneLine(s[1..]);
    }
  }

  lemma IntTextIsOneLine(i: int)
    ensures OneLine(IntText(i)) && IntText(i) != ""
  {
    NatTextValue(if i < 0 then -i else i);
    hide NatText;
  }

  lemma Bracketed(open: string, inside: string, close: string)
    requires OneLine(open) && OneLine(inside) && OneLine(close) && open != ""
    ensures OneLine(open + inside + close) && open + inside + close != ""
  {
  }

  /** `dump` never emits a raw newline, so a newline frames it. */
  lemma {:induction false} DumpIsOneLine(v: Value)
    requires Exact(v)
    ensures OneLine(Dump(v)) && Dump(v) != ""
    decreases v, 1
  {
    hide IntText, Escape, DumpItems, DumpMembers, ExactInteger;
    match v
    case Number(n) =>
      IntTextIsOneLine(n.Floor);
    case String(s) =>
      EscapeIsOneLine(s);
      Bracketed("\"", Escape(s), "\"");
    case Array(items) =>
      ItemsAreOneLine(items);
      Bracketed("[", DumpItems(items), "]");
    case Object(ms) =>
      MembersAreOneLine(ms);
      Bracketed("{", DumpMembers(ms), "}");
    case _ =>
  }

  lemma {:induction false} ItemsAreOneLine(items: seq<Value>)
    requires forall i :: 0 <= i < |items| ==> Exact(items[i])
    ensures OneLine(DumpItems(items))
    decreases items, 0
  {
    if items != [] {
      DumpIsOneLine(items[0]);
      ItemsAreOneLine(items[1..]);
    }
  }

  lemma {:induction false} MembersAreOneLine(ms: seq<Member>)
    requires forall i :: 0 <= i < |ms| ==> Exact(ms[i].value)
    ensures OneLine(DumpMembers(ms))
    decreases ms, 0
  {
    if ms != [] {
      assert ms[0].value < ms[0];
      DumpIsOneLine(ms[0].value);
      EscapeIsOneLine(ms[0].key);
      MembersAreOneLine(ms[1..]);
    }
  }
}
