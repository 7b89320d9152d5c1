/**
 The words, marks, escapes and numerals of the dialect, each named outright: how a
 printed value is spelt, and what a decimal with fraction and exponent is worth.
 */
module JsonSpelling {
  import opened Powers
  import opened Wrappers
  import opened Doubles
  import opened Json
  import opened JsonGrammar
  import opened JsonRoundTrip
  import opened JsonSpacing

  // -------------------------------------------------------------------- escapes

  /** The characters that are printed with a backslash, by their codes, and the letter behind it. */
  function LetterFor(code: int): Option<char> {
    if code == 34 then Some('"')
    else if code == 92 then Some('\\')
    else if code == 10 then Some('n')
    else if code == 13 then Some('r')
    else if code == 9 then Some('t')
    else None
  }

  /** Every character prints as itself, or as a backslash and the letter its code has. */
  lemma EscapedByCode(c: char)
    ensures Escape([c]) == match LetterFor(c as int) case None => [c] case Some(letter) => ['\\', letter]
  {
    assert [c][1..] == "";
  }

  lemma {:induction false} EscapesJoin(s: string, t: string)
    ensures Escape(s + t) == Escape(s) + Escape(t)
  {
    if s == "" {
      assert s + t == t;
    } else {
      assert (s + t)[1..] == s[1..] + t;
      EscapesJoin(s[1..], t);
    }
  }

  /** A backslash and any character: three letters stand for control codes, all others for themselves. */
  lemma UnescapedByCode(c: char, s: string)
    ensures RawBody(['\\', c] + s)
         == match RawBody(s)
            case Fail => Fail
            case Ok(rest, after) =>
              Ok([if c == 'n' then 10 as char else if c == 't' then 9 as char else if c == 'r' then 13 as char else c]
                 + rest, after)
  {
    assert (['\\', c] + s)[2..] == s;
  }

  // -------------------------------------------------------------------- numbers

  lemma {:induction false} DigitsJoin(a: string, b: string)
    requires AllDigits(a) && AllDigits(b)
    ensures AllDigits(a + b)
    ensures DigitsValue(a + b) == DigitsValue(a) * Power(10, |b|) + DigitsValue(b)
    decreases |b|
  {
    if b == "" {
      assert a + b == a;
    } else {
      var c := b[..|b| - 1];
      assert (a + b)[..|a + b| - 1] == a + c;
      assert (a + b)[|a + b| - 1] == b[|b| - 1];
      DigitsJoin(a, c);
      Shift(DigitsValue(a), Power(10, |c|), DigitsValue(c));
    }
  }

  lemma Shift(a: nat, p: nat, c: nat)
    ensures 10 * (a * p + c) == a * (10 * p) + 10 * c
  {
  }

  /** The digits by name. */
  lemma DigitByName(d: nat)
    requires d < 10
    ensures var c := "0123456789"[d];
            AllDigits([c]) && DigitsValue([c]) == d && NatText(d) == [c]
  {
    assert "0123456789"[d] as int == '0' as int + d;
    assert ["0123456789"[d]][..0] == "";
  }

  /** How an exponent may be written. */
  datatype Exponent = NoExponent | Exponent(mark: char, sign: string, digits: string)

  function ExponentText(e: Exponent): string {
    match e
    case NoExponent => ""
    case Exponent(mark, sign, digits) => [mark] + sign + digits
  }

  predicate ProperExponent(e: Exponent) {
    e.Exponent? ==> e.mark in {'e', 'E'} && e.sign in {"", "+", "-"} && AllDigits(e.digits)
  }

  function TenTo(e: Exponent): real
    requires ProperExponent(e)
  {
    match e
    case NoExponent => 1.0
    case Exponent(_, sign, digits) =>
      var p := Power(10, DigitsValue(digits)) as real;
      if sign == "-" then 1.0 / p else p
  }

  lemma RunOf(a: string, t: string)
    requires AllDigits(a) && (t != "" ==> !IsDigit(t[0]))
    ensures DigitRun(a + t) == |a| && (a + t)[..|a|] == a && (a + t)[|a|..] == t
  {
    assert forall i :: 0 <= i < |a| ==> (a + t)[i] == a[i];
    assert t != "" ==> (a + t)[|a|] == t[0];
  }

  /** The exponent's digits are what stands behind its mark and its sign, if it has one. */
  lemma ExponentParts(e: Exponent)
    requires e.Exponent? && ProperExponent(e)
    ensures var s := ExponentText(e);
            && s != "" && s[0] == e.mark
            && ((|s| > 1 && (s[1] == '-' || s[1] == '+')) <==> e.sign != "")
            && (e.sign != "" ==> s[1] == e.sign[0] && s[2..] == e.digits)
            && (e.sign == "" ==> s[1..] == e.digits)
  {
    var s := ExponentText(e);
    if e.sign == "" {
      assert [e.mark] + "" == [e.mark];
      assert s == [e.mark] + e.digits;
      assert s[1..] == e.digits;
      assert |s| > 1 ==> s[1] == e.digits[0] && IsDigit(s[1]);
    } else {
      assert s[1] == e.sign[0] && s[2..] == e.digits;
    }
  }

  lemma WholeRun(a: string)
    requires AllDigits(a)
    ensures DigitRun(a) == |a| && a[..|a|] == a
  {
  }

  lemma ExponentIsWorth(mantissa: real, e: Exponent)
    requires ProperExponent(e)
    ensures ApplyExponent(mantissa, ExponentText(e)) == mantissa * TenTo(e)
    ensures ExponentText(e) != "" ==> !IsDigit(ExponentText(e)[0]) && ExponentText(e)[0] != '.'
  {
    if e.Exponent? {
      ExponentParts(e);
      hide ExponentText, DigitRun, DigitsValue, Power;
      WholeRun(e.digits);
      Reciprocal(mantissa, Power(10, DigitsValue(e.digits)) as real);
    }
  }

  lemma Reciprocal(m: real, p: real)
    requires p > 0.0
    ensures m / p == m * (1.0 / p)
  {
  }

  lemma OverCommon(a: nat, b: nat, p: nat)
    requires p > 0
    ensures a as real + b as real / p as real == (a * p + b) as real / p as real
  {
    assert (a * p + b) as real == a as real * p as real + b as real;
  }

  lemma MantissaIsWorth(a: string, b: string)
    requires AllDigits(a) && AllDigits(b)
    ensures AllDigits(a + b) && Mantissa(a, b) == DigitsValue(a + b) as real / Power(10, |b|) as real
  {
    DigitsJoin(a, b);
    hide DigitsValue, Power;
    OverCommon(DigitsValue(a), DigitsValue(b), Power(10, |b|));
  }

  lemma Assembled(t: string, u: string, a: string, b: string, x: string)
    requires AllDigits(a) && AllDigits(b) && |a| + |b| > 0
    requires DigitRun(t) == |a| < |t| && t[..|a|] == a && t[|a|] == '.' && t[|a| + 1..] == u
    requires DigitRun(u) == |b| && u[..|b|] == b && u[|b|..] == x
    ensures Decimal(t) == Some(ApplyExponent(Mantissa(a, b), x))
  {
    hide DigitRun, Mantissa, ApplyExponent;
  }

  /**
   A decimal is its digits, divided by ten for each behind the point, times ten to the
   exponent.
   */
  lemma DecimalIsWorth(a: string, b: string, e: Exponent)
    requires AllDigits(a) && AllDigits(b) && a + b != "" && ProperExponent(e)
    ensures AllDigits(a + b)
    ensures var d := Decimal(a + ("." + (b + ExponentText(e))));
            d.Some? && d.value == DigitsValue(a + b) as real / Power(10, |b|) as real * TenTo(e)
  {
    hide DigitRun, DigitsValue, Power, Mantissa, ApplyExponent, TenTo, ExponentText, Decimal;
    var x := ExponentText(e);
    var u := "." + (b + x);
    MantissaIsWorth(a, b);
    ExponentIsWorth(Mantissa(a, b), e);
    RunOf(a, u);
    RunOf(b, x);
    hide AllDigits, ProperExponent;
    assert (a + u)[|a|] == u[0] && (a + u)[|a| + 1..] == b + x;
    Assembled(a + u, b + x, a, b, x);
  }

  /** Without a point there is no fraction. */
  lemma IntegerIsWorth(a: string, e: Exponent)
    requires AllDigits(a) && a != "" && ProperExponent(e)
    ensures var d := Decimal(a + ExponentText(e));
            d.Some? && d.value == DigitsValue(a) as real * TenTo(e)
  {
    var x := ExponentText(e);
    hide DigitRun, DigitsValue, Power, ApplyExponent, TenTo, ExponentText, Decimal;
    ExponentIsWorth(DigitsValue(a) as real, e);
    RunOf(a, x);
    assert x != "" ==> (a + x)[|a|] == x[0];
    Unpointed(a + x, a, x);
  }

  lemma Unpointed(t: string, a: string, x: string)
    requires AllDigits(a) && a != "" && DigitRun(t) == |a| && t[..|a|] == a && t[|a|..] == x
    requires |a| < |t| ==> t[|a|] != '.'
    ensures Decimal(t) == Some(ApplyExponent(DigitsValue(a) as real, x))
  {
    NoFraction(a);
    hide DigitRun, DigitsValue, Mantissa, ApplyExponent;
  }

  /** One sign may stand in front. */
  lemma SignIsWorth(t: string)
    ensures Stod("+" + t) == Magnitude(t)
    ensures Stod("-" + t) == match Magnitude(t) case None => None case Some(x) => Some(-x)
    ensures t == "" || (t[0] != '+' && t[0] != '-') ==> Stod(t) == Magnitude(t)
  {
    hide Magnitude;
    assert ("+" + t)[1..] == t && ("-" + t)[1..] == t;
  }

  // --------------------------------------------------------------- number tokens

  /** The characters a number token is made of, by name. */
  predicate NumberLetter(c: char) {
    '0' <= c <= '9' || c == '+' || c == '-' || c == '.' || c == 'e' || c == 'E'
  }

  lemma LettersByName(c: char)
    ensures NumberLetter(c) <==> IsNumberChar(c)
  {
  }

  lemma NumberStarts(s: string)
    requires s != "" && NumberLetter(s[0])
    ensures ParseValue(s) == ParseNumber(s)
  {
    hide Stod, NumberRun;
  }

  /** A token of these is read to its end, and nothing behind it. */
  lemma TokenIsRead(tok: string, suffix: string)
    requires tok != "" && AllLetters(tok) && (suffix != "" ==> !NumberLetter(suffix[0]))
    ensures ParseValue(tok + suffix) == match Stod(tok) case None => Fail case Some(x) => Ok(Number(x), suffix)
  {
    var s := tok + suffix;
    assert s[0] == tok[0] && s[..|tok|] == tok && s[|tok|..] == suffix;
    hide Stod, NumberRun, ParseValue;
    NumberStarts(s);
    RunIsExact(tok, suffix);
  }

  predicate AllLetters(s: string) {
    forall i :: 0 <= i < |s| ==> NumberLetter(s[i])
  }

  lemma NumeralLetters(a: string, b: string, e: Exponent)
    requires AllDigits(a) && AllDigits(b) && ProperExponent(e)
    ensures AllLetters(a + ("." + (b + ExponentText(e))))
    ensures var t := a + ("." + (b + ExponentText(e)));
            t[0] != '-' && t[0] != '+'
  {
  }

  lemma SignedIsRead(negative: bool, t: string, worth: real, suffix: string)
    requires t != "" && AllLetters(t) && t[0] != '-' && t[0] != '+'
    requires Decimal(t) == Some(worth) && (suffix != "" ==> !NumberLetter(suffix[0]))
    ensures ParseValue(if negative then "-" + t + suffix else t + suffix)
         == match Converted(worth)
            case None => Fail
            case Some(x) => Ok(Number(if negative then -x else x), suffix)
  {
    SignIsWorth(t);
    hide Decimal, Converted, Stod, ParseValue;
    TokenIsRead(if negative then "-" + t else t, suffix);
  }

  /**
   A numeral with a point in it, anywhere a value may stand: the double its decimal
   converts to, or a failure if it is out of range.
   */
  lemma NumeralIsRead(negative: bool, a: string, b: string, e: Exponent, suffix: string, t: string, worth: real)
    requires AllDigits(a) && AllDigits(b) && AllDigits(a + b) && a + b != "" && ProperExponent(e)
    requires t == a + ("." + (b + ExponentText(e)))
    requires worth == DigitsValue(a + b) as real / Power(10, |b|) as real * TenTo(e)
    requires suffix != "" ==> !NumberLetter(suffix[0])
    ensures ParseValue(if negative then "-" + t + suffix else t + suffix)
         == match Converted(worth)
            case None => Fail
            case Some(x) => Ok(Number(if negative then -x else x), suffix)
  {
    hide DigitsValue, Power, TenTo, ExponentText, Decimal, Converted, ParseValue;
    DecimalIsWorth(a, b, e);
    NumeralLetters(a, b, e);
    hide AllLetters, AllDigits, ProperExponent;
    SignedIsRead(negative, t, worth, suffix);
  }

  /** With no digit in front there is no number. */
  lemma NoDigitsNoNumber(t: string)
    requires t == "" || !('0' <= t[0] <= '9')
    requires |t| > 1 && t[0] == '.' ==> !('0' <= t[1] <= '9')
    ensures Decimal(t) == None
  {
  }

  // ------------------------------------------------------------- known answers

  /** The words and marks of a printed value. */
  lemma WordsByName(s: string)
    ensures Dump(Null) == "null" && Dump(Bool(true)) == "true" && Dump(Bool(false)) == "false"
    ensures Dump(String(s)) == "\"" + Escape(s) + "\"" && Dump(Array([])) == "[]" && Dump(Object([])) == "{}"
  {
  }

  lemma ArrayMarks(v: Value, w: Value)
    requires Exact(v) && Exact(w)
    ensures Dump(Array([v, w])) == "[" + (Dump(v) + "," + Dump(w)) + "]"
  {
    assert [v, w][1..] == [w];
    hide Dump, Exact;
    assert DumpItems([w]) == Dump(w);
  }

  lemma ObjectMarks(k: string, v: Value, l: string, w: Value)
    requires Exact(v) && Exact(w)
    ensures Dump(Object([Member(k, v), Member(l, w)]))
         == "{" + ("\"" + Escape(k) + "\":" + Dump(v) + "," + ("\"" + Escape(l) + "\":" + Dump(w))) + "}"
  {
    var m, n := Member(k, v), Member(l, w);
    assert [m, n][1..] == [n];
    assert Dump(Object([m, n])) == "{" + DumpMembers([m, n]) + "}";
    hide Dump, Exact, Escape;
    assert DumpMembers([n]) == DumpMember(n);
    assert DumpMembers([m, n]) == DumpMember(m) + "," + DumpMembers([n]);
  }

  /** As a pool spaces them: a blank behind each comma and each colon. */
  lemma SpacedComma(v: Value, w: Value)
    requires Exact(v) && Exact(w)
    ensures LaidItems([v, w], POOL) == Laid(v, POOL) + ", " + Laid(w, POOL)
  {
    assert [v, w][1..] == [w];
    hide Laid, Exact;
    assert LaidItems([w], POOL) == Laid(w, POOL);
    SpacedPair(Laid(v, POOL), Laid(w, POOL));
  }

  lemma SpacedColon(k: string, v: Value)
    requires Exact(v)
    ensures LaidMember(Member(k, v), POOL) == "\"" + Escape(k) + "\": " + Laid(v, POOL)
  {
    hide Laid, Exact, Escape;
    SpacedMember("\"" + Escape(k), Laid(v, POOL));
  }

  lemma SpacedPair(first: string, second: string)
    ensures first + "" + "," + " " + second == first + ", " + second
  {
  }

  lemma SpacedMember(key: string, text: string)
    ensures key + "\"" + "" + ":" + " " + text == key + "\": " + text
  {
  }
}
