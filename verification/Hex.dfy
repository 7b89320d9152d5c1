/** The hexadecimal helpers of miner::MinerEngine: `toHex` and the two-digit decode. */
module Hex {
  import opened Powers

  function HexChar(d: nat): char
    requires d < 16
  {
    if d < 10 then ('0' as int + d) as char else ('a' as int + d - 10) as char
  }

  predicate IsHex(c: char) {
    '0' <= c <= '9' || 'a' <= c <= 'f' || 'A' <= c <= 'F'
  }

  function HexDigit(c: char): (d: nat)
    requires IsHex(c)
    ensures d < 16
  {
    if '0' <= c <= '9' then c as int - '0' as int
    else if 'a' <= c <= 'f' then c as int - 'a' as int + 10
    else c as int - 'A' as int + 10
  }

  predicate AllHex(s: string) {
    forall i :: 0 <= i < |s| ==> IsHex(s[i])
  }

  function HexValue(s: string): nat
    requires AllHex(s)
  {
    if s == "" then 0 else 16 * HexValue(s[..|s| - 1]) + HexDigit(s[|s| - 1])
  }

  /** Digits without padding, as a stream inserter prints them. */
  function Digits(v: nat): string {
    if v < 16 then [HexChar(v)] else Digits(v / 16) + [HexChar(v % 16)]
  }

  function Fill(n: nat): string {
    seq(n, i => '0')
  }

  /** setw and setfill widen a number but never cut it. */
  function ToHex(v: nat, width: nat): string {
    var d := Digits(v);
    if |d| < width then Fill(width - |d|) + d else d
  }

  lemma {:induction false} DigitsValue(v: nat)
    ensures AllHex(Digits(v)) && HexValue(Digits(v)) == v && Digits(v) != ""
  {
    if v >= 16 {
      DigitsValue(v / 16);
      assert Digits(v)[..|Digits(v)| - 1] == Digits(v / 16);
    } else {
      assert Digits(v)[..0] == "";
    }
  }

  lemma {:induction false} FillValue(n: nat, s: string)
    requires AllHex(s)
    ensures AllHex(Fill(n) + s) && HexValue(Fill(n) + s) == HexValue(s)
    decreases n + |s|
  {
    var t := Fill(n) + s;
    if s != "" {
      FillValue(n, s[..|s| - 1]);
      assert t[..|t| - 1] == Fill(n) + s[..|s| - 1];
    } else if n > 0 {
      FillValue(n - 1, "");
      assert t[..|t| - 1] == Fill(n - 1) + "";
    }
  }

  /** Decoding undoes encoding, for every width. */
  lemma ToHexValue(v: nat, width: nat)
    ensures AllHex(ToHex(v, width)) && HexValue(ToHex(v, width)) == v
  {
    DigitsValue(v);
    if |Digits(v)| < width {
      FillValue(width - |Digits(v)|, Digits(v));
    }
  }

  lemma {:induction false} DigitsLength(v: nat, width: nat)
    requires width > 0 && v < Power(16, width)
    ensures |Digits(v)| <= width
  {
    if v >= 16 {
      assert v / 16 < Power(16, width - 1);
      DigitsLength(v / 16, width - 1);
    }
  }

  /** A number that fits the width has exactly that many digits. */
  lemma ToHexLength(v: nat, width: nat)
    requires width > 0 && v < Power(16, width)
    ensures |ToHex(v, width)| == width
  {
    DigitsLength(v, width);
  }

  /** Distinct numbers never print alike. */
  lemma ToHexInjective(v: nat, w: nat, width: nat)
    ensures ToHex(v, width) == ToHex(w, width) <==> v == w
  {
    ToHexValue(v, width);
    ToHexValue(w, width);
  }

  // ----------------------------------------------------------- decoding bytes

  function PairValue(s: string, j: nat): (b: nat)
    requires AllHex(s) && 2 * j + 2 <= |s|
    ensures b < 256
  {
    16 * HexDigit(s[2 * j]) + HexDigit(s[2 * j + 1])
  }

  function RawBytes(s: string): seq<nat>
    requires AllHex(s)
  {
    seq(|s| / 2, j requires 0 <= j < |s| / 2 => PairValue(s, j))
  }

  /** The loop that decodes a blob; std::stoul of two hexadecimal digits. */
  method DecodeBlob(s: string) returns (raw: seq<nat>)
    requires AllHex(s)
    ensures raw == RawBytes(s)
  {
    raw := [];
    for j := 0 to |s| / 2
      invariant raw == RawBytes(s)[..j]
    {
      var pair := s[j * 2..j * 2 + 2];
      PairIsValue(s, j);
      raw := raw + [HexValue(pair)];
    }
  }

  lemma PairIsValue(s: string, j: nat)
    requires AllHex(s) && 2 * j + 2 <= |s|
    ensures HexValue(s[j * 2..j * 2 + 2]) == PairValue(s, j)
  {
    var p := s[j * 2..j * 2 + 2];
    assert p[..1][..0] == "";
    assert HexValue(p[..1]) == HexDigit(p[0]);
  }

  /** Eight digits as four bytes, most significant first. */
  lemma EightDigits(s: string)
    requires |s| == 8 && AllHex(s)
    ensures HexValue(s)
         == ((PairValue(s, 0) * 256 + PairValue(s, 1)) * 256 + PairValue(s, 2)) * 256 + PairValue(s, 3)
  {
    TwoMore(s[..2]);
    TwoMore(s[..4]);
    TwoMore(s[..6]);
    TwoMore(s);
    assert s[..2][..0] == "" && s[..4][..2] == s[..2] && s[..6][..4] == s[..4] && s[..6] == s[..|s| - 2];
  }

  lemma TwoMore(s: string)
    requires |s| >= 2 && AllHex(s)
    ensures HexValue(s) == 256 * HexValue(s[..|s| - 2]) + 16 * HexDigit(s[|s| - 2]) + HexDigit(s[|s| - 1])
  {
    var t := s[..|s| - 1];
    assert t[..|t| - 1] == s[..|s| - 2];
  }

  // ----------------------------------------------------------- digits by name

  /** The sixteen digits, printed in lower case and read in either. */
  lemma DigitByName(d: nat)
    requires d < 16
    ensures HexChar(d) == "0123456789abcdef"[d]
    ensures IsHex("0123456789abcdef"[d]) && HexDigit("0123456789abcdef"[d]) == d
    ensures IsHex("0123456789ABCDEF"[d]) && HexDigit("0123456789ABCDEF"[d]) == d
  {
  }

  predicate LowerHex(s: string) {
    forall i :: 0 <= i < |s| ==> s[i] in "0123456789abcdef"
  }

  lemma {:induction false} DigitsAreLower(v: nat)
    ensures LowerHex(Digits(v))
  {
    DigitByName(v % 16);
    hide HexChar;
    if v >= 16 {
      DigitsAreLower(v / 16);
    }
  }

  /** toHex prints the sixteen digits by name and nothing else. */
  lemma ToHexIsLower(v: nat, width: nat)
    ensures LowerHex(ToHex(v, width))
  {
    DigitsAreLower(v);
    hide Digits;
    assert "0123456789abcdef"[0] == '0';
  }
}
