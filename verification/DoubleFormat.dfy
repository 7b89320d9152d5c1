/**
 The numbers of Doubles.dfy said in powers of two: which reals are doubles, where ties
 go, and from which magnitudes on a conversion fails.
 */
module DoubleFormat {
  import opened Powers
  import opened Doubles

  /** 2^e, for exponents of either sign. */
  function TwoTo(e: int): (t: real)
    ensures t > 0.0
  {
    if e >= 0 then Power(2, e) as real else 1.0 / Power(2, -e) as real
  }

  lemma Next(e: int)
    ensures TwoTo(e + 1) == 2.0 * TwoTo(e)
  {
    if e < -1 {
      assert Power(2, -e) == 2 * Power(2, -e - 1);
    } else if e == -1 {
      assert Power(2, 1) == 2 && Power(2, 0) == 1;
    }
  }

  lemma PowerOfNone()
    ensures TwoTo(0) == 1.0
  {
  }

  lemma {:induction false} ProductOfPowers(a: int, b: nat)
    ensures TwoTo(a + b) == TwoTo(a) * TwoTo(b)
  {
    PowerOfNone();
    hide TwoTo;
    if b > 0 {
      ProductOfPowers(a, b - 1);
      Next(a + b - 1);
      Next(b - 1);
      Twice(TwoTo(a), TwoTo(b - 1));
    }
  }

  lemma Twice(x: real, y: real)
    ensures 2.0 * (x * y) == x * (2.0 * y)
  {
  }

  lemma {:induction false} UnitIsPower(k: nat)
    ensures Unit(k) == TwoTo(0 - k)
  {
    PowerOfNone();
    hide TwoTo;
    if k > 0 {
      UnitIsPower(k - 1);
      Next(0 - k);
    }
  }

  lemma {:induction false} DoubledIsPower(e: int, i: nat)
    ensures Doubled(TwoTo(e), i) == TwoTo(e + i)
    decreases i
  {
    hide TwoTo;
    if i > 0 {
      Next(e);
      DoubledIsPower(e + 1, i - 1);
    }
  }

  lemma SmallPowers()
    ensures TwoTo(1) == 2.0 && TwoTo(3) == 8.0 && TwoTo(10) == 1024.0
  {
    assert Power(2, 1) == 2 && Power(2, 3) == 8 && Power(2, 10) == 1024;
  }

  lemma Times(a: int, b: nat, x: real, y: real, z: real)
    requires TwoTo(a) == x && TwoTo(b) == y && x * y == z
    ensures TwoTo(a + b) == z
  {
    hide TwoTo;
    ProductOfPowers(a, b);
  }

  lemma LargePowers()
    ensures TwoTo(53) == 9007199254740992.0
    ensures TwoTo(121) == 2658455991569831745807614120560689152.0
  {
    SmallPowers();
    hide TwoTo;
    Times(10, 10, 1024.0, 1024.0, 1048576.0);
    Times(20, 20, 1048576.0, 1048576.0, 1099511627776.0);
    Times(40, 10, 1099511627776.0, 1024.0, 1125899906842624.0);
    Times(50, 3, 1125899906842624.0, 8.0, 9007199254740992.0);
    Times(50, 10, 1125899906842624.0, 1024.0, 1152921504606846976.0);
    Times(60, 60, 1152921504606846976.0, 1152921504606846976.0, 1329227995784915872903807060280344576.0);
    Times(120, 1, 1329227995784915872903807060280344576.0, 2.0, 2658455991569831745807614120560689152.0);
  }

  // ------------------------------------------------------------ which are doubles

  /** A significand of 53 bits and one of the exponents of the format. */
  ghost predicate HasFormat(x: real) {
    exists m: nat, e :: m < 0x20_0000_0000_0000 && -1074 <= e <= 971 && x == Scaled(m, e)
  }

  function Scaled(m: nat, e: int): real {
    m as real * TwoTo(e)
  }

  lemma UnitsArePowers(i: nat)
    ensures Doubled(Unit(LEAST_EXPONENT), i) == TwoTo(i - 1074)
  {
    UnitIsPower(LEAST_EXPONENT);
    hide TwoTo, Unit;
    DoubledIsPower(-1074, i);
  }

  /** The magnitudes below 2^1024 that are doubles are those of the format. */
  lemma DoublesHaveFormat(x: real)
    requires 0.0 <= x < TwoTo(1024)
    ensures IsDouble(x) <==> HasFormat(x)
  {
    hide Nearest, TwoTo;
    if IsDouble(x) {
      FormatOf(x);
    }
    if HasFormat(x) {
      var m: nat, e :| m < 0x20_0000_0000_0000 && -1074 <= e <= 971 && x == Scaled(m, e);
      FormatIsDouble(m, e);
    }
  }

  lemma FormatIsDouble(m: nat, e: int)
    requires m < 0x20_0000_0000_0000 && -1074 <= e <= 971
    ensures Nearest(Scaled(m, e)) == Scaled(m, e)
  {
    var u := Doubled(Unit(LEAST_EXPONENT), e + 1074);
    UnitsArePowers(e + 1074);
    SmallMultiple(m, u);
    hide TwoTo, Nearest, Doubled, Unit, Multiple, Steps;
    IsNearest(Steps(m, u), e + 1074);
    SameProduct(m, e, u);
  }

  lemma SameProduct(m: nat, e: int, u: real)
    requires u == TwoTo(e)
    ensures Scaled(m, e) == Steps(m, u)
  {
    hide TwoTo;
  }

  lemma SmallMultiple(m: nat, u: real)
    requires u > 0.0 && m < 0x20_0000_0000_0000
    ensures Multiple(Steps(m, u), u) && Steps(m, u) <= SIGNIFICANDS * u
  {
    Monotone(m as real, SIGNIFICANDS, u);
  }

  lemma FormatOf(x: real)
    requires 0.0 <= x < TwoTo(1024) && Nearest(x) == x
    ensures HasFormat(x)
  {
    hide Spacing, Nearest, Unit, Doubled, TwoTo, Steps, Scaled;
    var h := WholeSpacing(x);
    var i := StepOfSpacing(x);
    var e: int := i as int - 1074;
    var u := Spacing(x);
    BelowLargest(x, u, i);
    SmallSignificand(x, h, u);
    SameProduct(h, e, u);
    assert x == Scaled(h, e);
  }

  lemma StepOfSpacing(x: real) returns (i: nat)
    ensures i <= EXPONENTS && Spacing(x) == Doubled(Unit(LEAST_EXPONENT), i)
    ensures i < EXPONENTS ==> x < SIGNIFICANDS * Spacing(x)
  {
    hide SpacingFrom, Unit, Doubled;
    i := SpacingIsStep(x, Unit(LEAST_EXPONENT), EXPONENTS);
  }

  lemma WholeSpacing(x: real) returns (h: int)
    requires Nearest(x) == x
    ensures x == Steps(h, Spacing(x))
  {
    hide Spacing;
    h := HalfEven(x / Spacing(x));
  }

  /** Below 2^1024 the spacing reaches past the magnitude. */
  lemma BelowLargest(x: real, u: real, i: nat)
    requires x < TwoTo(1024) && i <= EXPONENTS && u == Doubled(Unit(LEAST_EXPONENT), i)
    requires i < EXPONENTS ==> x < SIGNIFICANDS * u
    ensures u == TwoTo(i - 1074) && x < SIGNIFICANDS * u
  {
    hide TwoTo, Unit, Doubled;
    UnitsArePowers(i);
    LargePowers();
    ProductOfPowers(971, 53);
    Commutes(TwoTo(971), TwoTo(53));
  }

  lemma Commutes(x: real, y: real)
    ensures x * y == y * x
  {
  }

  lemma SmallSignificand(x: real, h: int, u: real)
    requires u > 0.0 && x == Steps(h, u) && 0.0 <= x < SIGNIFICANDS * u
    ensures 0 <= h < 0x20_0000_0000_0000
  {
    Below(h as real, SIGNIFICANDS, u);
    NotNegative(h as real, u);
  }

  lemma Halfway(x: real, q: real, u: real)
    requires u > 0.0 && x == q * u
    ensures x / u == q
  {
  }

  lemma TieOf(m: int)
    ensures HalfEven(m as real + 0.5) == 2 * ((m + 1) / 2)
  {
    assert (m as real + 0.5).Floor == m;
  }

  /** Half way between two doubles the even one is taken. */
  lemma TiesGoToEven(x: real, m: int)
    requires x == (m as real + 0.5) * Spacing(x)
    ensures exists k :: Nearest(x) == Steps(2 * k, Spacing(x))
  {
    var u := Spacing(x);
    hide Spacing;
    Halfway(x, m as real + 0.5, u);
    TieOf(m);
    hide HalfEven;
    assert Nearest(x) == Steps(2 * ((m + 1) / 2), u);
  }

  // --------------------------------------------------------------- which convert

  lemma LimitIsPower()
    ensures Limit() == TwoTo(1024) - TwoTo(970)
  {
    LargePowers();
    hide TwoTo;
    ProductOfPowers(121, 121);
    Next(242);
    ProductOfPowers(243, 243);
    ProductOfPowers(242, 242);
    ProductOfPowers(486, 484);
    ProductOfPowers(970, 53);
    Next(1023);
    assert TwoTo(242) == 7067388259113537318333190002971674063309935587502475832486424805170479104.0;
    assert TwoTo(243) == 14134776518227074636666380005943348126619871175004951664972849610340958208.0;
  }

  lemma LeastIsPower()
    ensures (SIGNIFICANDS / 2.0 - 0.25) * Unit(LEAST_EXPONENT) == TwoTo(-1022) - TwoTo(-1076)
  {
    UnitIsPower(LEAST_EXPONENT);
    LargePowers();
    hide TwoTo, Unit;
    ProductOfPowers(-1074, 53);
    Next(-1022);
    Next(-1076);
    Next(-1075);
  }

  /**
   A magnitude is refused when it rounds past the largest double, 2^1024 - 2^971, or is
   no double and, kept to 53 bits, would be below the normal range, which starts at 2^-1022.
   */
  lemma RefusedIff(x: real)
    requires x >= 0.0
    ensures Converted(x).None?
       <==> || x >= TwoTo(1024) - TwoTo(970)
            || (0.0 < x < TwoTo(-1022) - TwoTo(-1076) && !HasFormat(x))
  {
    LimitIsPower();
    LeastIsPower();
    hide Limit, Nearest, TwoTo, HasFormat, Unit;
    if x < TwoTo(1024) {
      DoublesHaveFormat(x);
    }
  }
}
