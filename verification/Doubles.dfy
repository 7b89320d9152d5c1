/**
 IEEE 754 double precision over the reals: the spacing of doubles around a magnitude,
 rounding to nearest with ties to even, and what std::strtod reports as out of range.
 */
module Doubles {
  import opened Wrappers

  const SIGNIFICANDS: real := 9007199254740992.0  // 2^53
  const LEAST_EXPONENT: nat := 1074
  const EXPONENTS: nat := 2045

  /** 2^-k. */
  function Unit(k: nat): (u: real)
    ensures u > 0.0
  {
    if k == 0 then 1.0 else Unit(k - 1) / 2.0
  }

  /** The distance between doubles around x, searching upwards from `unit`. */
  function SpacingFrom(x: real, unit: real, left: nat): (u: real)
    requires unit > 0.0
    ensures u > 0.0
    decreases left
  {
    if left == 0 || x < SIGNIFICANDS * unit then unit else SpacingFrom(x, 2.0 * unit, left - 1)
  }

  function Spacing(x: real): (u: real)
    ensures u > 0.0
  {
    SpacingFrom(x, Unit(LEAST_EXPONENT), EXPONENTS)
  }

  function HalfEven(q: real): int {
    var f := q.Floor;
    var part := q - f as real;
    if part < 0.5 || (part == 0.5 && f % 2 == 0) then f else f + 1
  }

  /** The double nearest to a magnitude. */
  function Nearest(x: real): real {
    HalfEven(x / Spacing(x)) as real * Spacing(x)
  }

  predicate IsDouble(x: real) {
    var m := if x < 0.0 then -x else x;
    Nearest(m) == m
  }

  /** The least magnitude that rounds past the largest finite double: 2^1024 - 2^970. */
  function Limit(): real {
    // (2^54 - 1) * 2^243 * 2^243 * 2^242 * 2^242
    18014398509481983.0
    * 14134776518227074636666380005943348126619871175004951664972849610340958208.0
    * 14134776518227074636666380005943348126619871175004951664972849610340958208.0
    * 7067388259113537318333190002971674063309935587502475832486424805170479104.0
    * 7067388259113537318333190002971674063309935587502475832486424805170479104.0
  }

  /**
   Magnitudes std::strtod calls too small: below the normal range once rounded to 53
   bits, and not a double. The bound is 2^-1022 - 2^-1076.
   */
  predicate Underflows(x: real) {
    0.0 < x < (SIGNIFICANDS / 2.0 - 0.25) * Unit(LEAST_EXPONENT) && Nearest(x) != x
  }

  /** What std::stod makes of a magnitude: the nearest double, or an exception. */
  function Converted(x: real): Option<real> {
    if x >= Limit() || Underflows(x) then None else Some(Nearest(x))
  }

  // ------------------------------------------------------ what rounding promises

  lemma HalfEvenIsNear(q: real)
    ensures -0.5 <= HalfEven(q) as real - q <= 0.5
  {
  }

  lemma HalfEvenOfInt(m: int)
    ensures HalfEven(m as real) == m
  {
  }

  lemma Requotient(x: real, u: real)
    requires u > 0.0
    ensures (x / u) * u == x
  {
  }

  /** Rounding moves a magnitude by at most half the spacing of the doubles around it. */
  lemma NearestIsNear(x: real)
    ensures -Spacing(x) <= 2.0 * (Nearest(x) - x) <= Spacing(x)
  {
    var u := Spacing(x);
    hide Spacing, HalfEven;
    HalfEvenIsNear(x / u);
    Requotient(x, u);
    Scale(HalfEven(x / u) as real, x / u, u);
  }

  lemma Scale(h: real, q: real, u: real)
    requires u > 0.0 && -0.5 <= h - q <= 0.5
    ensures -u <= 2.0 * (h * u - q * u) <= u
  {
    var d := h - q;
    assert h * u - q * u == d * u;
    assert -0.5 * u <= d * u <= 0.5 * u;
  }

  /** The unit doubled i times. */
  function Doubled(unit: real, i: nat): (u: real)
    requires unit > 0.0
    ensures u > 0.0
    decreases i
  {
    if i == 0 then unit else Doubled(2.0 * unit, i - 1)
  }

  function Steps(m: int, u: real): real {
    m as real * u
  }

  ghost predicate Multiple(y: real, u: real) {
    exists m :: y == Steps(m, u)
  }

  /** The spacing is the least unit doubled a number of times, the fewest that reach past x. */
  lemma {:induction false} SpacingIsStep(x: real, unit: real, left: nat) returns (i: nat)
    requires unit > 0.0
    ensures i <= left && SpacingFrom(x, unit, left) == Doubled(unit, i)
    ensures i < left ==> x < SIGNIFICANDS * SpacingFrom(x, unit, left)
    ensures i > 0 ==> x >= SIGNIFICANDS * Doubled(unit, i - 1)
    decreases left
  {
    if left == 0 || x < SIGNIFICANDS * unit {
      i := 0;
    } else {
      var j := SpacingIsStep(x, 2.0 * unit, left - 1);
      i := j + 1;
    }
  }

  lemma HalfUnit(y: real, unit: real)
    requires Multiple(y, 2.0 * unit)
    ensures Multiple(y, unit)
  {
    var m :| y == Steps(m, 2.0 * unit);
    assert Steps(2 * m, unit) == Steps(m, 2.0 * unit);
  }

  lemma {:induction false} SmallerUnit(y: real, unit: real, i: nat)
    requires unit > 0.0 && Multiple(y, Doubled(unit, i))
    ensures Multiple(y, unit)
    decreases i
  {
    hide Multiple;
    if i > 0 {
      SmallerUnit(y, 2.0 * unit, i - 1);
      HalfUnit(y, unit);
    }
  }

  lemma JustPast(unit: real)
    ensures Multiple(SIGNIFICANDS * unit, 2.0 * unit)
  {
    assert SIGNIFICANDS * unit == Steps(4503599627370496, 2.0 * unit);
  }

  /** A multiple of a larger unit, unless it is too large for it, is a multiple of its own spacing. */
  lemma {:induction false} WholeSpacings(y: real, unit: real, i: nat, left: nat)
    requires unit > 0.0 && i <= left && Multiple(y, Doubled(unit, i))
    requires i < left ==> y <= SIGNIFICANDS * Doubled(unit, i)
    ensures Multiple(y, SpacingFrom(y, unit, left))
    decreases left
  {
    hide Multiple;
    if left == 0 || y < SIGNIFICANDS * unit {
      SmallerUnit(y, unit, i);
    } else if i > 0 {
      WholeSpacings(y, 2.0 * unit, i - 1, left - 1);
    } else {
      JustPast(unit);
      assert SpacingFrom(y, 2.0 * unit, left - 1) == 2.0 * unit;
    }
  }

  lemma WholeIsNearest(x: real)
    requires Multiple(x, Spacing(x))
    ensures Nearest(x) == x
  {
    var u := Spacing(x);
    hide Spacing, HalfEven;
    var m :| x == Steps(m, u);
    assert x / u == m as real;
    HalfEvenOfInt(m);
  }

  /** A rounded magnitude is a double: rounding it again changes nothing. */
  lemma NearestIsStable(x: real)
    ensures Nearest(Nearest(x)) == Nearest(x)
  {
    hide HalfEven, Unit, SpacingFrom, Doubled;
    var u, h := Spacing(x), HalfEven(x / Spacing(x));
    var i := SpacingIsStep(x, Unit(LEAST_EXPONENT), EXPONENTS);
    assert Nearest(x) == Steps(h, u);
    assert Multiple(Nearest(x), u);
    hide Spacing, Nearest;
    if i < EXPONENTS {
      RoundedFits(x, u, h);
    }
    IsNearest(Nearest(x), i);
  }

  lemma RoundedFits(x: real, u: real, h: int)
    requires u > 0.0 && h == HalfEven(x / u) && x < SIGNIFICANDS * u
    ensures Steps(h, u) <= SIGNIFICANDS * u
  {
    hide HalfEven;
    AtMostSignificands(x, u);
    Monotone(h as real, SIGNIFICANDS, u);
  }

  lemma IsNearest(y: real, i: nat)
    requires i <= EXPONENTS && Multiple(y, Doubled(Unit(LEAST_EXPONENT), i))
    requires i < EXPONENTS ==> y <= SIGNIFICANDS * Doubled(Unit(LEAST_EXPONENT), i)
    ensures Nearest(y) == y
  {
    hide Doubled, Unit, SpacingFrom, Nearest, Multiple;
    WholeSpacings(y, Unit(LEAST_EXPONENT), i, EXPONENTS);
    WholeIsNearest(y);
  }

  lemma AtMostSignificands(x: real, u: real)
    requires u > 0.0 && x < SIGNIFICANDS * u
    ensures HalfEven(x / u) as real <= SIGNIFICANDS
  {
    Requotient(x, u);
    Below(x / u, SIGNIFICANDS, u);
  }

  lemma Below(a: real, b: real, u: real)
    requires u > 0.0 && a * u < b * u
    ensures a < b
  {
    if a >= b {
      Monotone(b, a, u);
    }
  }

  lemma Monotone(a: real, b: real, u: real)
    requires u > 0.0 && a <= b
    ensures a * u <= b * u
  {
  }

  lemma {:induction false} UnitDoubles(k: nat)
    ensures Doubled(Unit(k), k) == 1.0
  {
    if k > 0 {
      UnitDoubles(k - 1);
      assert 2.0 * Unit(k) == Unit(k - 1);
    }
  }

  /** Every integer up to 2^53 is a double. */
  lemma IntegerIsDouble(n: nat)
    requires n as real <= SIGNIFICANDS
    ensures Nearest(n as real) == n as real
  {
    UnitDoubles(LEAST_EXPONENT);
    assert n as real == Steps(n, 1.0);
    hide Nearest, Unit, Doubled;
    IsNearest(n as real, LEAST_EXPONENT);
  }

  /** A double converts to itself. */
  lemma DoubleConverts(x: real)
    requires 0.0 <= x < Limit() && IsDouble(x)
    ensures Converted(x) == Some(x)
  {
    hide Nearest, Limit;
  }

  /** Every conversion yields a double. */
  lemma ConvertedIsDouble(x: real)
    requires x >= 0.0 && Converted(x).Some?
    ensures IsDouble(Converted(x).value) && IsDouble(-Converted(x).value)
  {
    NearestIsStable(x);
    hide Nearest, Limit, Underflows;
    NearestIsPositive(x);
  }

  lemma NearestIsPositive(x: real)
    requires x >= 0.0
    ensures Nearest(x) >= 0.0
  {
    var u := Spacing(x);
    hide Spacing;
    Requotient(x, u);
    NotNegative(x / u, u);
    Monotone(0.0, HalfEven(x / u) as real, u);
  }

  lemma NotNegative(q: real, u: real)
    requires u > 0.0 && q * u >= 0.0
    ensures q >= 0.0
  {
  }

  // -------------------------------------------------- no double is nearer

  function Gap(a: real, x: real): real {
    if a < x then x - a else a - x
  }

  predicate AsNear(a: real, b: real, x: real) {
    Gap(a, x) <= Gap(b, x)
  }

  lemma HalfEvenIsNearest(q: real, m: int)
    ensures AsNear(HalfEven(q) as real, m as real, q)
  {
    var f := q.Floor;
    if m > f {
      assert m as real >= f as real + 1.0;
    } else {
      assert m as real <= f as real;
    }
    Closer(f as real, q - f as real, HalfEven(q) as real, m as real, q);
  }

  lemma Closer(f: real, part: real, h: real, m: real, q: real)
    requires 0.0 <= part < 1.0 && q == f + part && (m <= f || m >= f + 1.0)
    requires (h == f && part <= 0.5) || (h == f + 1.0 && part >= 0.5)
    ensures AsNear(h, m, q)
  {
  }

  lemma ScaleNear(a: real, b: real, q: real, u: real, y: real, z: real, x: real)
    requires u > 0.0 && AsNear(a, b, q) && y == a * u && z == b * u && x == q * u
    ensures AsNear(y, z, x)
  {
    ScaleGap(a, q, u, y, x);
    ScaleGap(b, q, u, z, x);
    hide Gap;
    Monotone(Gap(a, q), Gap(b, q), u);
  }

  lemma ScaleGap(a: real, q: real, u: real, y: real, x: real)
    requires u > 0.0 && y == a * u && x == q * u
    ensures Gap(y, x) == Gap(a, q) * u
  {
    if a < q {
      Difference(q, a, u);
      assert (q - a) * u > 0.0;
    } else {
      Difference(a, q, u);
      Monotone(q, a, u);
    }
  }

  lemma Difference(p: real, q: real, u: real)
    ensures (p - q) * u == p * u - q * u
  {
  }

  /** Of the multiples of the spacing around x none is nearer than the rounded value. */
  lemma MultiplesAreNoNearer(x: real, z: real)
    requires Multiple(z, Spacing(x))
    ensures AsNear(Nearest(x), z, x)
  {
    var u := Spacing(x);
    hide Spacing, HalfEven, AsNear;
    var m :| z == Steps(m, u);
    Requotient(x, u);
    HalfEvenIsNearest(x / u, m);
    ScaleNear(HalfEven(x / u) as real, m as real, x / u, u, Nearest(x), z, x);
  }

  lemma {:induction false} DoubledMore(unit: real, i: nat, j: nat)
    requires unit > 0.0 && i <= j
    ensures Doubled(unit, j) == Doubled(Doubled(unit, i), j - i)
    decreases i
  {
    if i > 0 {
      DoubledMore(2.0 * unit, i - 1, j - 1);
    }
  }

  lemma {:induction false} DoubledGrows(unit: real, i: nat)
    requires unit > 0.0
    ensures Doubled(unit, i) >= unit
    ensures i > 0 ==> Doubled(unit, i) == 2.0 * Doubled(unit, i - 1)
    decreases i
  {
    if i > 0 {
      DoubledGrows(2.0 * unit, i - 1);
    }
  }

  /** A double is a multiple of its own spacing. */
  lemma DoubleIsMultiple(y: real)
    requires Nearest(y) == y
    ensures Multiple(y, Spacing(y))
  {
    hide Spacing, HalfEven;
    assert y == Steps(HalfEven(y / Spacing(y)), Spacing(y));
  }

  /** No double is nearer to x than the one it is rounded to. */
  lemma NoDoubleIsNearer(x: real, y: real)
    requires x >= 0.0 && y >= 0.0 && IsDouble(y)
    ensures AsNear(Nearest(x), y, x)
  {
    var unit := Unit(LEAST_EXPONENT);
    DoubleIsMultiple(y);
    hide Unit, SpacingFrom, Doubled, Nearest, AsNear, Multiple;
    var i := SpacingIsStep(x, unit, EXPONENTS);
    var j := SpacingIsStep(y, unit, EXPONENTS);
    if i <= j {
      DoubledMore(unit, i, j);
      SmallerUnit(y, Doubled(unit, i), j - i);
      MultiplesAreNoNearer(x, y);
    } else {
      BelowBinade(x, y, unit, i, j);
    }
  }

  /** Doubles of a finer spacing lie below the point where the spacing of x begins. */
  lemma BelowBinade(x: real, y: real, unit: real, i: nat, j: nat)
    requires unit > 0.0 && j < i && Spacing(x) == Doubled(unit, i)
    requires x >= SIGNIFICANDS * Doubled(unit, i - 1) && y < SIGNIFICANDS * Doubled(unit, j)
    ensures AsNear(Nearest(x), y, x)
  {
    var edge := SIGNIFICANDS * Doubled(unit, i - 1);
    DoubledGrows(unit, i);
    JustPast(Doubled(unit, i - 1));
    DoubledMore(unit, j, i - 1);
    DoubledGrows(Doubled(unit, j), i - 1 - j);
    hide Spacing, Nearest, Multiple, Doubled;
    MultiplesAreNoNearer(x, edge);
  }
}
