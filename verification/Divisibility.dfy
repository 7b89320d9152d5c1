/** Divisibility by powers of two: the arithmetic behind the nonce walks. */
module Divisibility {
  import opened Powers

  // ------------------------------------------------------------------ products

  lemma MulAssoc(a: int, b: int, c: int)
    ensures (a * b) * c == a * (b * c)
  {
  }

  lemma Swap(a: int, b: int, c: int)
    ensures a * (b * c) == b * (a * c)
  {
    MulAssoc(a, b, c);
    MulAssoc(b, a, c);
  }

  lemma Distribute(a: int, b: int, c: int)
    ensures a * (b + c) == a * b + a * c && a * (b - c) == a * b - a * c
  {
  }

  lemma AtLeast(a: int, b: int)
    requires a >= 0 && b > 0
    ensures a * b >= a
  {
  }

  lemma AtMost(a: int, b: int)
    requires a >= 0 && b < 0
    ensures a * b <= -a
  {
    AtLeast(a, -b);
  }

  /** A multiple of m strictly between -m and m is zero. */
  lemma SmallProduct(m: int, d: int)
    requires m > 0 && -m < m * d < m
    ensures d == 0
  {
    if d > 0 {
      AtLeast(m, d);
    } else if d < 0 {
      AtMost(m, d);
    }
  }

  lemma Cancel(a: int, x: int, y: int)
    requires a > 0 && a * x == a * y
    ensures x == y
  {
    Distribute(a, x, y);
    SmallProduct(a, x - y);
  }

  lemma RemainderIs(a: int, m: int, q: int, r: int)
    requires m > 0 && 0 <= r < m && a == m * q + r
    ensures a % m == r && a / m == q
  {
    var q', r' := a / m, a % m;
    assert a == m * q' + r';
    Distribute(m, q, q');
    SmallProduct(m, q - q');
  }

  // --------------------------------------------------------------- divisibility

  function Times(d: int, q: int): int {
    d * q
  }

  ghost predicate Divides(d: int, n: int) {
    exists q :: n == Times(d, q)
  }

  lemma DividesBy(d: int, n: int, q: int)
    requires n == d * q
    ensures Divides(d, n)
  {
    assert n == Times(d, q);
  }

  lemma Quotient(d: int, n: int) returns (q: int)
    requires Divides(d, n)
    ensures n == d * q
  {
    q :| n == Times(d, q);
  }

  /** A common positive factor cancels. */
  lemma CancelFactor(a: int, d: int, n: int)
    requires a > 0
    ensures Divides(a * d, a * n) <==> Divides(d, n)
  {
    if Divides(d, n) {
      var q := Quotient(d, n);
      MulAssoc(a, d, q);
      DividesBy(a * d, a * n, q);
    }
    if Divides(a * d, a * n) {
      var q := Quotient(a * d, a * n);
      MulAssoc(a, d, q);
      Cancel(a, n, d * q);
      DividesBy(d, n, q);
    }
  }

  lemma SameResidue(a: int, b: int, m: int)
    requires m > 0
    ensures a % m == b % m <==> Divides(m, a - b)
  {
    if a % m == b % m {
      Distribute(m, a / m, b / m);
      DividesBy(m, a - b, a / m - b / m);
    }
    if Divides(m, a - b) {
      var q := Quotient(m, a - b);
      Distribute(m, b / m, q);
      RemainderIs(a, m, b / m + q, b % m);
    }
  }

  lemma SmallMultiple(m: int, d: int)
    requires m > 0 && -m < d < m
    ensures Divides(m, d) <==> d == 0
  {
    DividesBy(m, 0, 0);
    if Divides(m, d) {
      var q := Quotient(m, d);
      SmallProduct(m, q);
    }
  }

  // -------------------------------------------------------------- powers of two

  lemma {:induction false} Pow2Add(a: nat, b: nat)
    ensures Power(2, a + b) == Power(2, a) * Power(2, b)
  {
    if a > 0 {
      Pow2Add(a - 1, b);
      MulAssoc(2, Power(2, a - 1), Power(2, b));
    }
  }

  /** How often two divides n. */
  function Twos(n: nat): nat
    requires n > 0
  {
    if n % 2 == 1 then 0 else 1 + Twos(n / 2)
  }

  function OddPart(n: nat): (m: nat)
    requires n > 0
    ensures m % 2 == 1
  {
    if n % 2 == 1 then n else OddPart(n / 2)
  }

  lemma {:induction false} Factor(n: nat)
    requires n > 0
    ensures n == Power(2, Twos(n)) * OddPart(n)
  {
    if n % 2 == 0 {
      Factor(n / 2);
      MulAssoc(2, Power(2, Twos(n / 2)), OddPart(n / 2));
    }
  }

  lemma Parity(x: int, d: int)
    ensures (2 * x + d) % 2 == d % 2
  {
  }

  /** An odd factor keeps the parity. */
  lemma OddKeepsParity(d: int, odd: int)
    requires odd % 2 == 1
    ensures (d * odd) % 2 == d % 2
  {
    var b := odd / 2;
    Distribute(d, 2 * b, 1);
    Swap(d, 2, b);
    Parity(d * b, d);
  }

  /** An odd factor does not help a power of two to divide. */
  lemma {:induction false} OddCancels(m: nat, d: int, odd: int)
    requires odd % 2 == 1
    ensures Divides(Power(2, m), d * odd) <==> Divides(Power(2, m), d)
    decreases m
  {
    if m == 0 {
      DividesBy(1, d, d);
      DividesBy(1, d * odd, d * odd);
    } else {
      var p := Power(2, m - 1);
      assert Power(2, m) == 2 * p;
      hide Power, Divides;
      if Divides(2 * p, d) {
        MultipleOfDivided(2 * p, d, odd);
      }
      if Divides(2 * p, d * odd) {
        HalveDivided(p, d, odd);
        OddCancels(m - 1, d / 2, odd);
        DoubleDivided(p, d / 2);
      }
    }
  }

  lemma MultipleOfDivided(p: int, d: int, k: int)
    requires Divides(p, d)
    ensures Divides(p, d * k)
  {
    var q := Quotient(p, d);
    MulAssoc(p, q, k);
    DividesBy(p, d * k, q * k);
  }

  lemma HalveDivided(p: int, d: int, odd: int)
    requires odd % 2 == 1 && Divides(2 * p, d * odd)
    ensures d % 2 == 0 && Divides(p, d / 2 * odd)
  {
    var q := Quotient(2 * p, d * odd);
    MulAssoc(2, p, q);
    OddKeepsParity(d, odd);
    MulAssoc(2, d / 2, odd);
    DividesBy(p, d / 2 * odd, q);
  }

  lemma DoubleDivided(p: int, e: int)
    requires Divides(p, e)
    ensures Divides(2 * p, 2 * e)
  {
    var r := Quotient(p, e);
    MulAssoc(2, p, r);
    DividesBy(2 * p, 2 * e, r);
  }

  /** Solves k * odd = c modulo a power of two. */
  lemma {:induction false} Solve(odd: int, c: int, m: nat) returns (k: nat)
    requires odd % 2 == 1
    ensures k < Power(2, m) && Divides(Power(2, m), k * odd - c)
  {
    if m == 0 {
      k := 0;
      DividesBy(1, k * odd - c, k * odd - c);
    } else {
      var p := Power(2, m - 1);
      var j := Solve(odd, c, m - 1);
      var q := Quotient(p, j * odd - c);
      if q % 2 == 0 {
        k := j;
        Halve(p, q);
        DividesBy(2 * p, k * odd - c, q / 2);
      } else {
        k := j + p;
        Distribute(odd, j, p);
        Distribute(p, q, odd);
        Halve(p, q + odd);
        DividesBy(2 * p, k * odd - c, (q + odd) / 2);
      }
    }
  }

  lemma Halve(p: int, q: int)
    requires q % 2 == 0
    ensures p * q == (2 * p) * (q / 2)
  {
    MulAssoc(p, 2, q / 2);
  }
}
