/** The first 64 primes, which the constants of SHA-256 are drawn from. */
module Primes {
  import opened Divisibility

  predicate IsPrime(n: nat) {
    n >= 2 && forall d :: 2 <= d < n ==> n % d != 0
  }

  function PrimeRow(i: nat): (r: seq<nat>)
    ensures |r| == 8
  {
    match i
    case 0 => [2, 3, 5, 7, 11, 13, 17, 19]
    case 1 => [23, 29, 31, 37, 41, 43, 47, 53]
    case 2 => [59, 61, 67, 71, 73, 79, 83, 89]
    case 3 => [97, 101, 103, 107, 109, 113, 127, 131]
    case 4 => [137, 139, 149, 151, 157, 163, 167, 173]
    case 5 => [179, 181, 191, 193, 197, 199, 211, 223]
    case 6 => [227, 229, 233, 239, 241, 251, 257, 263]
    case _ => [269, 271, 277, 281, 283, 293, 307, 311]
  }

  /** The t-th prime, counting from zero. */
  function Prime(t: nat): nat
    requires t < 64
  {
    PrimeRow(t / 8)[t % 8]
  }

  /** No prime up to 17 divides n, unless it is n. */
  predicate Sieved(n: nat) {
    && n >= 2 && Misses(n, 2) && Misses(n, 3) && Misses(n, 5) && Misses(n, 7)
    && Misses(n, 11) && Misses(n, 13) && Misses(n, 17)
  }

  predicate Misses(n: nat, f: nat)
    requires f > 0
  {
    n % f != 0 || n == f
  }

  /** A factor f of a factor e of n divides n. */
  lemma FactorOfFactor(n: nat, e: nat, q: nat, f: nat)
    requires n == e * q && f > 0 && e % f == 0
    ensures n % f == 0
  {
    MulAssoc(f, e / f, q);
    RemainderIs(n, f, e / f * q, 0);
  }

  /** Every number from 2 to 18 has one of the seven primes as a factor. */
  lemma SmallFactor(e: nat) returns (f: nat)
    requires 2 <= e <= 18
    ensures f == 2 || f == 3 || f == 5 || f == 7 || f == 11 || f == 13 || f == 17
    ensures f <= e && e % f == 0
  {
    f := if e % 2 == 0 then 2 else if e % 3 == 0 then 3 else if e % 5 == 0 then 5 else e;
  }

  lemma SmallSide(n: nat, d: nat, q: nat)
    requires n == d * q && n < 361
    ensures d <= 18 || q <= 18
  {
    if d >= 19 && q >= 19 {
      Product(19, d, 19, q);
    }
  }

  /** Below 19 squared the sieve decides. */
  lemma SievedIffPrime(n: nat)
    requires n < 361
    ensures Sieved(n) <==> IsPrime(n)
  {
    if Sieved(n) {
      forall d | 2 <= d < n ensures n % d != 0 {
        if n % d == 0 {
          FactorShows(n, d, n / d);
        }
      }
    }
  }

  lemma FactorShows(n: nat, d: nat, q: nat)
    requires n < 361 && n == d * q && 2 <= d < n
    ensures !Sieved(n)
  {
    Cofactor(n, d, q);
    SmallSide(n, d, q);
    var e, o := if d <= 18 then d else q, if d <= 18 then q else d;
    var f := SmallFactor(e);
    FactorOfFactor(n, e, o, f);
  }

  lemma Cofactor(n: nat, d: nat, q: nat)
    requires n == d * q && 2 <= d < n
    ensures 2 <= q < n
  {
    if q >= n {
      Product(2, d, n, q);
    }
  }

  lemma Product(a: nat, d: nat, b: nat, q: nat)
    requires a <= d && b <= q
    ensures d * q >= a * b
  {
    assert d * q == a * q + (d - a) * q;
    assert a * q == a * b + a * (q - b);
  }

  lemma Stretch0(n: nat)
    requires 0 <= n <= 31
    ensures Sieved(n)
       <==> || n == 2 || n == 3 || n == 5 || n == 7 || n == 11 || n == 13
            || n == 17 || n == 19 || n == 23 || n == 29 || n == 31
  {
    match n - 0
    case 0 => case 1 => case 2 => case 3 => case 4 => case 5 => case 6 => case 7 =>
    case 8 => case 9 => case 10 => case 11 => case 12 => case 13 => case 14 => case 15 =>
    case 16 => case 17 => case 18 => case 19 => case 20 => case 21 => case 22 => case 23 =>
    case 24 => case 25 => case 26 => case 27 => case 28 => case 29 => case 30 => case _ =>
  }

  lemma Stretch1(n: nat)
    requires 32 <= n <= 63
    ensures Sieved(n) <==> n == 37 || n == 41 || n == 43 || n == 47 || n == 53 || n == 59 || n == 61
  {
    match n - 32
    case 0 => case 1 => case 2 => case 3 => case 4 => case 5 => case 6 => case 7 =>
    case 8 => case 9 => case 10 => case 11 => case 12 => case 13 => case 14 => case 15 =>
    case 16 => case 17 => case 18 => case 19 => case 20 => case 21 => case 22 => case 23 =>
    case 24 => case 25 => case 26 => case 27 => case 28 => case 29 => case 30 => case _ =>
  }

  lemma Stretch2(n: nat)
    requires 64 <= n <= 95
    ensures Sieved(n) <==> n == 67 || n == 71 || n == 73 || n == 79 || n == 83 || n == 89
  {
    match n - 64
    case 0 => case 1 => case 2 => case 3 => case 4 => case 5 => case 6 => case 7 =>
    case 8 => case 9 => case 10 => case 11 => case 12 => case 13 => case 14 => case 15 =>
    case 16 => case 17 => case 18 => case 19 => case 20 => case 21 => case 22 => case 23 =>
    case 24 => case 25 => case 26 => case 27 => case 28 => case 29 => case 30 => case _ =>
  }

  lemma Stretch3(n: nat)
    requires 96 <= n <= 127
    ensures Sieved(n) <==> n == 97 || n == 101 || n == 103 || n == 107 || n == 109 || n == 113 || n == 127
  {
    match n - 96
    case 0 => case 1 => case 2 => case 3 => case 4 => case 5 => case 6 => case 7 =>
    case 8 => case 9 => case 10 => case 11 => case 12 => case 13 => case 14 => case 15 =>
    case 16 => case 17 => case 18 => case 19 => case 20 => case 21 => case 22 => case 23 =>
    case 24 => case 25 => case 26 => case 27 => case 28 => case 29 => case 30 => case _ =>
  }

  lemma Stretch4(n: nat)
    requires 128 <= n <= 159
    ensures Sieved(n) <==> n == 131 || n == 137 || n == 139 || n == 149 || n == 151 || n == 157
  {
    match n - 128
    case 0 => case 1 => case 2 => case 3 => case 4 => case 5 => case 6 => case 7 =>
    case 8 => case 9 => case 10 => case 11 => case 12 => case 13 => case 14 => case 15 =>
    case 16 => case 17 => case 18 => case 19 => case 20 => case 21 => case 22 => case 23 =>
    case 24 => case 25 => case 26 => case 27 => case 28 => case 29 => case 30 => case _ =>
  }

  lemma Stretch5(n: nat)
    requires 160 <= n <= 191
    ensures Sieved(n) <==> n == 163 || n == 167 || n == 173 || n == 179 || n == 181 || n == 191
  {
    match n - 160
    case 0 => case 1 => case 2 => case 3 => case 4 => case 5 => case 6 => case 7 =>
    case 8 => case 9 => case 10 => case 11 => case 12 => case 13 => case 14 => case 15 =>
    case 16 => case 17 => case 18 => case 19 => case 20 => case 21 => case 22 => case 23 =>
    case 24 => case 25 => case 26 => case 27 => case 28 => case 29 => case 30 => case _ =>
  }

  lemma Stretch6(n: nat)
    requires 192 <= n <= 223
    ensures Sieved(n) <==> n == 193 || n == 197 || n == 199 || n == 211 || n == 223
  {
    match n - 192
    case 0 => case 1 => case 2 => case 3 => case 4 => case 5 => case 6 => case 7 =>
    case 8 => case 9 => case 10 => case 11 => case 12 => case 13 => case 14 => case 15 =>
    case 16 => case 17 => case 18 => case 19 => case 20 => case 21 => case 22 => case 23 =>
    case 24 => case 25 => case 26 => case 27 => case 28 => case 29 => case 30 => case _ =>
  }

  lemma Stretch7(n: nat)
    requires 224 <= n <= 255
    ensures Sieved(n) <==> n == 227 || n == 229 || n == 233 || n == 239 || n == 241 || n == 251
  {
    match n - 224
    case 0 => case 1 => case 2 => case 3 => case 4 => case 5 => case 6 => case 7 =>
    case 8 => case 9 => case 10 => case 11 => case 12 => case 13 => case 14 => case 15 =>
    case 16 => case 17 => case 18 => case 19 => case 20 => case 21 => case 22 => case 23 =>
    case 24 => case 25 => case 26 => case 27 => case 28 => case 29 => case 30 => case _ =>
  }

  lemma Stretch8(n: nat)
    requires 256 <= n <= 287
    ensures Sieved(n) <==> n == 257 || n == 263 || n == 269 || n == 271 || n == 277 || n == 281 || n == 283
  {
    match n - 256
    case 0 => case 1 => case 2 => case 3 => case 4 => case 5 => case 6 => case 7 =>
    case 8 => case 9 => case 10 => case 11 => case 12 => case 13 => case 14 => case 15 =>
    case 16 => case 17 => case 18 => case 19 => case 20 => case 21 => case 22 => case 23 =>
    case 24 => case 25 => case 26 => case 27 => case 28 => case 29 => case 30 => case _ =>
  }

  lemma Stretch9(n: nat)
    requires 288 <= n <= 311
    ensures Sieved(n) <==> n == 293 || n == 307 || n == 311
  {
    match n - 288
    case 0 => case 1 => case 2 => case 3 => case 4 => case 5 => case 6 => case 7 =>
    case 8 => case 9 => case 10 => case 11 => case 12 => case 13 => case 14 => case 15 =>
    case 16 => case 17 => case 18 => case 19 => case 20 => case 21 => case 22 => case 23 =>
    case 24 => case 25 => case 26 => case 27 => case 28 => case 29 => case 30 => case _ =>
  }

  /** The row a number up to 311 is looked for in. */
  function RowOf(n: nat): nat {
    if n <= 19 then 0 else if n <= 53 then 1 else if n <= 89 then 2 else if n <= 131 then 3
    else if n <= 173 then 4 else if n <= 223 then 5 else if n <= 263 then 6 else 7
  }

  lemma InItsRow(n: nat)
    requires n <= 311
    ensures Sieved(n) <==> n in PrimeRow(RowOf(n))
  {
    InItsStretch(n);
    hide Sieved;
  }

  lemma InItsStretch(n: nat)
    requires n <= 311
    ensures var r := PrimeRow(RowOf(n));
            Sieved(n) <==> n == r[0] || n == r[1] || n == r[2] || n == r[3]
                           || n == r[4] || n == r[5] || n == r[6] || n == r[7]
  {
    hide Sieved;
    if n <= 31 {
      Stretch0(n);
    } else if n <= 63 {
      Stretch1(n);
    } else if n <= 95 {
      Stretch2(n);
    } else if n <= 127 {
      Stretch3(n);
    } else if n <= 159 {
      Stretch4(n);
    } else if n <= 191 {
      Stretch5(n);
    } else if n <= 223 {
      Stretch6(n);
    } else if n <= 255 {
      Stretch7(n);
    } else if n <= 287 {
      Stretch8(n);
    } else {
      Stretch9(n);
    }
  }

  lemma InRange(t: nat)
    requires t < 64
    ensures Prime(t) <= 311 && RowOf(Prime(t)) == t / 8
  {
    var row, j := PrimeRow(t / 8), t % 8;
    assert row[0] < row[1] < row[2] < row[3] < row[4] < row[5] < row[6] < row[7];
  }

  lemma PrimeIsPrime(t: nat)
    requires t < 64
    ensures IsPrime(Prime(t))
  {
    InRange(t);
    hide PrimeRow, Sieved, IsPrime;
    InItsRow(Prime(t));
    SievedIffPrime(Prime(t));
  }

  /**
   Prime(0), Prime(1), ... are all the primes up to 311, in order: so the t-th of them
   is the t-th prime.
   */
  lemma PrimesAreTheFirst()
    ensures forall t: nat :: t < 64 ==> IsPrime(Prime(t))
    ensures forall t: nat :: t < 63 ==> Prime(t) < Prime(t + 1)
    ensures forall n: nat :: n <= 311 && IsPrime(n) ==> exists t: nat :: t < 64 && Prime(t) == n
  {
    forall t: nat | t < 64 ensures IsPrime(Prime(t)) {
      PrimeIsPrime(t);
    }
    forall t: nat | t < 63 ensures Prime(t) < Prime(t + 1) {
      NextIsLarger(t);
    }
    hide PrimeRow, Sieved, IsPrime;
    forall n: nat | n <= 311 && IsPrime(n) ensures exists t: nat :: t < 64 && Prime(t) == n {
      var t := Index(n);
    }
  }

  lemma Index(n: nat) returns (t: nat)
    requires n <= 311 && IsPrime(n)
    ensures t < 64 && Prime(t) == n
  {
    hide PrimeRow, Sieved, IsPrime;
    SievedIffPrime(n);
    InItsRow(n);
    var j :| 0 <= j < 8 && PrimeRow(RowOf(n))[j] == n;
    t := 8 * RowOf(n) + j;
  }

  lemma NextIsLarger(t: nat)
    requires t < 63
    ensures Prime(t) < Prime(t + 1)
  {
    var row, j := PrimeRow(t / 8), t % 8;
    assert row[0] < row[1] < row[2] < row[3] < row[4] < row[5] < row[6] < row[7];
    if j == 7 {
      assert (t + 1) / 8 == t / 8 + 1 && (t + 1) % 8 == 0;
      RowsAscend(t / 8);
    }
  }

  lemma RowsAscend(i: nat)
    requires i < 7
    ensures PrimeRow(i)[7] < PrimeRow(i + 1)[0]
  {
  }
}
