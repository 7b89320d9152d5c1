/**
 Where the constants of SHA-256 come from: the fractional parts of the cube roots and
 square roots of the first primes, cut to 32 bits. And what the functions of section
 4.1.2 do to each bit.
 */
module Sha256Constants {
  import opened Primes
  import opened Sha256Spec

  // -------------------------------------------------------------------- roots

  const TWO32: nat := 0x1_0000_0000

  /** The root lies between q + k/2^32 and the next such number. */
  predicate CubeBrackets(q: nat, k: nat, p: nat) {
    var r := q * TWO32 + k;
    r * r * r <= p * 0x1_0000_0000_0000_0000_0000_0000 < (r + 1) * (r + 1) * (r + 1)
  }

  predicate SquareBrackets(q: nat, k: nat, p: nat) {
    var r := q * TWO32 + k;
    r * r <= p * 0x1_0000_0000_0000_0000 < (r + 1) * (r + 1)
  }

  lemma Constants0()
    ensures RoundConstant(0) == 0x428a2f98 && RoundConstant(1) == 0x71374491
    ensures RoundConstant(2) == 0xb5c0fbcf && RoundConstant(3) == 0xe9b5dba5
    ensures RoundConstant(4) == 0x3956c25b && RoundConstant(5) == 0x59f111f1
    ensures RoundConstant(6) == 0x923f82a4 && RoundConstant(7) == 0xab1c5ed5
  {
  }

  lemma Constants1()
    ensures RoundConstant(8) == 0xd807aa98 && RoundConstant(9) == 0x12835b01
    ensures RoundConstant(10) == 0x243185be && RoundConstant(11) == 0x550c7dc3
    ensures RoundConstant(12) == 0x72be5d74 && RoundConstant(13) == 0x80deb1fe
    ensures RoundConstant(14) == 0x9bdc06a7 && RoundConstant(15) == 0xc19bf174
  {
  }

  lemma Constants2()
    ensures RoundConstant(16) == 0xe49b69c1 && RoundConstant(17) == 0xefbe4786
    ensures RoundConstant(18) == 0x0fc19dc6 && RoundConstant(19) == 0x240ca1cc
    ensures RoundConstant(20) == 0x2de92c6f && RoundConstant(21) == 0x4a7484aa
    ensures RoundConstant(22) == 0x5cb0a9dc && RoundConstant(23) == 0x76f988da
  {
  }

  lemma Constants3()
    ensures RoundConstant(24) == 0x983e5152 && RoundConstant(25) == 0xa831c66d
    ensures RoundConstant(26) == 0xb00327c8 && RoundConstant(27) == 0xbf597fc7
    ensures RoundConstant(28) == 0xc6e00bf3 && RoundConstant(29) == 0xd5a79147
    ensures RoundConstant(30) == 0x06ca6351 && RoundConstant(31) == 0x14292967
  {
  }

  lemma Constants4()
    ensures RoundConstant(32) == 0x27b70a85 && RoundConstant(33) == 0x2e1b2138
    ensures RoundConstant(34) == 0x4d2c6dfc && RoundConstant(35) == 0x53380d13
    ensures RoundConstant(36) == 0x650a7354 && RoundConstant(37) == 0x766a0abb
    ensures RoundConstant(38) == 0x81c2c92e && RoundConstant(39) == 0x92722c85
  {
  }

  lemma Constants5()
    ensures RoundConstant(40) == 0xa2bfe8a1 && RoundConstant(41) == 0xa81a664b
    ensures RoundConstant(42) == 0xc24b8b70 && RoundConstant(43) == 0xc76c51a3
    ensures RoundConstant(44) == 0xd192e819 && RoundConstant(45) == 0xd6990624
    ensures RoundConstant(46) == 0xf40e3585 && RoundConstant(47) == 0x106aa070
  {
  }

  lemma Constants6()
    ensures RoundConstant(48) == 0x19a4c116 && RoundConstant(49) == 0x1e376c08
    ensures RoundConstant(50) == 0x2748774c && RoundConstant(51) == 0x34b0bcb5
    ensures RoundConstant(52) == 0x391c0cb3 && RoundConstant(53) == 0x4ed8aa4a
    ensures RoundConstant(54) == 0x5b9cca4f && RoundConstant(55) == 0x682e6ff3
  {
  }

  lemma Constants7()
    ensures RoundConstant(56) == 0x748f82ee && RoundConstant(57) == 0x78a5636f
    ensures RoundConstant(58) == 0x84c87814 && RoundConstant(59) == 0x8cc70208
    ensures RoundConstant(60) == 0x90befffa && RoundConstant(61) == 0xa4506ceb
    ensures RoundConstant(62) == 0xbef9a3f7 && RoundConstant(63) == 0xc67178f2
  {
  }

  lemma Roots0(t: nat) returns (q: nat)
    requires 0 <= t < 8
    ensures CubeBrackets(q, RoundConstant(t) as nat, Prime(t))
  {
    Constants0();
    hide RoundConstant;
    match t
    case 0 => q := 1;
    case 1 => q := 1;
    case 2 => q := 1;
    case 3 => q := 1;
    case 4 => q := 2;
    case 5 => q := 2;
    case 6 => q := 2;
    case _ => q := 2;
  }

  lemma Roots1(t: nat) returns (q: nat)
    requires 8 <= t < 16
    ensures CubeBrackets(q, RoundConstant(t) as nat, Prime(t))
  {
    Constants1();
    hide RoundConstant;
    match t
    case 8 => q := 2;
    case 9 => q := 3;
    case 10 => q := 3;
    case 11 => q := 3;
    case 12 => q := 3;
    case 13 => q := 3;
    case 14 => q := 3;
    case _ => q := 3;
  }

  lemma Roots2(t: nat) returns (q: nat)
    requires 16 <= t < 24
    ensures CubeBrackets(q, RoundConstant(t) as nat, Prime(t))
  {
    Constants2();
    hide RoundConstant;
    match t
    case 16 => q := 3;
    case 17 => q := 3;
    case 18 => q := 4;
    case 19 => q := 4;
    case 20 => q := 4;
    case 21 => q := 4;
    case 22 => q := 4;
    case _ => q := 4;
  }

  lemma Roots3(t: nat) returns (q: nat)
    requires 24 <= t < 32
    ensures CubeBrackets(q, RoundConstant(t) as nat, Prime(t))
  {
    Constants3();
    hide RoundConstant;
    match t
    case 24 => q := 4;
    case 25 => q := 4;
    case 26 => q := 4;
    case 27 => q := 4;
    case 28 => q := 4;
    case 29 => q := 4;
    case 30 => q := 5;
    case _ => q := 5;
  }

  lemma Roots4(t: nat) returns (q: nat)
    requires 32 <= t < 40
    ensures CubeBrackets(q, RoundConstant(t) as nat, Prime(t))
  {
    Constants4();
    hide RoundConstant;
    match t
    case 32 => q := 5;
    case 33 => q := 5;
    case 34 => q := 5;
    case 35 => q := 5;
    case 36 => q := 5;
    case 37 => q := 5;
    case 38 => q := 5;
    case _ => q := 5;
  }

  lemma Roots5(t: nat) returns (q: nat)
    requires 40 <= t < 48
    ensures CubeBrackets(q, RoundConstant(t) as nat, Prime(t))
  {
    Constants5();
    hide RoundConstant;
    match t
    case 40 => q := 5;
    case 41 => q := 5;
    case 42 => q := 5;
    case 43 => q := 5;
    case 44 => q := 5;
    case 45 => q := 5;
    case 46 => q := 5;
    case _ => q := 6;
  }

  lemma Roots6(t: nat) returns (q: nat)
    requires 48 <= t < 56
    ensures CubeBrackets(q, RoundConstant(t) as nat, Prime(t))
  {
    Constants6();
    hide RoundConstant;
    match t
    case 48 => q := 6;
    case 49 => q := 6;
    case 50 => q := 6;
    case 51 => q := 6;
    case 52 => q := 6;
    case 53 => q := 6;
    case 54 => q := 6;
    case _ => q := 6;
  }

  lemma Roots7(t: nat) returns (q: nat)
    requires 56 <= t < 64
    ensures CubeBrackets(q, RoundConstant(t) as nat, Prime(t))
  {
    Constants7();
    hide RoundConstant;
    match t
    case 56 => q := 6;
    case 57 => q := 6;
    case 58 => q := 6;
    case 59 => q := 6;
    case 60 => q := 6;
    case 61 => q := 6;
    case 62 => q := 6;
    case _ => q := 6;
  }

  /**
   Section 4.2.2: constant t is the first 32 bits of the fractional part of the cube
   root of the t-th prime.
   */
  lemma RoundConstantsAreCubeRoots(t: nat) returns (q: nat)
    requires t < 64
    ensures CubeBrackets(q, RoundConstant(t) as nat, Prime(t))
  {
    hide RoundConstant, Prime, CubeBrackets;
    match t / 8
    case 0 => q := Roots0(t);
    case 1 => q := Roots1(t);
    case 2 => q := Roots2(t);
    case 3 => q := Roots3(t);
    case 4 => q := Roots4(t);
    case 5 => q := Roots5(t);
    case 6 => q := Roots6(t);
    case _ => q := Roots7(t);
  }

  /** Section 5.3.3: the initial hash value, likewise from the square roots of the first eight primes. */
  lemma InitialValueIsSquareRoots(t: nat) returns (q: nat)
    requires t < 8
    ensures SquareBrackets(q, Words(IV)[t] as nat, Prime(t))
  {
    match t
    case 0 => q := 1;
    case 1 => q := 1;
    case 2 => q := 2;
    case 3 => q := 2;
    case 4 => q := 3;
    case 5 => q := 3;
    case 6 => q := 4;
    case _ => q := 4;
  }

  // ---------------------------------------------------------------------- bits

  function Halved(x: Word): Word {
    x >> 1
  }

  predicate Odd(x: Word) {
    x & 1 == 1
  }

  /** Bit i, the lowest being bit 0. */
  predicate Bit(x: Word, i: nat) {
    if i == 0 then Odd(x) else Bit(Halved(x), i - 1)
  }

  lemma LowBit(x: Word, y: Word, z: Word)
    ensures Odd(Ch(x, y, z)) <==> if Odd(x) then Odd(y) else Odd(z)
    ensures Odd(Maj(x, y, z)) <==> (Odd(x) && Odd(y)) || (Odd(x) && Odd(z)) || (Odd(y) && Odd(z))
    ensures Odd(Xor3(x, y, z)) <==> ((Odd(x) != Odd(y)) != Odd(z))
  {
  }

  lemma HalvedCh(x: Word, y: Word, z: Word)
    ensures Halved(Ch(x, y, z)) == Ch(Halved(x), Halved(y), Halved(z))
  {
  }

  lemma HalvedMaj(x: Word, y: Word, z: Word)
    ensures Halved(Maj(x, y, z)) == Maj(Halved(x), Halved(y), Halved(z))
  {
  }

  lemma HalvedXor3(x: Word, y: Word, z: Word)
    ensures Halved(Xor3(x, y, z)) == Xor3(Halved(x), Halved(y), Halved(z))
  {
  }

  /** Bit by bit: x chooses between y and z; the majority of the three; their parity. */
  lemma {:induction false} BitByBit(x: Word, y: Word, z: Word, i: nat)
    ensures Bit(Ch(x, y, z), i) <==> if Bit(x, i) then Bit(y, i) else Bit(z, i)
    ensures Bit(Maj(x, y, z), i)
       <==> (Bit(x, i) && Bit(y, i)) || (Bit(x, i) && Bit(z, i)) || (Bit(y, i) && Bit(z, i))
    ensures Bit(Xor3(x, y, z), i) <==> ((Bit(x, i) != Bit(y, i)) != Bit(z, i))
    decreases i
  {
    LowBit(x, y, z);
    HalvedCh(x, y, z);
    HalvedMaj(x, y, z);
    HalvedXor3(x, y, z);
    hide Odd, Halved, Ch, Maj, Xor3;
    if i > 0 {
      BitByBit(Halved(x), Halved(y), Halved(z), i - 1);
    }
  }

  /** The 32 bits make the word: no other word has the same ones. */
  lemma BitsAreTheWord(x: Word, y: Word)
    ensures x == y <==> SameBits(x, y, 32)
  {
    hide Bit;
    if SameBits(x, y, 32) {
      NothingIsLeft(x);
      NothingIsLeft(y);
      BitsDecide(x, y, 32);
    }
  }

  predicate SameBits(x: Word, y: Word, n: nat) {
    forall i :: 0 <= i < n ==> Bit(x, i) == Bit(y, i)
  }

  function Shifted(x: Word, n: nat): Word {
    if n == 0 then x else Shifted(Halved(x), n - 1)
  }

  lemma HalfAndBit(x: Word, y: Word)
    ensures x == y <==> Halved(x) == Halved(y) && Odd(x) == Odd(y)
  {
  }

  lemma {:induction false} BitsDecide(x: Word, y: Word, n: nat)
    requires n <= 32 && Shifted(x, n) == Shifted(y, n) && SameBits(x, y, n)
    ensures x == y
    decreases n
  {
    hide Halved, Odd;
    if n > 0 {
      forall i | 0 <= i < n - 1 ensures Bit(Halved(x), i) == Bit(Halved(y), i) {
        assert Bit(x, i + 1) == Bit(y, i + 1);
      }
      BitsDecide(Halved(x), Halved(y), n - 1);
      assert Bit(x, 0) == Bit(y, 0);
      HalfAndBit(x, y);
    }
  }

  function ByteDropped(x: Word): Word {
    x >> 8
  }

  lemma ByteShifted(x: Word)
    ensures Shifted(x, 8) == ByteDropped(x)
  {
    var a, b, c, d := Halved(x), Halved(Halved(x)), Halved(Halved(Halved(x))), Halved(Halved(Halved(Halved(x))));
    var e, f, g := Halved(d), Halved(Halved(d)), Halved(Halved(Halved(d)));
    assert Shifted(x, 8) == Shifted(a, 7) == Shifted(b, 6) == Shifted(c, 5) == Shifted(d, 4);
    assert Shifted(d, 4) == Shifted(e, 3) == Shifted(f, 2) == Shifted(g, 1) == Halved(g);
  }

  lemma {:induction false} ShiftedMore(x: Word, m: nat, n: nat)
    ensures Shifted(x, m + n) == Shifted(Shifted(x, m), n)
    decreases m
  {
    hide Halved;
    if m > 0 {
      ShiftedMore(Halved(x), m - 1, n);
    }
  }

  lemma NothingIsLeft(x: Word)
    ensures Shifted(x, 32) == 0
  {
    FourBytes(x);
    hide ByteDropped, Shifted;
    var a := ByteDropped(x);
    var b := ByteDropped(a);
    ByteShifted(x);
    ByteShifted(a);
    ByteShifted(b);
    ByteShifted(ByteDropped(b));
    ShiftedMore(x, 8, 24);
    ShiftedMore(a, 8, 16);
    ShiftedMore(b, 8, 8);
  }

  lemma FourBytes(x: Word)
    ensures ByteDropped(ByteDropped(ByteDropped(ByteDropped(x)))) == 0
  {
  }

}
