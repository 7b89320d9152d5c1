/**
 FIPS 180-4 SHA-256 over bytes (sections 4.1.2, 4.2.2, 5.1.1, 5.2.1, 5.3.3 and
 6.2.2): the functions the standard defines.
 */
module Sha256Spec {
  import opened Octets

  type Word = bv32
  type Byte = bv8

  /** The eight working variables, and the eight words of a hash value. */
  datatype Regs = Regs(a: Word, b: Word, c: Word, d: Word, e: Word, f: Word, g: Word, h: Word)

  // Section 5.3.3
  const IV := Regs(0x6a09e667, 0xbb67ae85, 0x3c6ef372, 0xa54ff53a,
                   0x510e527f, 0x9b05688c, 0x1f83d9ab, 0x5be0cd19)

  // Section 4.2.2
  function ConstantRow(i: nat): (r: seq<Word>)
    ensures |r| == 8
  {
    match i
    case 0 => [0x428a2f98, 0x71374491, 0xb5c0fbcf, 0xe9b5dba5, 0x3956c25b, 0x59f111f1, 0x923f82a4, 0xab1c5ed5]
    case 1 => [0xd807aa98, 0x12835b01, 0x243185be, 0x550c7dc3, 0x72be5d74, 0x80deb1fe, 0x9bdc06a7, 0xc19bf174]
    case 2 => [0xe49b69c1, 0xefbe4786, 0x0fc19dc6, 0x240ca1cc, 0x2de92c6f, 0x4a7484aa, 0x5cb0a9dc, 0x76f988da]
    case 3 => [0x983e5152, 0xa831c66d, 0xb00327c8, 0xbf597fc7, 0xc6e00bf3, 0xd5a79147, 0x06ca6351, 0x14292967]
    case 4 => [0x27b70a85, 0x2e1b2138, 0x4d2c6dfc, 0x53380d13, 0x650a7354, 0x766a0abb, 0x81c2c92e, 0x92722c85]
    case 5 => [0xa2bfe8a1, 0xa81a664b, 0xc24b8b70, 0xc76c51a3, 0xd192e819, 0xd6990624, 0xf40e3585, 0x106aa070]
    case 6 => [0x19a4c116, 0x1e376c08, 0x2748774c, 0x34b0bcb5, 0x391c0cb3, 0x4ed8aa4a, 0x5b9cca4f, 0x682e6ff3]
    case _ => [0x748f82ee, 0x78a5636f, 0x84c87814, 0x8cc70208, 0x90befffa, 0xa4506ceb, 0xbef9a3f7, 0xc67178f2]
  }

  function RoundConstant(t: nat): Word
    requires t < 64
  {
    ConstantRow(t / 8)[t % 8]
  }

  // Addition of words is modulo 2^32 (section 3.2).
  function Plus(x: Word, y: Word): Word { x + y }
  function Sum4(a: Word, b: Word, c: Word, d: Word): Word { a + b + c + d }
  function Sum5(a: Word, b: Word, c: Word, d: Word, e: Word): Word { a + b + c + d + e }

  // Section 4.1.2
  function Ch(x: Word, y: Word, z: Word): Word { (x & y) ^ (!x & z) }
  function Maj(x: Word, y: Word, z: Word): Word { (x & y) ^ (x & z) ^ (y & z) }
  function Xor3(x: Word, y: Word, z: Word): Word { x ^ y ^ z }
  function BigSigma0(x: Word): Word { Xor3(x.RotateRight(2), x.RotateRight(13), x.RotateRight(22)) }
  function BigSigma1(x: Word): Word { Xor3(x.RotateRight(6), x.RotateRight(11), x.RotateRight(25)) }
  function SmallSigma0(x: Word): Word { Xor3(x.RotateRight(7), x.RotateRight(18), x >> 3) }
  function SmallSigma1(x: Word): Word { Xor3(x.RotateRight(17), x.RotateRight(19), x >> 10) }

  /** Section 5.2.1: four bytes, most significant first. */
  function BigEndian(b0: Byte, b1: Byte, b2: Byte, b3: Byte): Word {
    0x100_0000 * (b0 as Word) + 0x1_0000 * (b1 as Word) + 0x100 * (b2 as Word) + (b3 as Word)
  }

  /** Section 6.2.2, step 1: the message schedule of a block. */
  function W(m: seq<Byte>, t: nat): Word
    requires |m| == 64 && t < 64
  {
    if t < 16 then BigEndian(m[4 * t], m[4 * t + 1], m[4 * t + 2], m[4 * t + 3])
    else Sum4(SmallSigma1(W(m, t - 2)), W(m, t - 7), SmallSigma0(W(m, t - 15)), W(m, t - 16))
  }

  /** Step 3: one round. */
  function Round(r: Regs, k: Word, w: Word): Regs {
    var t1 := Sum5(r.h, BigSigma1(r.e), Ch(r.e, r.f, r.g), k, w);
    var t2 := Plus(BigSigma0(r.a), Maj(r.a, r.b, r.c));
    Regs(Plus(t1, t2), r.a, r.b, r.c, Plus(r.d, t1), r.e, r.f, r.g)
  }

  function Rounds(r: Regs, m: seq<Byte>, n: nat): Regs
    requires |m| == 64 && n <= 64
  {
    if n == 0 then r else Round(Rounds(r, m, n - 1), RoundConstant(n - 1), W(m, n - 1))
  }

  function Add(x: Regs, y: Regs): Regs {
    Regs(Plus(x.a, y.a), Plus(x.b, y.b), Plus(x.c, y.c), Plus(x.d, y.d),
         Plus(x.e, y.e), Plus(x.f, y.f), Plus(x.g, y.g), Plus(x.h, y.h))
  }

  /** Steps 2 to 4: the hash value after one more block. */
  function Compress(hash: Regs, m: seq<Byte>): Regs
    requires |m| == 64
  {
    Add(hash, Rounds(hash, m, 64))
  }

  function HashBlocks(hash: Regs, m: seq<Byte>): Regs
    requires |m| % 64 == 0
    decreases |m|
  {
    if m == [] then hash else HashBlocks(Compress(hash, m[..64]), m[64..])
  }

  // ------------------------------------------------- section 5.1.1: padding

  function Zeros(k: nat): seq<Byte> {
    seq(k, i => 0)
  }

  /** Zero bytes after the 0x80 byte. */
  function ZeroCount(l: nat): nat {
    (55 - l) % 64
  }

  /** n shifted right by k bytes. */
  function ShiftBytes(n: nat, k: nat): nat {
    if k == 0 then n else ShiftBytes(n / 256, k - 1)
  }

  /** Byte i of the 8-byte big-endian form of n. */
  function LengthByte(n: nat, i: nat): Byte
    requires i < 8
  {
    Octet(ShiftBytes(n, 7 - i) % 256)
  }

  function BigEndian64(n: nat): seq<Byte> {
    seq(8, i requires 0 <= i < 8 => LengthByte(n, i))
  }

  /** The bit length, as a 64-bit unsigned product. */
  function BitLength(l: nat): nat {
    l * 8 % 0x1_0000_0000_0000_0000
  }

  function Pad(m: seq<Byte>): seq<Byte> {
    m + [0x80] + Zeros(ZeroCount(|m|)) + BigEndian64(BitLength(|m|))
  }

  lemma PadIsBlocks(m: seq<Byte>)
    ensures |Pad(m)| % 64 == 0
  {
  }

  // ---------------------------------------------------------------- the digest

  /** Byte k of a word, most significant first. */
  function ByteOf(w: Word, k: nat): Byte
    requires k < 4
  {
    match k
    case 0 => (w >> 24) as Byte
    case 1 => ((w >> 16) & 0xff) as Byte
    case 2 => ((w >> 8) & 0xff) as Byte
    case 3 => (w & 0xff) as Byte
  }

  function Words(r: Regs): seq<Word> {
    [r.a, r.b, r.c, r.d, r.e, r.f, r.g, r.h]
  }

  function DigestOf(r: Regs): (d: seq<Byte>)
    ensures |d| == 32
  {
    seq(32, i requires 0 <= i < 32 => ByteOf(Words(r)[i / 4], i % 4))
  }

  function Sha256(m: seq<Byte>): (d: seq<Byte>)
    ensures |d| == 32
  {
    PadIsBlocks(m);
    DigestOf(HashBlocks(IV, Pad(m)))
  }

  /** A word is recovered from its bytes. */
  lemma WordFromBytes(w: Word)
    ensures BigEndian(ByteOf(w, 0), ByteOf(w, 1), ByteOf(w, 2), ByteOf(w, 3)) == w
  {
  }

  function WordAt(d: seq<Byte>, k: nat): Word
    requires |d| == 32 && k < 8
  {
    BigEndian(d[4 * k], d[4 * k + 1], d[4 * k + 2], d[4 * k + 3])
  }

  /** The digest loses nothing of the final hash value. */
  lemma DigestFaithful(r: Regs)
    ensures var d := DigestOf(r);
            r == Regs(WordAt(d, 0), WordAt(d, 1), WordAt(d, 2), WordAt(d, 3),
                      WordAt(d, 4), WordAt(d, 5), WordAt(d, 6), WordAt(d, 7))
  {
    DigestWord(r, 0);
    DigestWord(r, 1);
    DigestWord(r, 2);
    DigestWord(r, 3);
    DigestWord(r, 4);
    DigestWord(r, 5);
    DigestWord(r, 6);
    DigestWord(r, 7);
    hide DigestOf, WordAt;
  }

  lemma DigestWord(r: Regs, k: nat)
    requires k < 8
    ensures WordAt(DigestOf(r), k) == Words(r)[k]
  {
    var w := Words(r)[k];
    hide BigEndian, ByteOf, Words;
    WordFromBytes(w);
    assert (4 * k) / 4 == k && (4 * k + 1) / 4 == k && (4 * k + 2) / 4 == k && (4 * k + 3) / 4 == k;
  }
}
