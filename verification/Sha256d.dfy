/**
 hash::Sha256dAlgorithm: the streaming, in-place SHA-256 and the double hash over
 a reused scratch buffer, refining the functions of Sha256Spec.
 */
module Sha256d {
  import opened Divisibility
  import opened Octets
  import opened Sha256Spec

  // ------------------------------------------------- the code's word operations

  function Rotr(x: Word, n: nat): Word
    requires 0 < n < 32
  {
    (x >> n) | (x << (32 - n))
  }

  lemma RotrRotates(x: Word)
    ensures Rotr(x, 2) == x.RotateRight(2) && Rotr(x, 13) == x.RotateRight(13) && Rotr(x, 22) == x.RotateRight(22)
    ensures Rotr(x, 6) == x.RotateRight(6) && Rotr(x, 11) == x.RotateRight(11) && Rotr(x, 25) == x.RotateRight(25)
    ensures Rotr(x, 7) == x.RotateRight(7) && Rotr(x, 18) == x.RotateRight(18)
    ensures Rotr(x, 17) == x.RotateRight(17) && Rotr(x, 19) == x.RotateRight(19)
  {
  }

  function ScheduleS0(x: Word): Word { Xor3(Rotr(x, 7), Rotr(x, 18), x >> 3) }
  function ScheduleS1(x: Word): Word { Xor3(Rotr(x, 17), Rotr(x, 19), x >> 10) }
  function RoundS0(x: Word): Word { Xor3(Rotr(x, 2), Rotr(x, 13), Rotr(x, 22)) }
  function RoundS1(x: Word): Word { Xor3(Rotr(x, 6), Rotr(x, 11), Rotr(x, 25)) }

  /** The shift-and-or rotations compute the four functions of section 4.1.2. */
  lemma SigmasAgree(x: Word)
    ensures ScheduleS0(x) == SmallSigma0(x) && ScheduleS1(x) == SmallSigma1(x)
    ensures RoundS0(x) == BigSigma0(x) && RoundS1(x) == BigSigma1(x)
  {
    RotrRotates(x);
    hide Rotr, Xor3;
  }

  function ShiftTogether(b0: Byte, b1: Byte, b2: Byte, b3: Byte): (w: Word)
    ensures w == BigEndian(b0, b1, b2, b3)
  {
    ((b0 as Word) << 24) | ((b1 as Word) << 16) | ((b2 as Word) << 8) | (b3 as Word)
  }

  lemma Reorder(a: Word, b: Word, c: Word, d: Word)
    ensures Sum4(a, b, c, d) == Sum4(d, c, b, a)
  {
  }

  function Load(h: seq<Word>): Regs
    requires |h| == 8
  {
    Regs(h[0], h[1], h[2], h[3], h[4], h[5], h[6], h[7])
  }

  // ------------------------------------------------------------- processBlock

  /** The loop that reads the first sixteen words. */
  method ReadWords(data: array<Byte>, offset: nat) returns (w: array<Word>)
    requires offset + 64 <= data.Length
    ensures fresh(w) && w.Length == 64
    ensures forall t :: 0 <= t < 16 ==> w[t] == W(data[offset..offset + 64], t)
  {
    hide BigEndian, ShiftTogether, Sum4, SmallSigma0, SmallSigma1;
    ghost var m := data[offset..offset + 64];
    w := new Word[64];
    for i := 0 to 16
      invariant forall t :: 0 <= t < i ==> w[t] == W(m, t)
    {
      var p := offset + i * 4;
      w[i] := ShiftTogether(data[p], data[p + 1], data[p + 2], data[p + 3]);
    }
  }

  /** The loop that extends them to sixty-four. */
  method ExtendWords(w: array<Word>, ghost m: seq<Byte>)
    requires w.Length == 64 && |m| == 64
    requires forall t :: 0 <= t < 16 ==> w[t] == W(m, t)
    modifies w
    ensures forall t :: 0 <= t < 64 ==> w[t] == W(m, t)
  {
    hide BigEndian, Sum4, SmallSigma0, SmallSigma1, ScheduleS0, ScheduleS1, RoundS0, RoundS1, BigSigma0, BigSigma1;
    for i := 16 to 64
      invariant forall t :: 0 <= t < i ==> w[t] == W(m, t)
    {
      var s0 := ScheduleS0(w[i - 15]);
      var s1 := ScheduleS1(w[i - 2]);
      SigmasAgree(w[i - 15]);
      SigmasAgree(w[i - 2]);
      Reorder(w[i - 16], s0, w[i - 7], s1);
      w[i] := Sum4(w[i - 16], s0, w[i - 7], s1);
    }
  }

  /** The 64 rounds over the rolling registers a..h. */
  method RunRounds(r0: Regs, w: array<Word>, ghost m: seq<Byte>) returns (r: Regs)
    requires w.Length == 64 && |m| == 64
    requires forall t :: 0 <= t < 64 ==> w[t] == W(m, t)
    ensures r == Rounds(r0, m, 64)
  {
    hide Plus, Sum5, SmallSigma0, SmallSigma1, ScheduleS0, ScheduleS1, RoundS0, RoundS1, BigSigma0, BigSigma1,
         Ch, Maj, W, RoundConstant;
    var a, b, c, d := r0.a, r0.b, r0.c, r0.d;
    var e, f, g, h := r0.e, r0.f, r0.g, r0.h;
    for i := 0 to 64
      invariant Regs(a, b, c, d, e, f, g, h) == Rounds(r0, m, i)
    {
      SigmasAgree(e);
      SigmasAgree(a);
      var s1 := RoundS1(e);
      var ch := Ch(e, f, g);
      var temp1 := Sum5(h, s1, ch, RoundConstant(i), w[i]);
      var s0 := RoundS0(a);
      var maj := Maj(a, b, c);
      var temp2 := Plus(s0, maj);
      h := g;
      g := f;
      f := e;
      e := Plus(d, temp1);
      d := c;
      c := b;
      b := a;
      a := Plus(temp1, temp2);
    }
    r := Regs(a, b, c, d, e, f, g, h);
  }

  /** One 64-byte block at an offset of the data, updating the state in place. */
  method ProcessBlock(h: array<Word>, data: array<Byte>, offset: nat)
    requires h.Length == 8 && offset + 64 <= data.Length
    modifies h
    ensures Load(h[..]) == Compress(Load(old(h[..])), data[offset..offset + 64])
  {
    hide Rounds, W, Plus;
    var w := ReadWords(data, offset);
    ExtendWords(w, data[offset..offset + 64]);
    var r0 := Regs(h[0], h[1], h[2], h[3], h[4], h[5], h[6], h[7]);
    var r := RunRounds(r0, w, data[offset..offset + 64]);
    h[0], h[1], h[2], h[3] := Plus(h[0], r.a), Plus(h[1], r.b), Plus(h[2], r.c), Plus(h[3], r.d);
    h[4], h[5], h[6], h[7] := Plus(h[4], r.e), Plus(h[5], r.f), Plus(h[6], r.g), Plus(h[7], r.h);
  }

  // ------------------------------------------------------------------- sha256

  lemma {:induction false} HashMore(hash: Regs, m: seq<Byte>, block: seq<Byte>)
    requires |m| % 64 == 0 && |block| == 64
    ensures |m + block| % 64 == 0
    ensures HashBlocks(hash, m + block) == Compress(HashBlocks(hash, m), block)
    decreases |m|
  {
    hide Compress;
    if m == [] {
      assert m + block == block;
      assert block[..64] == block && block[64..] == [];
    } else {
      assert (m + block)[..64] == m[..64] && (m + block)[64..] == m[64..] + block;
      HashMore(Compress(hash, m[..64]), m[64..], block);
    }
  }

  /** Feeds consecutive blocks of the data to the state. */
  method ProcessBlocks(h: array<Word>, data: array<Byte>, count: nat, ghost before: seq<Byte>)
    requires h.Length == 8 && count * 64 <= data.Length && |before| % 64 == 0
    requires Load(h[..]) == HashBlocks(IV, before)
    modifies h
    ensures |before + data[..count * 64]| % 64 == 0
    ensures Load(h[..]) == HashBlocks(IV, before + data[..count * 64])
  {
    hide HashBlocks, Compress, Load;
    assert before + data[..0] == before;
    for i := 0 to count
      invariant |before + data[..i * 64]| % 64 == 0
      invariant Load(h[..]) == HashBlocks(IV, before + data[..i * 64])
    {
      ProcessBlock(h, data, i * 64);
      HashMore(IV, before + data[..i * 64], data[i * 64..i * 64 + 64]);
      assert before + data[..(i + 1) * 64] == before + data[..i * 64] + data[i * 64..i * 64 + 64];
    }
  }

  lemma TailShape(len: nat)
    ensures var remaining := len % 64;
            var tailBlocks := if remaining + 1 + 8 > 64 then 2 else 1;
            remaining + 1 + ZeroCount(len) == tailBlocks * 64 - 8
  {
  }

  /** memcpy of a stretch of the data to the start of a buffer. */
  method CopyBytes(source: array<Byte>, start: nat, count: nat, target: array<Byte>)
    requires source != target && start + count <= source.Length && count <= target.Length
    modifies target
    ensures forall k :: 0 <= k < target.Length ==>
      target[k] == if k < count then source[start + k] else old(target[k])
  {
    for i := 0 to count
      invariant forall k :: 0 <= k < target.Length ==>
        target[k] == if k < i then source[start + k] else old(target[k])
    {
      target[i] := source[start + i];
    }
  }

  /** The length field: eight bytes, most significant first. */
  method StoreLength(tail: array<Byte>, lenOffset: nat, bitLen: nat)
    requires lenOffset + 8 <= tail.Length
    modifies tail
    ensures forall k :: 0 <= k < tail.Length ==>
      tail[k] == if lenOffset <= k < lenOffset + 8 then LengthByte(bitLen, k - lenOffset) else old(tail[k])
  {
    hide LengthByte;
    for i := 0 to 8
      invariant forall k :: 0 <= k < tail.Length ==>
        tail[k] == if lenOffset <= k < lenOffset + i then LengthByte(bitLen, k - lenOffset) else old(tail[k])
    {
      tail[lenOffset + i] := LengthByte(bitLen, i);
    }
  }

  /** The final one or two blocks: the remaining bytes, 0x80, zeros and the bit length. */
  method FillTail(data: array<Byte>, len: nat) returns (tail: array<Byte>, tailBlocks: nat)
    requires len <= data.Length
    ensures fresh(tail) && tail.Length == 128 && 1 <= tailBlocks <= 2
    ensures data[..len / 64 * 64] + tail[..tailBlocks * 64] == Pad(data[..len])
  {
    hide LengthByte, BitLength, ZeroCount, Pad;
    var start := len / 64 * 64;
    var remaining := len - start;
    tail := new Byte[128](i => 0);
    CopyBytes(data, start, remaining, tail);
    tail[remaining] := 0x80;
    tailBlocks := if remaining + 1 + 8 > 64 then 2 else 1;
    StoreLength(tail, tailBlocks * 64 - 8, BitLength(len));
    PadEnds(data[..len], tail[..], tailBlocks);
    assert data[..len][..start] == data[..start];
  }

  lemma PadEnds(m: seq<Byte>, tail: seq<Byte>, tailBlocks: nat)
    requires |tail| == 128 && tailBlocks == if |m| % 64 + 1 + 8 > 64 then 2 else 1
    requires forall k :: 0 <= k < |m| % 64 ==> tail[k] == m[|m| / 64 * 64 + k]
    requires tail[|m| % 64] == 0x80
    requires forall k :: |m| % 64 < k < tailBlocks * 64 - 8 ==> tail[k] == 0
    requires forall k :: 0 <= k < 8 ==> tail[tailBlocks * 64 - 8 + k] == LengthByte(BitLength(|m|), k)
    ensures m[..|m| / 64 * 64] + tail[..tailBlocks * 64] == Pad(m)
  {
    hide LengthByte, BitLength, ZeroCount;
    var start, z := |m| / 64 * 64, ZeroCount(|m|);
    TailShape(|m|);
    assert tail[..tailBlocks * 64] == m[start..] + [0x80] + Zeros(z) + BigEndian64(BitLength(|m|));
    assert m == m[..start] + m[start..];
  }

  method Sha256Into(data: array<Byte>, len: nat, out: array<Byte>)
    requires len <= data.Length && out.Length == 32 && out != data
    modifies out
    ensures out[..] == Sha256(data[..len])
  {
    hide HashBlocks, Pad, ByteOf;
    var h := new Word[8] [0x6a09e667, 0xbb67ae85, 0x3c6ef372, 0xa54ff53a,
                          0x510e527f, 0x9b05688c, 0x1f83d9ab, 0x5be0cd19];
    var fullBlocks := len / 64;
    NoBlocks();
    assert Load(h[..]) == IV;
    ProcessBlocks(h, data, fullBlocks, []);
    assert [] + data[..fullBlocks * 64] == data[..fullBlocks * 64];
    var tail, tailBlocks := FillTail(data, len);
    ProcessBlocks(h, tail, tailBlocks, data[..fullBlocks * 64]);
    StoreDigest(h, out);
  }

  lemma NoBlocks()
    ensures HashBlocks(IV, []) == IV
  {
  }

  /** Writes the eight words to the output, most significant byte first. */
  method StoreDigest(h: array<Word>, out: array<Byte>)
    requires h.Length == 8 && out.Length == 32
    modifies out
    ensures out[..] == DigestOf(Load(h[..]))
  {
    hide ByteOf;
    for i := 0 to 8
      invariant forall k :: 0 <= k < 4 * i ==> out[k] == ByteOf(h[k / 4], k % 4)
    {
      out[i * 4] := ByteOf(h[i], 0);
      out[i * 4 + 1] := ByteOf(h[i], 1);
      out[i * 4 + 2] := ByteOf(h[i], 2);
      out[i * 4 + 3] := ByteOf(h[i], 3);
    }
    assert Words(Load(h[..])) == h[..];
  }

  // ------------------------------------------------------------------ sha256d

  /** The nonce appended to the input, least significant byte first. */
  function NonceBytes(nonce: nat): (r: seq<Byte>)
    requires nonce < 0x1_0000_0000
    ensures |r| == 4
  {
    [Octet(nonce % 256), Octet(nonce / 0x100 % 256), Octet(nonce / 0x1_0000 % 256), Octet(nonce / 0x100_0000 % 256)]
  }

  class Sha256dAlgorithm {
    const buffer: array<Byte>  // scratch space reused by every call

    predicate Valid() {
      buffer.Length == 256
    }

    constructor ()
      ensures Valid() && fresh(buffer)
    {
      buffer := new Byte[256](i => 0);
    }

    /** Whatever earlier calls left in the buffer; an input too long leaves the digest alone. */
    method Hash(input: array<Byte>, inputLen: nat, nonce: nat, outDigest: array<Byte>)
      requires Valid() && outDigest.Length == 32 && inputLen <= input.Length
      requires nonce < 0x1_0000_0000
      requires input != buffer && outDigest != buffer && input != outDigest
      modifies buffer, outDigest
      ensures inputLen + 4 > 256 ==> outDigest[..] == old(outDigest[..]) && buffer[..] == old(buffer[..])
      ensures inputLen + 4 <= 256 ==> outDigest[..] == Sha256(Sha256(input[..inputLen] + NonceBytes(nonce)))
    {
      var total := inputLen + 4;
      if total > buffer.Length {
        return;
      }
      hide Sha256;
      var tail := NonceBytes(nonce);
      hide NonceBytes;
      CopyBytes(input, 0, inputLen, buffer);
      buffer[inputLen + 0] := tail[0];
      buffer[inputLen + 1] := tail[1];
      buffer[inputLen + 2] := tail[2];
      buffer[inputLen + 3] := tail[3];
      assert buffer[..total] == input[..inputLen] + tail;
      var firstPass := new Byte[32];
      Sha256Into(buffer, total, firstPass);
      Sha256Into(firstPass, 32, outDigest);
      assert firstPass[..32] == firstPass[..];
    }
  }

  // ------------------------------------------------------------ nonces as bytes

  lemma NonceBytesInjective(m: nat, n: nat)
    requires m < 0x1_0000_0000 && n < 0x1_0000_0000
    ensures NonceBytes(m) == NonceBytes(n) <==> m == n
  {
    hide Octet;
    var s, t := NonceBytes(m), NonceBytes(n);
    assert s[0] == Octet(m % 256) && s[1] == Octet(m / 0x100 % 256)
        && s[2] == Octet(m / 0x1_0000 % 256) && s[3] == Octet(m / 0x100_0000 % 256);
    assert t[0] == Octet(n % 256) && t[1] == Octet(n / 0x100 % 256)
        && t[2] == Octet(n / 0x1_0000 % 256) && t[3] == Octet(n / 0x100_0000 % 256);
    OctetInjective(m % 256, n % 256);
    OctetInjective(m / 0x100 % 256, n / 0x100 % 256);
    OctetInjective(m / 0x1_0000 % 256, n / 0x1_0000 % 256);
    OctetInjective(m / 0x100_0000 % 256, n / 0x100_0000 % 256);
    FromOctets(m);
    FromOctets(n);
  }

  lemma OctetInjective(x: int, y: int)
    requires 0 <= x < 256 && 0 <= y < 256
    ensures Octet(x) == Octet(y) <==> x == y
  {
    OctetValue(x);
    OctetValue(y);
    hide Octet;
  }

  lemma FromOctets(n: nat)
    requires n < 0x1_0000_0000
    ensures n == n % 256 + 0x100 * (n / 0x100 % 256) + 0x1_0000 * (n / 0x1_0000 % 256)
                 + 0x100_0000 * (n / 0x100_0000 % 256)
  {
    var q := n / 0x100;
    var p := q / 0x100;
    RemainderIs(n, 0x1_0000, p, q % 0x100 * 0x100 + n % 0x100);
    var o := p / 0x100;
    RemainderIs(n, 0x100_0000, o, p % 0x100 * 0x1_0000 + q % 0x100 * 0x100 + n % 0x100);
    RemainderIs(o, 0x100, 0, o);
  }
}
