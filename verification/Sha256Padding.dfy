/**
 Section 5.1.1 of FIPS 180-4: the padding the code builds is the shortest one the
 standard allows, and it can be undone.
 */
module Sha256Padding {
  import opened Powers
  import opened Octets
  import opened Sha256Spec
  import opened ByteNumbers

  /** k zero bits after the 1 bit end 64 bits short of a block. */
  predicate Congruent(l: nat, k: int) {
    (8 * l + 1 + k) % 512 == 448
  }

  /**
   In the standard's terms: a message of 8l bits is followed by a 1 bit and the
   smallest non-negative number k of zero bits with 8l + 1 + k = 448 modulo 512.
   The code appends 0x80, which is the 1 bit and 7 of them, and whole zero bytes.
   */
  lemma PaddingIsStandard(l: nat)
    ensures var k := 7 + 8 * ZeroCount(l);
            Congruent(l, k) && forall j :: 0 <= j < k ==> !Congruent(l, j)
  {
    ZerosFillBlock(l);
    var k, q := 7 + 8 * ZeroCount(l), (l + 8) / 64;
    hide ZeroCount;
    assert 8 * l + 1 + k == 512 * q + 448;
    forall j | 0 <= j < k ensures !Congruent(l, j) {
      OffResidue(q, k - j);
      assert 8 * l + 1 + j == 512 * q + 448 - (k - j);
    }
  }

  lemma ZerosFillBlock(l: nat)
    ensures l + 9 + ZeroCount(l) == 64 * ((l + 8) / 64 + 1) && ZeroCount(l) < 64
  {
  }

  lemma OffResidue(q: int, d: int)
    requires 0 < d < 512
    ensures (512 * q + 448 - d) % 512 != 448
  {
  }

  /** The padded message has the fewest blocks that hold data, marker and length. */
  lemma FewestBlocks(m: seq<Byte>)
    ensures |Pad(m)| % 64 == 0 && |Pad(m)| >= |m| + 9
    ensures forall n: nat :: 64 * n >= |m| + 9 ==> 64 * n >= |Pad(m)|
  {
    ZerosFillBlock(|m|);
    PadLength(m);
    hide Pad, ZeroCount;
    var blocks, zeros := (|m| + 8) / 64 + 1, ZeroCount(|m|);
    forall n: nat | 64 * n >= |m| + 9 ensures 64 * n >= |Pad(m)| {
      WholeBlocks(n, blocks, |m| + 9, zeros);
    }
  }

  lemma PadLength(m: seq<Byte>)
    ensures |Pad(m)| == |m| + 9 + ZeroCount(|m|)
  {
    hide ZeroCount, LengthByte, BitLength;
  }

  lemma WholeBlocks(n: int, blocks: int, needed: int, zeros: int)
    requires 64 * n >= needed && needed + zeros == 64 * blocks && zeros < 64
    ensures n >= blocks
  {
  }

  /** Data, marker, zeros and length field lie side by side and do not overlap. */
  lemma PadLayout(m: seq<Byte>)
    ensures var p := Pad(m);
            p[..|m|] == m && p[|m|] == 0x80 &&
            (forall k :: |m| < k < |p| - 8 ==> p[k] == 0) &&
            p[|p| - 8..] == BigEndian64(BitLength(|m|))
  {
    hide LengthByte, BitLength;
    var p := Pad(m);
    var head := m + [0x80] + Zeros(ZeroCount(|m|));
    assert p == head + BigEndian64(BitLength(|m|));
    assert p[..|m|] == m;
  }

  // --------------------------------------------------------------- undoing it

  function Unpad(p: seq<Byte>): seq<Byte>
    requires |p| >= 8
  {
    var l := BigEndianValue(p[|p| - 8..]) / 8;
    if l <= |p| then p[..l] else p
  }

  lemma {:induction false} ShiftMore(n: nat, k: nat)
    ensures ShiftBytes(n, k + 1) == ShiftBytes(n, k) / 256
  {
    if k > 0 {
      ShiftMore(n / 256, k - 1);
    }
  }

  lemma {:induction false} PrefixValue(n: nat, i: nat)
    requires i <= 8 && ShiftBytes(n, 8) == 0
    ensures BigEndianValue(BigEndian64(n)[..i]) == ShiftBytes(n, 8 - i)
  {
    if i > 0 {
      PrefixValue(n, i - 1);
      ShiftMore(n, 8 - i);
      var bytes := BigEndian64(n)[..i];
      assert bytes[..i - 1] == BigEndian64(n)[..i - 1];
      OctetValue(ShiftBytes(n, 8 - i) % 256);
      hide ShiftBytes;
      assert bytes[i - 1] == LengthByte(n, i - 1);
    }
  }

  lemma {:induction false} ShiftsVanish(n: nat, k: nat, bound: nat)
    requires n < bound && bound == Power(256, k)
    ensures ShiftBytes(n, k) == 0
  {
    if k > 0 {
      ShiftsVanish(n / 256, k - 1, Power(256, k - 1));
    }
  }

  lemma EightBytes(n: nat)
    requires n < 0x1_0000_0000_0000_0000
    ensures ShiftBytes(n, 8) == 0
  {
    assert Power(256, 8) == 0x1_0000_0000_0000_0000;
    ShiftsVanish(n, 8, Power(256, 8));
  }

  lemma LengthDecodes(n: nat)
    requires n < 0x1_0000_0000_0000_0000
    ensures BigEndianValue(BigEndian64(n)) == n
  {
    EightBytes(n);
    PrefixValue(n, 8);
    assert BigEndian64(n)[..8] == BigEndian64(n);
  }

  /** The padding can be undone for every message shorter than 2^61 bytes. */
  lemma UnpadRecovers(m: seq<Byte>)
    requires |m| < 0x2000_0000_0000_0000
    ensures Unpad(Pad(m)) == m
  {
    PadLayout(m);
    LengthDecodes(BitLength(|m|));
  }

  /** So distinct messages feed distinct block sequences to the compression. */
  lemma PadInjective(m: seq<Byte>, n: seq<Byte>)
    requires |m| < 0x2000_0000_0000_0000 && |n| < 0x2000_0000_0000_0000
    ensures Pad(m) == Pad(n) <==> m == n
  {
    UnpadRecovers(m);
    UnpadRecovers(n);
  }
}
