/** The bytes of 64-bit lanes: taking one out, putting one in, and what XOR does to them. */
module Lanes {
  function Xor64(x: bv64, y: bv64): bv64 {
    x ^ y
  }

  function Xor8(x: bv8, y: bv8): bv8 {
    x ^ y
  }

  function Low(x: bv64): bv8 {
    (x & 0xff) as bv8
  }

  function ByteDown(x: bv64): bv64 {
    x >> 8
  }

  function ByteUp(x: bv64): bv64 {
    x << 8
  }

  /** x shifted right by b bytes. */
  function Down(x: bv64, b: nat): bv64 {
    if b == 0 then x else Down(ByteDown(x), b - 1)
  }

  /** x shifted left by b bytes. */
  function Up(x: bv64, b: nat): bv64 {
    if b == 0 then x else ByteUp(Up(x, b - 1))
  }

  function LaneByte(lane: bv64, b: nat): bv8
    requires b < 8
  {
    Low(Down(lane, b))
  }

  lemma LowXor(x: bv64, y: bv64)
    ensures Low(Xor64(x, y)) == Xor8(Low(x), Low(y))
  {
  }

  lemma ByteDownXor(x: bv64, y: bv64)
    ensures ByteDown(Xor64(x, y)) == Xor64(ByteDown(x), ByteDown(y))
  {
  }

  lemma {:induction false} DownXor(x: bv64, y: bv64, b: nat)
    ensures Down(Xor64(x, y), b) == Xor64(Down(x, b), Down(y, b))
    decreases b
  {
    hide ByteDown, Xor64;
    if b > 0 {
      ByteDownXor(x, y);
      DownXor(ByteDown(x), ByteDown(y), b - 1);
    }
  }

  // ------------------------------------------------------------ one byte placed

  function Widened(limit: bv64): bv64 {
    (limit << 8) | 0xff
  }

  /** All bits of byte k and of those below it. */
  function UpTo(k: nat): bv64 {
    if k == 0 then 0xff else Widened(UpTo(k - 1))
  }

  const TOP_FREE: bv64 := 0xff_ffff_ffff_ffff

  predicate Under(x: bv64, limit: bv64) {
    x <= limit
  }

  lemma UpStays(x: bv64, limit: bv64)
    requires Under(x, limit) && Under(limit, TOP_FREE)
    ensures Under(ByteUp(x), Widened(limit)) && ByteDown(ByteUp(x)) == x
  {
  }

  lemma LimitsAreLow(k: nat)
    requires k < 7
    ensures Under(UpTo(k), TOP_FREE)
  {
    assert UpTo(0) == 0xff && UpTo(1) == 0xffff && UpTo(2) == 0xff_ffff && UpTo(3) == 0xffff_ffff;
    assert UpTo(4) == 0xff_ffff_ffff && UpTo(5) == 0xffff_ffff_ffff && UpTo(6) == TOP_FREE;
  }

  lemma FirstByte(d: bv8)
    ensures Under(d as bv64, UpTo(0))
  {
  }

  lemma {:induction false} UpFits(d: bv8, k: nat)
    requires k < 8
    ensures Under(Up(d as bv64, k), UpTo(k))
  {
    FirstByte(d);
    hide ByteUp, Widened, Under;
    if k > 0 {
      UpFits(d, k - 1);
      LimitsAreLow(k - 1);
      UpStays(Up(d as bv64, k - 1), UpTo(k - 1));
    }
  }

  lemma NothingAbove(d: bv8)
    ensures ByteDown(d as bv64) == 0 && ByteDown(0) == 0 && Low(0) == 0 && Low(d as bv64) == d
  {
  }

  lemma LowOfUp(x: bv64)
    ensures Low(ByteUp(x)) == 0
  {
  }

  lemma {:induction false} DownOfZero(b: nat)
    ensures Down(0, b) == 0
  {
    NothingAbove(0);
    hide ByteDown;
    if b > 0 {
      DownOfZero(b - 1);
    }
  }

  /** A byte put at one place is there and nowhere else. */
  lemma {:induction false} UpDown(d: bv8, k: nat, b: nat)
    requires k < 8 && b < 8
    ensures LaneByte(Up(d as bv64, k), b) == if b == k then d else 0
  {
    var x := d as bv64;
    NothingAbove(d);
    hide ByteDown, ByteUp, Low, UpTo, Under;
    if k == 0 {
      DownOfZero(if b > 0 then b - 1 else 0);
    } else if b == 0 {
      LowOfUp(Up(x, k - 1));
    } else {
      UpFits(d, k - 1);
      LimitsAreLow(k - 1);
      UpStays(Up(x, k - 1), UpTo(k - 1));
      UpDown(d, k - 1, b - 1);
    }
  }

  /** XORing lanes XORs their bytes. */
  lemma ByteOfXor(x: bv64, y: bv64, b: nat)
    requires b < 8
    ensures LaneByte(Xor64(x, y), b) == Xor8(LaneByte(x, b), LaneByte(y, b))
  {
    DownXor(x, y, b);
    LowXor(Down(x, b), Down(y, b));
    hide Down, Low, Xor64, Xor8;
  }

  /** XORing a byte into a lane changes that byte only. */
  lemma ByteAbsorbed(x: bv64, d: bv8, k: nat, b: nat)
    requires k < 8 && b < 8
    ensures LaneByte(Xor64(x, Up(d as bv64, k)), b) == Xor8(LaneByte(x, b), if b == k then d else 0)
  {
    hide LaneByte, Up, Xor64, Xor8;
    ByteOfXor(x, Up(d as bv64, k), b);
    UpDown(d, k, b);
  }

  lemma XorNothing(x: bv8)
    ensures Xor8(x, 0) == x
  {
  }

  lemma XorCancels(x: bv8, a: bv8, b: bv8)
    ensures Xor8(x, a) == Xor8(x, b) <==> a == b
  {
  }
}
