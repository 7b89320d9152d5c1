/**
 How the hash value runs through the blocks of a message: block by block in order, each
 starting from what the ones before left, as section 6.2.2 of FIPS 180-4 goes about it.
 */
module Sha256Chaining {
  import opened Sha256Spec

  /** The rounds from number t on, the working variables taken along. */
  function Onward(r: Regs, m: seq<Byte>, t: nat): Regs
    requires |m| == 64 && t <= 64
    decreases 64 - t
  {
    if t == 64 then r else Onward(Round(r, RoundConstant(t), W(m, t)), m, t + 1)
  }

  /** All 64 rounds, the first of them on the hash value itself. */
  function FromFirst(hash: Regs, m: seq<Byte>): Regs
    requires |m| == 64
  {
    Onward(hash, m, 0)
  }

  lemma {:induction false} RoundsGoOn(hash: Regs, m: seq<Byte>, t: nat)
    requires |m| == 64 && t <= 64
    ensures Onward(Rounds(hash, m, t), m, t) == FromFirst(hash, m)
  {
    hide Round, RoundConstant, W;
    if t > 0 {
      RoundsGoOn(hash, m, t - 1);
    }
  }

  /**
   One more block: its rounds start from the hash value of the blocks before it, and what
   they make of it is added to it word by word.
   */
  lemma OneMoreBlock(hash: Regs, m: seq<Byte>, b: seq<Byte>, v: Regs, r: Regs)
    requires |m| % 64 == 0 && |b| == 64 && v == HashBlocks(hash, m) && r == FromFirst(v, b)
    ensures HashBlocks(hash, m + b)
         == Regs(Plus(v.a, r.a), Plus(v.b, r.b), Plus(v.c, r.c), Plus(v.d, r.d),
                 Plus(v.e, r.e), Plus(v.f, r.f), Plus(v.g, r.g), Plus(v.h, r.h))
  {
    BlocksInOrder(hash, m, b);
    RoundsGoOn(v, b, 64);
    assert Onward(Rounds(v, b, 64), b, 64) == Rounds(v, b, 64);
    hide Rounds, HashBlocks, FromFirst, Plus;
  }

  /** The blocks of a message are taken one after the other. */
  lemma {:induction false} BlocksInOrder(hash: Regs, a: seq<Byte>, b: seq<Byte>)
    requires |a| % 64 == 0 && |b| % 64 == 0
    ensures HashBlocks(hash, a + b) == HashBlocks(HashBlocks(hash, a), b)
    ensures |b| == 64 ==> HashBlocks(HashBlocks(hash, a), b) == Compress(HashBlocks(hash, a), b)
    decreases |a|
  {
    hide Compress;
    if a == [] {
      assert a + b == b;
    } else {
      assert (a + b)[..64] == a[..64] && (a + b)[64..] == a[64..] + b;
      BlocksInOrder(Compress(hash, a[..64]), a[64..], b);
    }
    if |b| == 64 {
      assert b[..64] == b && b[64..] == [];
    }
  }
}
