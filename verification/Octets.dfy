/** Why casting a small number to a byte and back returns it: bytes count from 0 to 255. */
module OctetCast {
  lemma Successor(y: bv8)
    requires y != 255
    ensures (y + 1) as nat == y as nat + 1
  {
  }

  lemma {:induction false} ByteFor(x: nat) returns (y: bv8)
    requires x < 256
    ensures y as nat == x
  {
    if x == 0 {
      y := 0;
    } else {
      var z := ByteFor(x - 1);
      Successor(z);
      y := z + 1;
    }
  }

  lemma BackAndThere(y: bv8)
    ensures (y as nat) as bv8 == y
  {
  }

  lemma ThereAndBack(x: nat)
    requires x < 256
    ensures (x as bv8) as nat == x
  {
    var y := ByteFor(x);
    BackAndThere(y);
  }
}

/** Numbers below 256 as bytes. */
module Octets {
  import OctetCast

  function Octet(x: nat): bv8
    requires x < 256
  {
    x as bv8
  }

  lemma OctetValue(x: nat)
    requires x < 256
    ensures Octet(x) as nat == x
  {
    OctetCast.ThereAndBack(x);
  }
}
