/** Byte strings as big-endian numbers. */
module ByteNumbers {
  import opened Powers

  function BigEndianValue(bytes: seq<bv8>): nat {
    if bytes == [] then 0 else BigEndianValue(bytes[..|bytes| - 1]) * 256 + bytes[|bytes| - 1] as nat
  }

  lemma {:induction false} PowersGrow(i: nat, j: nat)
    requires i < j
    ensures 256 * Power(256, i) <= Power(256, j)
  {
    if i + 1 < j {
      PowersGrow(i, j - 1);
    }
  }

  lemma {:induction false} ValueBound(bytes: seq<bv8>)
    ensures BigEndianValue(bytes) < Power(256, |bytes|)
  {
    if bytes != [] {
      ValueBound(bytes[..|bytes| - 1]);
    }
  }

  lemma {:induction false} SplitValue(a: seq<bv8>, b: seq<bv8>)
    ensures BigEndianValue(a + b) == BigEndianValue(a) * Power(256, |b|) + BigEndianValue(b)
  {
    if b == [] {
      assert a + b == a;
    } else {
      var init := b[..|b| - 1];
      assert (a + b)[..|a + b| - 1] == a + init;
      SplitValue(a, init);
      Regroup(BigEndianValue(a), Power(256, |init|), BigEndianValue(init), b[|b| - 1] as nat);
    }
  }

  lemma Regroup(x: nat, p: nat, y: nat, z: nat)
    ensures (x * p + y) * 256 + z == x * (256 * p) + (y * 256 + z)
  {
  }
}
