/**
 The share test of miner::MinerEngine: the leading 64 bits of a digest against a
 threshold drawn from the difficulty, with difficulties as reals.
 */
module ShareTest {
  import opened Powers
  import opened ByteNumbers

  const TWO64: nat := 0x1_0000_0000_0000_0000

  /** The accumulation loop over the first eight bytes; the shift drops what leaves 64 bits. */
  method LeadingBits(digest: seq<bv8>) returns (value: nat)
    requires |digest| == 32
    ensures value == BigEndianValue(digest[..8]) < TWO64
  {
    value := 0;
    assert Power(256, 8) == TWO64;
    for i := 0 to 8
      invariant value == BigEndianValue(digest[..i]) < Power(256, i)
    {
      PowersGrow(i, 8);
      assert digest[..i + 1][..i] == digest[..i];
      value := value * 256 % TWO64 + digest[i] as nat;
    }
  }

  /** kDiff1 / difficulty clamped to 64 bits, where kDiff1 rounds to 2^64 as a double. */
  function Threshold(difficulty: real): nat {
    var d := if difficulty <= 0.0 then 1.0 else difficulty;
    var scaled := TWO64 as real / d;
    if scaled >= TWO64 as real then TWO64 - 1
    else if scaled <= 0.0 then 0 else scaled.Floor
  }

  /** Comparing the leading 64 bits is comparing the whole 256-bit number. */
  lemma LeadingDecides(digest: seq<bv8>, t: nat)
    requires |digest| == 32
    ensures BigEndianValue(digest[..8]) < t <==> BigEndianValue(digest) < t * Power(256, 24)
  {
    assert digest == digest[..8] + digest[8..];
    SplitValue(digest[..8], digest[8..]);
    ValueBound(digest[8..]);
    hide Power, BigEndianValue;
    CompareScaled(BigEndianValue(digest[..8]), BigEndianValue(digest[8..]), t, Power(256, 24));
  }

  lemma CompareScaled(lead: nat, low: nat, t: nat, p: nat)
    requires low < p
    ensures lead < t <==> lead * p + low < t * p
  {
    if lead < t {
      MulMonotone(lead + 1, t, p);
      assert (lead + 1) * p == lead * p + p;
    } else {
      MulMonotone(t, lead, p);
    }
  }

  lemma MulMonotone(a: nat, b: nat, p: nat)
    requires a <= b
    ensures a * p <= b * p
  {
  }

  /** Above difficulty 1 the test is an exact division: (leading + 1) * difficulty <= 2^64. */
  lemma ThresholdIsDivision(leading: nat, difficulty: real)
    requires difficulty > 1.0
    ensures leading < Threshold(difficulty) <==> (leading + 1) as real * difficulty <= TWO64 as real
  {
    var scaled := TWO64 as real / difficulty;
    Quotients(TWO64 as real, difficulty, (leading + 1) as real);
    Quotients(TWO64 as real, difficulty, TWO64 as real);
    assert TWO64 as real * difficulty > TWO64 as real;
    assert scaled > 0.0;
    assert leading < scaled.Floor <==> (leading + 1) as real <= scaled;
  }

  lemma Quotients(n: real, d: real, x: real)
    requires d > 0.0
    ensures x <= n / d <==> x * d <= n
  {
    assert n / d * d == n;
  }

  /** The threshold is a 64-bit number, and the easiest difficulties accept all but the last value. */
  lemma ThresholdInRange(difficulty: real)
    ensures Threshold(difficulty) < TWO64
    ensures difficulty <= 1.0 ==> Threshold(difficulty) == TWO64 - 1
  {
    if difficulty > 1.0 {
      Quotients(TWO64 as real, difficulty, TWO64 as real);
      assert TWO64 as real * difficulty > TWO64 as real;
    } else if difficulty > 0.0 {
      Quotients(TWO64 as real, difficulty, TWO64 as real);
      assert TWO64 as real * difficulty <= TWO64 as real;
    }
  }

  /** A share valid at one difficulty is valid at every lower positive one. */
  lemma EasierAccepts(leading: nat, hard: real, easy: real)
    requires 0.0 < easy <= hard && leading < Threshold(hard)
    ensures leading < Threshold(easy)
  {
    ThresholdInRange(hard);
    ThresholdInRange(easy);
    if easy > 1.0 {
      ThresholdIsDivision(leading, hard);
      ThresholdIsDivision(leading, easy);
      assert (leading + 1) as real * easy <= (leading + 1) as real * hard;
    }
  }

  /** The condition on the leading bits: a division above difficulty 1, all but the last value at or below it. */
  predicate Accepts(leading: nat, difficulty: real) {
    if difficulty > 1.0 then (leading + 1) as real * difficulty <= TWO64 as real else leading != TWO64 - 1
  }

  lemma AcceptedIff(leading: nat, difficulty: real)
    requires leading < TWO64
    ensures leading < Threshold(difficulty) <==> Accepts(leading, difficulty)
  {
    hide Threshold;
    if difficulty > 1.0 {
      ThresholdIsDivision(leading, difficulty);
    } else {
      ThresholdInRange(difficulty);
    }
  }

  /** The whole share test on a digest, at every difficulty, as one comparison of 256-bit numbers and as a division. */
  lemma ShareIsExact(digest: seq<bv8>, difficulty: real)
    requires |digest| == 32
    ensures BigEndianValue(digest[..8]) < Threshold(difficulty)
       <==> BigEndianValue(digest) < Threshold(difficulty) * Power(256, 24)
    ensures BigEndianValue(digest[..8]) < Threshold(difficulty)
       <==> Accepts(BigEndianValue(digest[..8]), difficulty)
  {
    LeadingInRange(digest);
    hide Power, BigEndianValue, Threshold, Accepts;
    LeadingDecides(digest, Threshold(difficulty));
    AcceptedIff(BigEndianValue(digest[..8]), difficulty);
  }

  lemma LeadingInRange(digest: seq<bv8>)
    requires |digest| == 32
    ensures BigEndianValue(digest[..8]) < TWO64
  {
    ValueBound(digest[..8]);
    assert Power(256, 8) == TWO64;
  }
}
