/**
 hash::CryptonightAlgorithm: the scratchpad pipeline, with Keccak an arbitrary
 function of its 25 lanes, and the sixteen-byte form it collapses to.
 */
module Cryptonight {
  import Sha256d
  import opened Octets
  import opened Lanes

  const SCRATCHPAD: nat := 2_097_152
  const BLOCK: nat := 16
  const ITERATIONS: nat := 524288
  const LANES: nat := 25

  type State = s: seq<bv64> | |s| == LANES witness seq(25, i => 0)

  // ------------------------------------------------------------------ absorbing

  /** Byte i of the input at its place in its lane. */
  function Shifted(b: bv8, i: nat): bv64 {
    Up(b as bv64, i % 8)
  }

  /** The state after XORing the first bytes of the input into it. */
  function Absorbed(state: State, input: seq<bv8>): State
    requires |input| <= 8 * LANES
  {
    if input == [] then state
    else
      var i := |input| - 1;
      var s := Absorbed(state, input[..i]);
      s[i / 8 := Xor64(s[i / 8], Shifted(input[i], i))]
  }

  method XorIntoState(state: array<bv64>, data: array<bv8>)
    requires state.Length == LANES && data.Length <= 8 * LANES
    modifies state
    ensures state[..] == Absorbed(old(state[..]), data[..])
  {
    hide Shifted;
    ghost var was := state[..];
    for i := 0 to data.Length
      invariant state[..] == Absorbed(was, data[..i])
      invariant data[..] == old(data[..])
    {
      assert data[..i + 1][..i] == data[..i];
      state[i / 8] := state[i / 8] ^ Shifted(data[i], i);
    }
    assert data[..data.Length] == data[..];
  }

  /** Byte k of a state: byte k % 8 of lane k / 8. */
  function StateByte(state: State, k: nat): bv8
    requires k < 8 * LANES
  {
    LaneByte(state[k / 8], k % 8)
  }

  function ByteOr0(input: seq<bv8>, k: nat): bv8 {
    if k < |input| then input[k] else 0
  }

  /** Absorbing XORs byte k of the input into byte k of the state, for every k. */
  lemma {:induction false} AbsorbedByte(state: State, input: seq<bv8>, k: nat)
    requires |input| <= 8 * LANES && k < 8 * LANES
    ensures StateByte(Absorbed(state, input), k) == Xor8(StateByte(state, k), ByteOr0(input, k))
  {
    hide LaneByte, Xor64, Xor8, Up;
    XorNothing(StateByte(state, k));
    if input != [] {
      var i := |input| - 1;
      var s := Absorbed(state, input[..i]);
      AbsorbedByte(state, input[..i], k);
      if k / 8 == i / 8 {
        ByteAbsorbed(s[i / 8], input[i], i % 8, k % 8);
        XorNothing(StateByte(s, k));
      }
    }
  }

  /** From the empty state byte k is the input's, and 0 beyond it. */
  lemma AbsorbedFromZero(input: seq<bv8>, k: nat)
    requires |input| <= 8 * LANES && k < 8 * LANES
    ensures StateByte(Absorbed(seq(LANES, i => 0), input), k) == ByteOr0(input, k)
  {
    AbsorbedByte(seq(LANES, i => 0), input, k);
    ZeroByte(k % 8);
    hide LaneByte, Absorbed;
  }

  lemma ZeroByte(b: nat)
    requires b < 8
    ensures LaneByte(0, b) == 0
  {
    DownOfZero(b);
    NothingAbove(0);
  }

  /** Distinct inputs of one length reach Keccak as distinct states, whatever state they meet. */
  lemma AbsorbInjective(state: State, a: seq<bv8>, b: seq<bv8>)
    requires |a| == |b| <= 8 * LANES
    ensures Absorbed(state, a) == Absorbed(state, b) <==> a == b
  {
    hide Absorbed, StateByte, Xor8;
    if Absorbed(state, a) == Absorbed(state, b) {
      forall k | 0 <= k < |a| ensures a[k] == b[k] {
        AbsorbedByte(state, a, k);
        AbsorbedByte(state, b, k);
        XorCancels(StateByte(state, k), a[k], b[k]);
      }
    }
  }

  // ------------------------------------------------------------------- folding

  /** Byte k of the folded state after the first n lanes. */
  function Folded(lanes: State, n: nat, k: nat): bv8
    requires n <= LANES
  {
    if n == 0 then 0
    else Folded(lanes, n - 1, k) ^ (if (n - 1) / 8 == k / 8 then LaneByte(lanes[n - 1], k % 8) else 0)
  }

  method FoldLanes(lanes: State) returns (h: array<bv8>)
    ensures fresh(h) && h.Length == 32
    ensures forall k :: 0 <= k < 32 ==> h[k] == Folded(lanes, LANES, k)
  {
    hide LaneByte;
    h := new bv8[32](i => 0);
    for i := 0 to LANES
      invariant forall k :: 0 <= k < 32 ==> h[k] == Folded(lanes, i, k)
    {
      for b := 0 to 8
        invariant forall k :: 0 <= k < 32 ==>
          h[k] == Folded(lanes, if k / 8 == i / 8 && k % 8 < b then i + 1 else i, k)
      {
        h[i / 8 * 8 + b] := h[i / 8 * 8 + b] ^ LaneByte(lanes[i], b);
      }
    }
  }

  /** Byte b of n lanes, XORed together. */
  function Xored(lanes: State, first: nat, n: nat, b: nat): bv8
    requires first + n <= LANES && b < 8
  {
    if n == 0 then 0 else Xored(lanes, first, n - 1, b) ^ LaneByte(lanes[first + n - 1], b)
  }

  /** Lanes outside the group leave a byte alone. */
  lemma {:induction false} OtherLanes(lanes: State, m: nat, n: nat, k: nat)
    requires m <= n <= LANES && (n <= k / 8 * 8 || m >= k / 8 * 8 + 8)
    ensures Folded(lanes, n, k) == Folded(lanes, m, k)
  {
    hide LaneByte;
    if m < n {
      OtherLanes(lanes, m, n - 1, k);
    }
  }

  lemma {:induction false} FoldedGroup(lanes: State, first: nat, n: nat, k: nat)
    requires first == k / 8 * 8 && n <= 8 && first + n <= LANES
    ensures Folded(lanes, first + n, k) == Xored(lanes, first, n, k % 8)
  {
    hide LaneByte;
    if n == 0 {
      OtherLanes(lanes, 0, first, k);
    } else {
      FoldedGroup(lanes, first, n - 1, k);
      assert (first + n - 1) / 8 == k / 8;
    }
  }

  /** Folding 25 lanes into 32 bytes XORs them eight at a time; the last eight bytes hold one lane. */
  lemma FoldedIsGroup(lanes: State, k: nat)
    requires k < 32
    ensures Folded(lanes, LANES, k) == Xored(lanes, k / 8 * 8, if k < 24 then 8 else 1, k % 8)
  {
    hide Folded, Xored;
    if k < 24 {
      OtherLanes(lanes, k / 8 * 8 + 8, LANES, k);
      FoldedGroup(lanes, k / 8 * 8, 8, k);
    } else {
      FoldedGroup(lanes, 24, 1, k);
    }
  }

  // ---------------------------------------------------------------- main loop

  /** One turn of the main loop: i in the first sixteen bytes, 3i in the next sixteen. */
  function Mask(k: nat): bv8 {
    if k < 16 then Octet(k) else if k < 32 then Octet((k - 16) * 3) else 0
  }

  function Stirred(pad: seq<bv8>): (r: seq<bv8>)
    ensures |r| == |pad|
  {
    seq(|pad|, k requires 0 <= k < |pad| => pad[k] ^ Mask(k))
  }

  /** The specification of n turns. */
  function StirredTimes(pad: seq<bv8>, n: nat): (r: seq<bv8>)
    ensures |r| == |pad|
  {
    if n == 0 then pad else Stirred(StirredTimes(pad, n - 1))
  }

  lemma XorTwice(x: bv8, m: bv8)
    ensures (x ^ m) ^ m == x
  {
  }

  lemma StirredTwice(pad: seq<bv8>)
    ensures Stirred(Stirred(pad)) == pad
  {
    hide Mask;
    forall k | 0 <= k < |pad| ensures Stirred(Stirred(pad))[k] == pad[k] {
      XorTwice(pad[k], Mask(k));
    }
  }

  /** An even number of turns does nothing; an odd number is a single turn. */
  lemma {:induction false} StirringIsParity(pad: seq<bv8>, n: nat)
    ensures StirredTimes(pad, n) == if n % 2 == 0 then pad else Stirred(pad)
  {
    if n > 0 {
      StirringIsParity(pad, n - 1);
      StirredTwice(pad);
    }
  }

  /** A turn does change the scratchpad, so no odd number of iterations is the identity. */
  lemma StirringIsNotIdle(pad: seq<bv8>)
    requires |pad| > 1
    ensures Stirred(pad)[1] != pad[1]
  {
    var one := Octet(1);
    OctetValue(1);
    assert Mask(1) == one && one != 0;
    XorMoves(pad[1], one);
  }

  lemma XorMoves(x: bv8, m: bv8)
    requires m != 0
    ensures x ^ m != x
  {
  }

  // ------------------------------------------------------------------- hashing

  const DATA_BYTES: nat := 72

  /** As much of the data as is hashed. */
  function Start(data: seq<bv8>): seq<bv8> {
    if |data| > DATA_BYTES then data[..DATA_BYTES] else data
  }

  /** The 76 bytes hashed: up to 72 of the input, zeros, and the nonce. */
  function Block(input: seq<bv8>, nonce: nat): (r: seq<bv8>)
    requires nonce < 0x1_0000_0000
    ensures |r| == 76
  {
    Start(input) + seq(DATA_BYTES - |Start(input)|, i => 0) + Sha256d.NonceBytes(nonce)
  }

  /** For data of one length, blocks agree exactly when the first 72 bytes and the nonces do. */
  lemma BlocksAgree(c: seq<bv8>, m: nat, d: seq<bv8>, n: nat)
    requires |c| == |d| && m < 0x1_0000_0000 && n < 0x1_0000_0000
    ensures Block(c, m) == Block(d, n) <==> Start(c) == Start(d) && m == n
  {
    Sha256d.NonceBytesInjective(m, n);
    hide Sha256d.NonceBytes;
    var a, b := Block(c, m), Block(d, n);
    var size := |Start(c)|;
    assert a[..size] == Start(c) && b[..size] == Start(d);
    assert a[72..] == Sha256d.NonceBytes(m) && b[72..] == Sha256d.NonceBytes(n);
  }

  /** The sixteen bytes the scratchpad repeats. */
  function Seed(keccak: State -> State, block: seq<bv8>): (r: seq<bv8>)
    requires |block| == 76
    ensures |r| == 16
  {
    var lanes := keccak(Absorbed(seq(LANES, i => 0), block));
    seq(16, k requires 0 <= k < 16 => Folded(lanes, LANES, k) ^ block[k])
  }

  /**
   The sixteen bytes in closed form: byte k is byte k % 8 of eight lanes, XORed with
   byte k of the input. Lanes 16 to 24, and the nonce and the later input other than
   through Keccak, play no part.
   */
  lemma SeedIsGroups(keccak: State -> State, input: seq<bv8>, nonce: nat, k: nat)
    requires nonce < 0x1_0000_0000 && k < 16
    ensures var block := Block(input, nonce);
            var lanes := keccak(Absorbed(seq(LANES, i => 0), block));
            Seed(keccak, block)[k] == Xored(lanes, k / 8 * 8, 8, k % 8) ^ (if k < |input| then input[k] else 0)
  {
    var block := Block(input, nonce);
    FoldedIsGroup(keccak(Absorbed(seq(LANES, i => 0), block)), k);
    hide Absorbed, Folded, Xored;
    assert block[k] == if k < |input| then input[k] else 0;
  }

  method WithNonce(input: array<bv8>, inputLen: nat, nonce: nat) returns (inputWithNonce: array<bv8>)
    requires inputLen <= input.Length && nonce < 0x1_0000_0000
    ensures fresh(inputWithNonce) && inputWithNonce[..] == Block(input[..inputLen], nonce)
  {
    hide Sha256d.NonceBytes;
    inputWithNonce := new bv8[76](i => 0);
    var copyLen := if inputLen < 72 then inputLen else 72;
    for i := 0 to copyLen
      invariant forall k :: 0 <= k < 76 ==> inputWithNonce[k] == if k < i then input[k] else 0
    {
      inputWithNonce[i] := input[i];
    }
    var tail := Sha256d.NonceBytes(nonce);
    inputWithNonce[72] := tail[0];
    inputWithNonce[73] := tail[1];
    inputWithNonce[74] := tail[2];
    inputWithNonce[75] := tail[3];
  }

  predicate Repeats(pad: seq<bv8>, seed: seq<bv8>) {
    |pad| == SCRATCHPAD && |seed| == BLOCK && forall k :: 0 <= k < SCRATCHPAD ==> pad[k] == seed[k % BLOCK]
  }

  lemma TwoCopies(pad: seq<bv8>, seed: seq<bv8>)
    requires Repeats(pad, seed)
    ensures pad[..32] == seed + seed
  {
  }

  class CryptonightAlgorithm {
    const keccak: State -> State
    const scratchpad: array<bv8>

    constructor (keccak: State -> State)
      ensures this.keccak == keccak && fresh(scratchpad) && scratchpad.Length == SCRATCHPAD
    {
      this.keccak := keccak;
      scratchpad := new bv8[SCRATCHPAD](i => 0);
    }

    method InitScratchpad(input: array<bv8>)
      requires scratchpad.Length == SCRATCHPAD && input.Length == 76 && input != scratchpad
      modifies scratchpad
      ensures Repeats(scratchpad[..], Seed(keccak, input[..]))
    {
      hide Absorbed, Folded;
      var state := new bv64[LANES](i => 0);
      assert state[..] == seq(LANES, i => 0);
      XorIntoState(state, input);
      var lanes: State := keccak(state[..]);
      var keccakHash := FoldLanes(lanes);
      ghost var seed := Seed(keccak, input[..]);
      assert forall j :: 0 <= j < BLOCK ==> seed[j] == keccakHash[j] ^ input[j];
      hide Seed;
      FillBlocks(keccakHash, input, seed);
    }

    method FillBlocks(aesIV: array<bv8>, input: array<bv8>, ghost seed: seq<bv8>)
      requires scratchpad.Length == SCRATCHPAD && input.Length == 76 && aesIV.Length >= BLOCK
      requires input != scratchpad && aesIV != scratchpad && |seed| == BLOCK
      requires forall j :: 0 <= j < BLOCK ==> seed[j] == aesIV[j] ^ input[j]
      modifies scratchpad
      ensures Repeats(scratchpad[..], seed)
    {
      var i := 0;
      while i < SCRATCHPAD
        invariant 0 <= i <= SCRATCHPAD && i % BLOCK == 0
        invariant forall k :: 0 <= k < i ==> scratchpad[k] == seed[k % BLOCK]
      {
        for j := 0 to BLOCK
          invariant forall k :: 0 <= k < i + j ==> scratchpad[k] == seed[k % BLOCK]
        {
          assert (i + j) % BLOCK == j;
          scratchpad[i + j] := aesIV[j] ^ input[j % input.Length];
        }
        i := i + BLOCK;
      }
    }

    /** One turn of mainLoop's body; p is 0 and then 16. */
    method StirOnce()
      requires scratchpad.Length == SCRATCHPAD
      modifies scratchpad
      ensures scratchpad[..] == Stirred(old(scratchpad[..]))
    {
      hide Octet;
      ghost var was := scratchpad[..];
      var p := 0;
      for j := 0 to 16
        invariant forall k :: 0 <= k < SCRATCHPAD ==> scratchpad[k] == if k < j then was[k] ^ Mask(k) else was[k]
      {
        scratchpad[p + j] := scratchpad[p + j] ^ Octet(j);
      }
      p := (p + 16) % SCRATCHPAD;
      for j := 0 to 16
        invariant forall k :: 0 <= k < SCRATCHPAD ==> scratchpad[k] == if k < 16 + j then was[k] ^ Mask(k) else was[k]
      {
        scratchpad[p + j] := scratchpad[p + j] ^ Octet(j * 3);
      }
    }

    method MainLoop(iterations: nat)
      requires scratchpad.Length == SCRATCHPAD
      modifies scratchpad
      ensures scratchpad[..] == StirredTimes(old(scratchpad[..]), iterations)
    {
      for i := 0 to iterations
        invariant scratchpad[..] == StirredTimes(old(scratchpad[..]), i)
      {
        StirOnce();
      }
    }

    /**
     Whatever Keccak returned and whatever the scratchpad held, the digest is
     sixteen bytes twice: the folded lanes XOR the start of the input.
     */
    method Hash(input: array<bv8>, inputLen: nat, nonce: nat, outDigest: array<bv8>)
      requires scratchpad.Length == SCRATCHPAD && inputLen <= input.Length && outDigest.Length == 32
      requires nonce < 0x1_0000_0000 && outDigest != scratchpad && input != scratchpad && input != outDigest
      modifies scratchpad, outDigest
      ensures var seed := Seed(keccak, Block(input[..inputLen], nonce));
              outDigest[..] == seed + seed
    {
      hide Seed, Block;
      var inputWithNonce := WithNonce(input, inputLen, nonce);
      InitScratchpad(inputWithNonce);
      ghost var filled := scratchpad[..];
      hide Repeats;
      MainLoop(ITERATIONS);
      StirringIsParity(filled, ITERATIONS);
      CopyOut(outDigest);
      TwoCopies(filled, Seed(keccak, Block(input[..inputLen], nonce)));
    }

    method CopyOut(outDigest: array<bv8>)
      requires scratchpad.Length == SCRATCHPAD && outDigest.Length == 32 && outDigest != scratchpad
      modifies outDigest
      ensures outDigest[..] == scratchpad[..32]
    {
      for i := 0 to outDigest.Length
        invariant forall k :: 0 <= k < i ==> outDigest[k] == scratchpad[k]
      {
        outDigest[i] := scratchpad[i % SCRATCHPAD];
      }
    }
  }
}
