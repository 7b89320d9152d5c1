/**
 Where the bytes of the CryptoNight pipeline stand and what they are worth as numbers.
 */
module CryptonightLayout {
  import opened Octets
  import opened Lanes
  import opened Cryptonight
  import Sha256d

  /** The four nonce bytes are the nonce, least significant first. */
  lemma NonceIsLittleEndian(nonce: nat)
    requires nonce < 0x1_0000_0000
    ensures var b := Sha256d.NonceBytes(nonce);
            b[0] as nat + 256 * b[1] as nat + 65536 * b[2] as nat + 16777216 * b[3] as nat == nonce
  {
    OctetValue(nonce % 256);
    OctetValue(nonce / 0x100 % 256);
    OctetValue(nonce / 0x1_0000 % 256);
    OctetValue(nonce / 0x100_0000 % 256);
    hide Octet;
    Sha256d.FromOctets(nonce);
  }

  /** The block: up to 72 bytes of the input, zeros up to byte 72, and the nonce in bytes 72 to 75. */
  lemma BlockLayout(input: seq<bv8>, nonce: nat)
    requires nonce < 0x1_0000_0000
    ensures var b := Block(input, nonce);
            && |b| == 76
            && (forall k :: 0 <= k < 72 ==> b[k] == if k < |input| then input[k] else 0)
            && b[72] as nat + 256 * b[73] as nat + 65536 * b[74] as nat + 16777216 * b[75] as nat == nonce
  {
    NonceIsLittleEndian(nonce);
    hide Sha256d.NonceBytes;
    var b, tail := Block(input, nonce), Sha256d.NonceBytes(nonce);
    assert b[72] == tail[0] && b[73] == tail[1] && b[74] == tail[2] && b[75] == tail[3];
  }

  /** A turn of the main loop XORs k into byte k below 16, three times k into byte 16 + k, nothing beyond. */
  lemma TurnByNumber(pad: seq<bv8>, k: nat)
    requires k < |pad|
    ensures exists m: bv8 :: Stirred(pad)[k] == Xor8(pad[k], m) && m as nat == Turned(k)
  {
    if k < 16 {
      OctetValue(k);
    } else if k < 32 {
      OctetValue((k - 16) * 3);
    }
    hide Octet;
    assert Stirred(pad)[k] == Xor8(pad[k], Mask(k));
    assert Mask(k) as nat == Turned(k);
  }

  function Turned(k: nat): nat {
    if k < 16 then k else if k < 32 then 3 * (k - 16) else 0
  }

  /** Lanes are little endian: byte b of a lane is worth 256^b. */
  lemma LanesAreLittleEndian(b: nat)
    requires b < 8
    ensures LaneByte(0x0807_0605_0403_0201, b) as nat == b + 1
  {
    match b
    case 0 => case 1 => case 2 => case 3 => case 4 => case 5 => case 6 => case 7 =>
  }

  /** Lane i of a freshly absorbed input is eight of its bytes: byte k of the input is in lane k / 8. */
  lemma InputInLanes(input: seq<bv8>, lane: nat, b: nat)
    requires |input| <= 200 && lane < 25 && b < 8
    ensures LaneByte(Absorbed(seq(25, i => 0), input)[lane], b)
         == if 8 * lane + b < |input| then input[8 * lane + b] else 0
  {
    AbsorbedFromZero(input, 8 * lane + b);
    assert (8 * lane + b) / 8 == lane && (8 * lane + b) % 8 == b;
    hide LaneByte, Absorbed;
  }
}
