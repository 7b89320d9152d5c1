/**
 Where the nonce goes in a blob, by the blob's length and its last characters.
 */
module BlobLayout {
  import opened Hex
  import opened Nonces
  import opened Blob

  /** The characters before the eight that are replaced. */
  function Before(blob: string): nat
    requires |blob| >= 8
  {
    var whole := |blob| / 2 * 2;
    if |blob| < 16 then 0
    else if |blob| >= 24 && blob[whole - 8..whole] == "01234567" then whole - 10
    else whole - 8
  }

  /**
   Below eight whole bytes the nonce goes to the front, else over the last four, or one
   byte earlier if those are 01, 23, 45 and 67 and there are twelve bytes at least.
   */
  lemma NonceGoesTo(blob: string, nonce: nat)
    requires |blob| >= 8 && nonce < 0x1_0000_0000
    ensures var c := Before(blob);
            && c + 8 <= |blob|
            && Patched(blob, nonce) == blob[..c] + ToHex(nonce, 8) + blob[c + 8..]
            && |ToHex(nonce, 8)| == 8 && LowerHex(ToHex(nonce, 8))
            && AllHex(ToHex(nonce, 8)) && HexValue(ToHex(nonce, 8)) == nonce
  {
    FitsEight(nonce);
    ToHexValue(nonce, 8);
    ToHexIsLower(nonce, 8);
    hide ToHex, HexValue;
    assert Before(blob) == 2 * Slot(blob);
  }

  /** The bytes hashed: byte k is worth the digits 2k and 2k + 1, the first of them sixteen times. */
  lemma BytesByDigits(blob: string, k: nat)
    requires AllHex(blob) && 2 * k + 1 < |blob|
    ensures |RawBytes(blob)| == |blob| / 2
    ensures RawBytes(blob)[k] == 16 * HexDigit(blob[2 * k]) + HexDigit(blob[2 * k + 1])
  {
  }

  /** Workers start 2^24 apart, and all arithmetic is modulo 2^32. */
  lemma NoncesByNumber()
    ensures StartNonce(0) == 0 && StartNonce(1) == 16777216 && StartNonce(255) == 4278190080 && StartNonce(256) == 0
    ensures NonceAt(4294967295, 1, 0) == 4294967295 && NonceAt(4294967295, 1, 1) == 0 && NonceAt(5, 7, 3) == 26
  {
  }
}
