/**
 A known answer: the digest of the three bytes "abc", worked out schedule word by word
 and round by round. It holds every constant, rotation, index and byte order of the
 functions in Sha256Spec.dfy to its value.
 */
module Sha256KnownAnswer {
  import opened Sha256Spec
  import opened Sha256Constants
  import opened Sha256Padding
  import opened Octets

  const ABC: seq<Byte> := [0x61, 0x62, 0x63]

  /** The one block "abc" is padded to. */
  predicate IsBlock(m: seq<Byte>) {
    && |m| == 64 && m[0] == 0x61 && m[1] == 0x62 && m[2] == 0x63 && m[3] == 0x80
    && (forall i :: 4 <= i < 63 ==> m[i] == 0) && m[63] == 0x18
  }

  // ------------------------------------------------------------- the schedule

  lemma FirstWord(m: seq<Byte>, t: nat)
    requires IsBlock(m) && t < 16
    ensures W(m, t) == if t == 0 then 0x61626380 else if t == 15 then 0x00000018 else 0
  {
    Zero();
  }

  lemma Zero()
    ensures BigEndian(0, 0, 0, 0) == 0 && BigEndian(0, 0, 0, 0x18) == 0x18
    ensures BigEndian(0x61, 0x62, 0x63, 0x80) == 0x61626380
  {
  }

  lemma NextWord(m: seq<Byte>, t: nat, w2: Word, w7: Word, w15: Word, w16: Word, w: Word)
    requires |m| == 64 && 16 <= t < 64
    requires W(m, t - 2) == w2 && W(m, t - 7) == w7 && W(m, t - 15) == w15 && W(m, t - 16) == w16
    requires Sum4(SmallSigma1(w2), w7, SmallSigma0(w15), w16) == w
    ensures W(m, t) == w
  {
    hide Sum4, SmallSigma0, SmallSigma1;
  }

  lemma Words0(m: seq<Byte>)
    requires IsBlock(m)
    ensures W(m, 0) == 0x61626380 && W(m, 1) == 0x00000000 && W(m, 2) == 0x00000000 && W(m, 3) == 0x00000000
    ensures W(m, 4) == 0x00000000 && W(m, 5) == 0x00000000 && W(m, 6) == 0x00000000 && W(m, 7) == 0x00000000
    ensures W(m, 8) == 0x00000000 && W(m, 9) == 0x00000000 && W(m, 10) == 0x00000000 && W(m, 11) == 0x00000000
    ensures W(m, 12) == 0x00000000 && W(m, 13) == 0x00000000 && W(m, 14) == 0x00000000 && W(m, 15) == 0x00000018
  {
    hide W;
    FirstWord(m, 0);
    FirstWord(m, 1);
    FirstWord(m, 2);
    FirstWord(m, 3);
    FirstWord(m, 4);
    FirstWord(m, 5);
    FirstWord(m, 6);
    FirstWord(m, 7);
    FirstWord(m, 8);
    FirstWord(m, 9);
    FirstWord(m, 10);
    FirstWord(m, 11);
    FirstWord(m, 12);
    FirstWord(m, 13);
    FirstWord(m, 14);
    FirstWord(m, 15);
  }

  lemma Words1(m: seq<Byte>)
    requires |m| == 64 && IsBlock(m)
    ensures W(m, 16) == 0x61626380 && W(m, 17) == 0x000f0000 && W(m, 18) == 0x7da86405 && W(m, 19) == 0x600003c6
    ensures W(m, 20) == 0x3e9d7b78 && W(m, 21) == 0x0183fc00 && W(m, 22) == 0x12dcbfdb && W(m, 23) == 0xe2e2c38e
  {
    hide W, IsBlock;
    Words0(m);
    NextWord(m, 16, 0x00000000, 0x00000000, 0x00000000, 0x61626380, 0x61626380);
    NextWord(m, 17, 0x00000018, 0x00000000, 0x00000000, 0x00000000, 0x000f0000);
    NextWord(m, 18, 0x61626380, 0x00000000, 0x00000000, 0x00000000, 0x7da86405);
    NextWord(m, 19, 0x000f0000, 0x00000000, 0x00000000, 0x00000000, 0x600003c6);
    NextWord(m, 20, 0x7da86405, 0x00000000, 0x00000000, 0x00000000, 0x3e9d7b78);
    NextWord(m, 21, 0x600003c6, 0x00000000, 0x00000000, 0x00000000, 0x0183fc00);
    NextWord(m, 22, 0x3e9d7b78, 0x00000018, 0x00000000, 0x00000000, 0x12dcbfdb);
    NextWord(m, 23, 0x0183fc00, 0x61626380, 0x00000000, 0x00000000, 0xe2e2c38e);
  }

  lemma Words2(m: seq<Byte>)
    requires |m| == 64 && IsBlock(m)
    ensures W(m, 24) == 0xc8215c1a && W(m, 25) == 0xb73679a2 && W(m, 26) == 0xe5bc3909 && W(m, 27) == 0x32663c5b
    ensures W(m, 28) == 0x9d209d67 && W(m, 29) == 0xec8726cb && W(m, 30) == 0x702138a4 && W(m, 31) == 0xd3b7973b
  {
    hide W, IsBlock;
    Words0(m);
    Words1(m);
    NextWord(m, 24, 0x12dcbfdb, 0x000f0000, 0x00000000, 0x00000000, 0xc8215c1a);
    NextWord(m, 25, 0xe2e2c38e, 0x7da86405, 0x00000000, 0x00000000, 0xb73679a2);
    NextWord(m, 26, 0xc8215c1a, 0x600003c6, 0x00000000, 0x00000000, 0xe5bc3909);
    NextWord(m, 27, 0xb73679a2, 0x3e9d7b78, 0x00000000, 0x00000000, 0x32663c5b);
    NextWord(m, 28, 0xe5bc3909, 0x0183fc00, 0x00000000, 0x00000000, 0x9d209d67);
    NextWord(m, 29, 0x32663c5b, 0x12dcbfdb, 0x00000000, 0x00000000, 0xec8726cb);
    NextWord(m, 30, 0x9d209d67, 0xe2e2c38e, 0x00000018, 0x00000000, 0x702138a4);
    NextWord(m, 31, 0xec8726cb, 0xc8215c1a, 0x61626380, 0x00000018, 0xd3b7973b);
  }

  lemma Words3(m: seq<Byte>)
    requires |m| == 64 && IsBlock(m)
    ensures W(m, 32) == 0x93f5997f && W(m, 33) == 0x3b68ba73 && W(m, 34) == 0xaff4ffc1 && W(m, 35) == 0xf10a5c62
    ensures W(m, 36) == 0x0a8b3996 && W(m, 37) == 0x72af830a && W(m, 38) == 0x9409e33e && W(m, 39) == 0x24641522
  {
    hide W, IsBlock;
    Words1(m);
    Words2(m);
    NextWord(m, 32, 0x702138a4, 0xb73679a2, 0x000f0000, 0x61626380, 0x93f5997f);
    NextWord(m, 33, 0xd3b7973b, 0xe5bc3909, 0x7da86405, 0x000f0000, 0x3b68ba73);
    NextWord(m, 34, 0x93f5997f, 0x32663c5b, 0x600003c6, 0x7da86405, 0xaff4ffc1);
    NextWord(m, 35, 0x3b68ba73, 0x9d209d67, 0x3e9d7b78, 0x600003c6, 0xf10a5c62);
    NextWord(m, 36, 0xaff4ffc1, 0xec8726cb, 0x0183fc00, 0x3e9d7b78, 0x0a8b3996);
    NextWord(m, 37, 0xf10a5c62, 0x702138a4, 0x12dcbfdb, 0x0183fc00, 0x72af830a);
    NextWord(m, 38, 0x0a8b3996, 0xd3b7973b, 0xe2e2c38e, 0x12dcbfdb, 0x9409e33e);
    NextWord(m, 39, 0x72af830a, 0x93f5997f, 0xc8215c1a, 0xe2e2c38e, 0x24641522);
  }

  lemma Words4(m: seq<Byte>)
    requires |m| == 64 && IsBlock(m)
    ensures W(m, 40) == 0x9f47bf94 && W(m, 41) == 0xf0a64f5a && W(m, 42) == 0x3e246a79 && W(m, 43) == 0x27333ba3
    ensures W(m, 44) == 0x0c4763f2 && W(m, 45) == 0x840abf27 && W(m, 46) == 0x7a290d5d && W(m, 47) == 0x065c43da
  {
    hide W, IsBlock;
    Words2(m);
    Words3(m);
    NextWord(m, 40, 0x9409e33e, 0x3b68ba73, 0xb73679a2, 0xc8215c1a, 0x9f47bf94);
    NextWord(m, 41, 0x24641522, 0xaff4ffc1, 0xe5bc3909, 0xb73679a2, 0xf0a64f5a);
    NextWord(m, 42, 0x9f47bf94, 0xf10a5c62, 0x32663c5b, 0xe5bc3909, 0x3e246a79);
    NextWord(m, 43, 0xf0a64f5a, 0x0a8b3996, 0x9d209d67, 0x32663c5b, 0x27333ba3);
    NextWord(m, 44, 0x3e246a79, 0x72af830a, 0xec8726cb, 0x9d209d67, 0x0c4763f2);
    NextWord(m, 45, 0x27333ba3, 0x9409e33e, 0x702138a4, 0xec8726cb, 0x840abf27);
    NextWord(m, 46, 0x0c4763f2, 0x24641522, 0xd3b7973b, 0x702138a4, 0x7a290d5d);
    NextWord(m, 47, 0x840abf27, 0x9f47bf94, 0x93f5997f, 0xd3b7973b, 0x065c43da);
  }

  lemma Words5(m: seq<Byte>)
    requires |m| == 64 && IsBlock(m)
    ensures W(m, 48) == 0xfb3e89cb && W(m, 49) == 0xcc7617db && W(m, 50) == 0xb9e66c34 && W(m, 51) == 0xa9993667
    ensures W(m, 52) == 0x84badedd && W(m, 53) == 0xc21462bc && W(m, 54) == 0x1487472c && W(m, 55) == 0xb20f7a99
  {
    hide W, IsBlock;
    Words3(m);
    Words4(m);
    NextWord(m, 48, 0x7a290d5d, 0xf0a64f5a, 0x3b68ba73, 0x93f5997f, 0xfb3e89cb);
    NextWord(m, 49, 0x065c43da, 0x3e246a79, 0xaff4ffc1, 0x3b68ba73, 0xcc7617db);
    NextWord(m, 50, 0xfb3e89cb, 0x27333ba3, 0xf10a5c62, 0xaff4ffc1, 0xb9e66c34);
    NextWord(m, 51, 0xcc7617db, 0x0c4763f2, 0x0a8b3996, 0xf10a5c62, 0xa9993667);
    NextWord(m, 52, 0xb9e66c34, 0x840abf27, 0x72af830a, 0x0a8b3996, 0x84badedd);
    NextWord(m, 53, 0xa9993667, 0x7a290d5d, 0x9409e33e, 0x72af830a, 0xc21462bc);
    NextWord(m, 54, 0x84badedd, 0x065c43da, 0x24641522, 0x9409e33e, 0x1487472c);
    NextWord(m, 55, 0xc21462bc, 0xfb3e89cb, 0x9f47bf94, 0x24641522, 0xb20f7a99);
  }

  lemma Words6(m: seq<Byte>)
    requires |m| == 64 && IsBlock(m)
    ensures W(m, 56) == 0xef57b9cd && W(m, 57) == 0xebe6b238 && W(m, 58) == 0x9fe3095e && W(m, 59) == 0x78bc8d4b
    ensures W(m, 60) == 0xa43fcf15 && W(m, 61) == 0x668b2ff8 && W(m, 62) == 0xeeaba2cc && W(m, 63) == 0x12b1edeb
  {
    hide W, IsBlock;
    Words4(m);
    Words5(m);
    NextWord(m, 56, 0x1487472c, 0xcc7617db, 0xf0a64f5a, 0x9f47bf94, 0xef57b9cd);
    NextWord(m, 57, 0xb20f7a99, 0xb9e66c34, 0x3e246a79, 0xf0a64f5a, 0xebe6b238);
    NextWord(m, 58, 0xef57b9cd, 0xa9993667, 0x27333ba3, 0x3e246a79, 0x9fe3095e);
    NextWord(m, 59, 0xebe6b238, 0x84badedd, 0x0c4763f2, 0x27333ba3, 0x78bc8d4b);
    NextWord(m, 60, 0x9fe3095e, 0xc21462bc, 0x840abf27, 0x0c4763f2, 0xa43fcf15);
    NextWord(m, 61, 0x78bc8d4b, 0x1487472c, 0x7a290d5d, 0x840abf27, 0x668b2ff8);
    NextWord(m, 62, 0xa43fcf15, 0xb20f7a99, 0x065c43da, 0x7a290d5d, 0xeeaba2cc);
    NextWord(m, 63, 0x668b2ff8, 0xef57b9cd, 0xfb3e89cb, 0x065c43da, 0x12b1edeb);
  }

  // --------------------------------------------------------------- the rounds

  lemma NextRound(m: seq<Byte>, t: nat, w: Word, k: Word, r: Regs, n: Regs)
    requires |m| == 64 && t < 64 && Rounds(IV, m, t) == r && W(m, t) == w && RoundConstant(t) == k
    requires Round(r, k, w) == n
    ensures Rounds(IV, m, t + 1) == n
  {
    hide Round, W, RoundConstant;
  }

  lemma Rounds0(m: seq<Byte>)
    requires |m| == 64 && IsBlock(m)
    ensures Rounds(IV, m, 4)
         == Regs(0xd550f666, 0xc8c347a7, 0x5a6ad9ad, 0x5d6aebcd, 0x24e00850, 0xf92939eb, 0x78ce7989, 0xfa2a4622)
  {
    assert Rounds(IV, m, 0) == IV;
    Words0(m);
    Constants0();
    hide W, IsBlock, Rounds, RoundConstant;
    var s0 := Regs(0x6a09e667, 0xbb67ae85, 0x3c6ef372, 0xa54ff53a, 0x510e527f, 0x9b05688c, 0x1f83d9ab, 0x5be0cd19);
    var s1 := Regs(0x5d6aebcd, 0x6a09e667, 0xbb67ae85, 0x3c6ef372, 0xfa2a4622, 0x510e527f, 0x9b05688c, 0x1f83d9ab);
    var s2 := Regs(0x5a6ad9ad, 0x5d6aebcd, 0x6a09e667, 0xbb67ae85, 0x78ce7989, 0xfa2a4622, 0x510e527f, 0x9b05688c);
    var s3 := Regs(0xc8c347a7, 0x5a6ad9ad, 0x5d6aebcd, 0x6a09e667, 0xf92939eb, 0x78ce7989, 0xfa2a4622, 0x510e527f);
    var s4 := Regs(0xd550f666, 0xc8c347a7, 0x5a6ad9ad, 0x5d6aebcd, 0x24e00850, 0xf92939eb, 0x78ce7989, 0xfa2a4622);
    NextRound(m, 0, 0x61626380, 0x428a2f98, s0, s1);
    NextRound(m, 1, 0x00000000, 0x71374491, s1, s2);
    NextRound(m, 2, 0x00000000, 0xb5c0fbcf, s2, s3);
    NextRound(m, 3, 0x00000000, 0xe9b5dba5, s3, s4);
  }

  lemma Rounds1(m: seq<Byte>)
    requires |m| == 64 && IsBlock(m)
    ensures Rounds(IV, m, 8)
         == Regs(0x85a07b5f, 0xe5030380, 0x2b4209f5, 0x04409a6a, 0x0c657a79, 0x9b27a401, 0x714260ad, 0x43ada245)
  {
    Rounds0(m);
    Words0(m);
    Constants0();
    hide W, IsBlock, Rounds, RoundConstant;
    var s0 := Regs(0xd550f666, 0xc8c347a7, 0x5a6ad9ad, 0x5d6aebcd, 0x24e00850, 0xf92939eb, 0x78ce7989, 0xfa2a4622);
    var s1 := Regs(0x04409a6a, 0xd550f666, 0xc8c347a7, 0x5a6ad9ad, 0x43ada245, 0x24e00850, 0xf92939eb, 0x78ce7989);
    var s2 := Regs(0x2b4209f5, 0x04409a6a, 0xd550f666, 0xc8c347a7, 0x714260ad, 0x43ada245, 0x24e00850, 0xf92939eb);
    var s3 := Regs(0xe5030380, 0x2b4209f5, 0x04409a6a, 0xd550f666, 0x9b27a401, 0x714260ad, 0x43ada245, 0x24e00850);
    var s4 := Regs(0x85a07b5f, 0xe5030380, 0x2b4209f5, 0x04409a6a, 0x0c657a79, 0x9b27a401, 0x714260ad, 0x43ada245);
    NextRound(m, 4, 0x00000000, 0x3956c25b, s0, s1);
    NextRound(m, 5, 0x00000000, 0x59f111f1, s1, s2);
    NextRound(m, 6, 0x00000000, 0x923f82a4, s2, s3);
    NextRound(m, 7, 0x00000000, 0xab1c5ed5, s3, s4);
  }

  lemma Rounds2(m: seq<Byte>)
    requires |m| == 64 && IsBlock(m)
    ensures Rounds(IV, m, 12)
         == Regs(0xf71fc5a9, 0x4798a3f4, 0x8c87346b, 0x8e04ecb9, 0x816fd6e9, 0x436b23e8, 0x1cc92596, 0x32ca2d8c)
  {
    Rounds1(m);
    Words0(m);
    Constants1();
    hide W, IsBlock, Rounds, RoundConstant;
    var s0 := Regs(0x85a07b5f, 0xe5030380, 0x2b4209f5, 0x04409a6a, 0x0c657a79, 0x9b27a401, 0x714260ad, 0x43ada245);
    var s1 := Regs(0x8e04ecb9, 0x85a07b5f, 0xe5030380, 0x2b4209f5, 0x32ca2d8c, 0x0c657a79, 0x9b27a401, 0x714260ad);
    var s2 := Regs(0x8c87346b, 0x8e04ecb9, 0x85a07b5f, 0xe5030380, 0x1cc92596, 0x32ca2d8c, 0x0c657a79, 0x9b27a401);
    var s3 := Regs(0x4798a3f4, 0x8c87346b, 0x8e04ecb9, 0x85a07b5f, 0x436b23e8, 0x1cc92596, 0x32ca2d8c, 0x0c657a79);
    var s4 := Regs(0xf71fc5a9, 0x4798a3f4, 0x8c87346b, 0x8e04ecb9, 0x816fd6e9, 0x436b23e8, 0x1cc92596, 0x32ca2d8c);
    NextRound(m, 8, 0x00000000, 0xd807aa98, s0, s1);
    NextRound(m, 9, 0x00000000, 0x12835b01, s1, s2);
    NextRound(m, 10, 0x00000000, 0x243185be, s2, s3);
    NextRound(m, 11, 0x00000000, 0x550c7dc3, s3, s4);
  }

  lemma Rounds3(m: seq<Byte>)
    requires |m| == 64 && IsBlock(m)
    ensures Rounds(IV, m, 16)
         == Regs(0xb0fa238e, 0xc0645fde, 0xd932eb16, 0x87912990, 0x07590dcd, 0x0b92f20c, 0x745a48de, 0x1e578218)
  {
    Rounds2(m);
    Words0(m);
    Constants1();
    hide W, IsBlock, Rounds, RoundConstant;
    var s0 := Regs(0xf71fc5a9, 0x4798a3f4, 0x8c87346b, 0x8e04ecb9, 0x816fd6e9, 0x436b23e8, 0x1cc92596, 0x32ca2d8c);
    var s1 := Regs(0x87912990, 0xf71fc5a9, 0x4798a3f4, 0x8c87346b, 0x1e578218, 0x816fd6e9, 0x436b23e8, 0x1cc92596);
    var s2 := Regs(0xd932eb16, 0x87912990, 0xf71fc5a9, 0x4798a3f4, 0x745a48de, 0x1e578218, 0x816fd6e9, 0x436b23e8);
    var s3 := Regs(0xc0645fde, 0xd932eb16, 0x87912990, 0xf71fc5a9, 0x0b92f20c, 0x745a48de, 0x1e578218, 0x816fd6e9);
    var s4 := Regs(0xb0fa238e, 0xc0645fde, 0xd932eb16, 0x87912990, 0x07590dcd, 0x0b92f20c, 0x745a48de, 0x1e578218);
    NextRound(m, 12, 0x00000000, 0x72be5d74, s0, s1);
    NextRound(m, 13, 0x00000000, 0x80deb1fe, s1, s2);
    NextRound(m, 14, 0x00000000, 0x9bdc06a7, s2, s3);
    NextRound(m, 15, 0x00000018, 0xc19bf174, s3, s4);
  }

  lemma Rounds4(m: seq<Byte>)
    requires |m| == 64 && IsBlock(m)
    ensures Rounds(IV, m, 20)
         == Regs(0xe1f20c33, 0xfe777bbf, 0xc2fbd9d1, 0x21da9a9b, 0xb0638179, 0xcc899961, 0x846ee454, 0x8034229c)
  {
    Rounds3(m);
    Words1(m);
    Constants2();
    hide W, IsBlock, Rounds, RoundConstant;
    var s0 := Regs(0xb0fa238e, 0xc0645fde, 0xd932eb16, 0x87912990, 0x07590dcd, 0x0b92f20c, 0x745a48de, 0x1e578218);
    var s1 := Regs(0x21da9a9b, 0xb0fa238e, 0xc0645fde, 0xd932eb16, 0x8034229c, 0x07590dcd, 0x0b92f20c, 0x745a48de);
    var s2 := Regs(0xc2fbd9d1, 0x21da9a9b, 0xb0fa238e, 0xc0645fde, 0x846ee454, 0x8034229c, 0x07590dcd, 0x0b92f20c);
    var s3 := Regs(0xfe777bbf, 0xc2fbd9d1, 0x21da9a9b, 0xb0fa238e, 0xcc899961, 0x846ee454, 0x8034229c, 0x07590dcd);
    var s4 := Regs(0xe1f20c33, 0xfe777bbf, 0xc2fbd9d1, 0x21da9a9b, 0xb0638179, 0xcc899961, 0x846ee454, 0x8034229c);
    NextRound(m, 16, 0x61626380, 0xe49b69c1, s0, s1);
    NextRound(m, 17, 0x000f0000, 0xefbe4786, s1, s2);
    NextRound(m, 18, 0x7da86405, 0x0fc19dc6, s2, s3);
    NextRound(m, 19, 0x600003c6, 0x240ca1cc, s3, s4);
  }

  lemma Rounds5(m: seq<Byte>)
    requires |m| == 64 && IsBlock(m)
    ensures Rounds(IV, m, 24)
         == Regs(0xc5d53d8d, 0xa7a3623f, 0xc2606d6d, 0x9dc68b63, 0xaa47c347, 0x49f5114a, 0xe1257970, 0x8ada8930)
  {
    Rounds4(m);
    Words1(m);
    Constants2();
    hide W, IsBlock, Rounds, RoundConstant;
    var s0 := Regs(0xe1f20c33, 0xfe777bbf, 0xc2fbd9d1, 0x21da9a9b, 0xb0638179, 0xcc899961, 0x846ee454, 0x8034229c);
    var s1 := Regs(0x9dc68b63, 0xe1f20c33, 0xfe777bbf, 0xc2fbd9d1, 0x8ada8930, 0xb0638179, 0xcc899961, 0x846ee454);
    var s2 := Regs(0xc2606d6d, 0x9dc68b63, 0xe1f20c33, 0xfe777bbf, 0xe1257970, 0x8ada8930, 0xb0638179, 0xcc899961);
    var s3 := Regs(0xa7a3623f, 0xc2606d6d, 0x9dc68b63, 0xe1f20c33, 0x49f5114a, 0xe1257970, 0x8ada8930, 0xb0638179);
    var s4 := Regs(0xc5d53d8d, 0xa7a3623f, 0xc2606d6d, 0x9dc68b63, 0xaa47c347, 0x49f5114a, 0xe1257970, 0x8ada8930);
    NextRound(m, 20, 0x3e9d7b78, 0x2de92c6f, s0, s1);
    NextRound(m, 21, 0x0183fc00, 0x4a7484aa, s1, s2);
    NextRound(m, 22, 0x12dcbfdb, 0x5cb0a9dc, s2, s3);
    NextRound(m, 23, 0xe2e2c38e, 0x76f988da, s3, s4);
  }

  lemma Rounds6(m: seq<Byte>)
    requires |m| == 64 && IsBlock(m)
    ensures Rounds(IV, m, 28)
         == Regs(0x77d37528, 0xb62ec4bc, 0xcde8037d, 0x1c2c2838, 0xedffbff8, 0xc74c6516, 0x14383d8e, 0x2823ef91)
  {
    Rounds5(m);
    Words2(m);
    Constants3();
    hide W, IsBlock, Rounds, RoundConstant;
    var s0 := Regs(0xc5d53d8d, 0xa7a3623f, 0xc2606d6d, 0x9dc68b63, 0xaa47c347, 0x49f5114a, 0xe1257970, 0x8ada8930);
    var s1 := Regs(0x1c2c2838, 0xc5d53d8d, 0xa7a3623f, 0xc2606d6d, 0x2823ef91, 0xaa47c347, 0x49f5114a, 0xe1257970);
    var s2 := Regs(0xcde8037d, 0x1c2c2838, 0xc5d53d8d, 0xa7a3623f, 0x14383d8e, 0x2823ef91, 0xaa47c347, 0x49f5114a);
    var s3 := Regs(0xb62ec4bc, 0xcde8037d, 0x1c2c2838, 0xc5d53d8d, 0xc74c6516, 0x14383d8e, 0x2823ef91, 0xaa47c347);
    var s4 := Regs(0x77d37528, 0xb62ec4bc, 0xcde8037d, 0x1c2c2838, 0xedffbff8, 0xc74c6516, 0x14383d8e, 0x2823ef91);
    NextRound(m, 24, 0xc8215c1a, 0x983e5152, s0, s1);
    NextRound(m, 25, 0xb73679a2, 0xa831c66d, s1, s2);
    NextRound(m, 26, 0xe5bc3909, 0xb00327c8, s2, s3);
    NextRound(m, 27, 0x32663c5b, 0xbf597fc7, s3, s4);
  }

  lemma Rounds7(m: seq<Byte>)
    requires |m| == 64 && IsBlock(m)
    ensures Rounds(IV, m, 32)
         == Regs(0x73b33bf5, 0xea992a22, 0xa0060b30, 0x363482c9, 0xba591112, 0x0109ab3a, 0xade79437, 0x6112a3b7)
  {
    Rounds6(m);
    Words2(m);
    Constants3();
    hide W, IsBlock, Rounds, RoundConstant;
    var s0 := Regs(0x77d37528, 0xb62ec4bc, 0xcde8037d, 0x1c2c2838, 0xedffbff8, 0xc74c6516, 0x14383d8e, 0x2823ef91);
    var s1 := Regs(0x363482c9, 0x77d37528, 0xb62ec4bc, 0xcde8037d, 0x6112a3b7, 0xedffbff8, 0xc74c6516, 0x14383d8e);
    var s2 := Regs(0xa0060b30, 0x363482c9, 0x77d37528, 0xb62ec4bc, 0xade79437, 0x6112a3b7, 0xedffbff8, 0xc74c6516);
    var s3 := Regs(0xea992a22, 0xa0060b30, 0x363482c9, 0x77d37528, 0x0109ab3a, 0xade79437, 0x6112a3b7, 0xedffbff8);
    var s4 := Regs(0x73b33bf5, 0xea992a22, 0xa0060b30, 0x363482c9, 0xba591112, 0x0109ab3a, 0xade79437, 0x6112a3b7);
    NextRound(m, 28, 0x9d209d67, 0xc6e00bf3, s0, s1);
    NextRound(m, 29, 0xec8726cb, 0xd5a79147, s1, s2);
    NextRound(m, 30, 0x702138a4, 0x06ca6351, s2, s3);
    NextRound(m, 31, 0xd3b7973b, 0x14292967, s3, s4);
  }

  lemma Rounds8(m: seq<Byte>)
    requires |m| == 64 && IsBlock(m)
    ensures Rounds(IV, m, 36)
         == Regs(0x65a0cfe4, 0xa9a7738c, 0xfe604df5, 0x98e12507, 0xf4b002d6, 0x085f3833, 0x59249dd3, 0x9cd9f5f6)
  {
    Rounds7(m);
    Words3(m);
    Constants4();
    hide W, IsBlock, Rounds, RoundConstant;
    var s0 := Regs(0x73b33bf5, 0xea992a22, 0xa0060b30, 0x363482c9, 0xba591112, 0x0109ab3a, 0xade79437, 0x6112a3b7);
    var s1 := Regs(0x98e12507, 0x73b33bf5, 0xea992a22, 0xa0060b30, 0x9cd9f5f6, 0xba591112, 0x0109ab3a, 0xade79437);
    var s2 := Regs(0xfe604df5, 0x98e12507, 0x73b33bf5, 0xea992a22, 0x59249dd3, 0x9cd9f5f6, 0xba591112, 0x0109ab3a);
    var s3 := Regs(0xa9a7738c, 0xfe604df5, 0x98e12507, 0x73b33bf5, 0x085f3833, 0x59249dd3, 0x9cd9f5f6, 0xba591112);
    var s4 := Regs(0x65a0cfe4, 0xa9a7738c, 0xfe604df5, 0x98e12507, 0xf4b002d6, 0x085f3833, 0x59249dd3, 0x9cd9f5f6);
    NextRound(m, 32, 0x93f5997f, 0x27b70a85, s0, s1);
    NextRound(m, 33, 0x3b68ba73, 0x2e1b2138, s1, s2);
    NextRound(m, 34, 0xaff4ffc1, 0x4d2c6dfc, s2, s3);
    NextRound(m, 35, 0xf10a5c62, 0x53380d13, s3, s4);
  }

  lemma Rounds9(m: seq<Byte>)
    requires |m| == 64 && IsBlock(m)
    ensures Rounds(IV, m, 40)
         == Regs(0x79ea687a, 0x6dc57a8a, 0x34df1604, 0x41a65cb1, 0x1efbc0a0, 0xf0781bc8, 0xa507a53d, 0x0772a26b)
  {
    Rounds8(m);
    Words3(m);
    Constants4();
    hide W, IsBlock, Rounds, RoundConstant;
    var s0 := Regs(0x65a0cfe4, 0xa9a7738c, 0xfe604df5, 0x98e12507, 0xf4b002d6, 0x085f3833, 0x59249dd3, 0x9cd9f5f6);
    var s1 := Regs(0x41a65cb1, 0x65a0cfe4, 0xa9a7738c, 0xfe604df5, 0x0772a26b, 0xf4b002d6, 0x085f3833, 0x59249dd3);
    var s2 := Regs(0x34df1604, 0x41a65cb1, 0x65a0cfe4, 0xa9a7738c, 0xa507a53d, 0x0772a26b, 0xf4b002d6, 0x085f3833);
    var s3 := Regs(0x6dc57a8a, 0x34df1604, 0x41a65cb1, 0x65a0cfe4, 0xf0781bc8, 0xa507a53d, 0x0772a26b, 0xf4b002d6);
    var s4 := Regs(0x79ea687a, 0x6dc57a8a, 0x34df1604, 0x41a65cb1, 0x1efbc0a0, 0xf0781bc8, 0xa507a53d, 0x0772a26b);
    NextRound(m, 36, 0x0a8b3996, 0x650a7354, s0, s1);
    NextRound(m, 37, 0x72af830a, 0x766a0abb, s1, s2);
    NextRound(m, 38, 0x9409e33e, 0x81c2c92e, s2, s3);
    NextRound(m, 39, 0x24641522, 0x92722c85, s3, s4);
  }

  lemma Rounds10(m: seq<Byte>)
    requires |m| == 64 && IsBlock(m)
    ensures Rounds(IV, m, 44)
         == Regs(0x9d4baf93, 0x17aa0dfe, 0xdf46652f, 0xd6670766, 0xfda24c2e, 0xdecd4715, 0x838b2711, 0x26352d63)
  {
    Rounds9(m);
    Words4(m);
    Constants5();
    hide W, IsBlock, Rounds, RoundConstant;
    var s0 := Regs(0x79ea687a, 0x6dc57a8a, 0x34df1604, 0x41a65cb1, 0x1efbc0a0, 0xf0781bc8, 0xa507a53d, 0x0772a26b);
    var s1 := Regs(0xd6670766, 0x79ea687a, 0x6dc57a8a, 0x34df1604, 0x26352d63, 0x1efbc0a0, 0xf0781bc8, 0xa507a53d);
    var s2 := Regs(0xdf46652f, 0xd6670766, 0x79ea687a, 0x6dc57a8a, 0x838b2711, 0x26352d63, 0x1efbc0a0, 0xf0781bc8);
    var s3 := Regs(0x17aa0dfe, 0xdf46652f, 0xd6670766, 0x79ea687a, 0xdecd4715, 0x838b2711, 0x26352d63, 0x1efbc0a0);
    var s4 := Regs(0x9d4baf93, 0x17aa0dfe, 0xdf46652f, 0xd6670766, 0xfda24c2e, 0xdecd4715, 0x838b2711, 0x26352d63);
    NextRound(m, 40, 0x9f47bf94, 0xa2bfe8a1, s0, s1);
    NextRound(m, 41, 0xf0a64f5a, 0xa81a664b, s1, s2);
    NextRound(m, 42, 0x3e246a79, 0xc24b8b70, s2, s3);
    NextRound(m, 43, 0x27333ba3, 0xc76c51a3, s3, s4);
  }

  lemma Rounds11(m: seq<Byte>)
    requires |m| == 64 && IsBlock(m)
    ensures Rounds(IV, m, 48)
         == Regs(0x4172328d, 0xa14c14b0, 0x72ab4b91, 0x26628815, 0xfecf0bc6, 0xd57b94a9, 0xb7755da1, 0xa80f11f0)
  {
    Rounds10(m);
    Words4(m);
    Constants5();
    hide W, IsBlock, Rounds, RoundConstant;
    var s0 := Regs(0x9d4baf93, 0x17aa0dfe, 0xdf46652f, 0xd6670766, 0xfda24c2e, 0xdecd4715, 0x838b2711, 0x26352d63);
    var s1 := Regs(0x26628815, 0x9d4baf93, 0x17aa0dfe, 0xdf46652f, 0xa80f11f0, 0xfda24c2e, 0xdecd4715, 0x838b2711);
    var s2 := Regs(0x72ab4b91, 0x26628815, 0x9d4baf93, 0x17aa0dfe, 0xb7755da1, 0xa80f11f0, 0xfda24c2e, 0xdecd4715);
    var s3 := Regs(0xa14c14b0, 0x72ab4b91, 0x26628815, 0x9d4baf93, 0xd57b94a9, 0xb7755da1, 0xa80f11f0, 0xfda24c2e);
    var s4 := Regs(0x4172328d, 0xa14c14b0, 0x72ab4b91, 0x26628815, 0xfecf0bc6, 0xd57b94a9, 0xb7755da1, 0xa80f11f0);
    NextRound(m, 44, 0x0c4763f2, 0xd192e819, s0, s1);
    NextRound(m, 45, 0x840abf27, 0xd6990624, s1, s2);
    NextRound(m, 46, 0x7a290d5d, 0xf40e3585, s2, s3);
    NextRound(m, 47, 0x065c43da, 0x106aa070, s3, s4);
  }

  lemma Rounds12(m: seq<Byte>)
    requires |m| == 64 && IsBlock(m)
    ensures Rounds(IV, m, 52)
         == Regs(0x886e7a22, 0x7a0508a1, 0xf11bfaa8, 0x05757ceb, 0x49231c1e, 0x52f1ccf7, 0x6e5c390c, 0xbd714038)
  {
    Rounds11(m);
    Words5(m);
    Constants6();
    hide W, IsBlock, Rounds, RoundConstant;
    var s0 := Regs(0x4172328d, 0xa14c14b0, 0x72ab4b91, 0x26628815, 0xfecf0bc6, 0xd57b94a9, 0xb7755da1, 0xa80f11f0);
    var s1 := Regs(0x05757ceb, 0x4172328d, 0xa14c14b0, 0x72ab4b91, 0xbd714038, 0xfecf0bc6, 0xd57b94a9, 0xb7755da1);
    var s2 := Regs(0xf11bfaa8, 0x05757ceb, 0x4172328d, 0xa14c14b0, 0x6e5c390c, 0xbd714038, 0xfecf0bc6, 0xd57b94a9);
    var s3 := Regs(0x7a0508a1, 0xf11bfaa8, 0x05757ceb, 0x4172328d, 0x52f1ccf7, 0x6e5c390c, 0xbd714038, 0xfecf0bc6);
    var s4 := Regs(0x886e7a22, 0x7a0508a1, 0xf11bfaa8, 0x05757ceb, 0x49231c1e, 0x52f1ccf7, 0x6e5c390c, 0xbd714038);
    NextRound(m, 48, 0xfb3e89cb, 0x19a4c116, s0, s1);
    NextRound(m, 49, 0xcc7617db, 0x1e376c08, s1, s2);
    NextRound(m, 50, 0xb9e66c34, 0x2748774c, s2, s3);
    NextRound(m, 51, 0xa9993667, 0x34b0bcb5, s3, s4);
  }

  lemma Rounds13(m: seq<Byte>)
    requires |m| == 64 && IsBlock(m)
    ensures Rounds(IV, m, 56)
         == Regs(0x38cc9913, 0x3ec45cdb, 0xf5702fdb, 0x101fd28f, 0x54cb266b, 0xe50e1b4f, 0x9f4787c3, 0x529e7d00)
  {
    Rounds12(m);
    Words5(m);
    Constants6();
    hide W, IsBlock, Rounds, RoundConstant;
    var s0 := Regs(0x886e7a22, 0x7a0508a1, 0xf11bfaa8, 0x05757ceb, 0x49231c1e, 0x52f1ccf7, 0x6e5c390c, 0xbd714038);
    var s1 := Regs(0x101fd28f, 0x886e7a22, 0x7a0508a1, 0xf11bfaa8, 0x529e7d00, 0x49231c1e, 0x52f1ccf7, 0x6e5c390c);
    var s2 := Regs(0xf5702fdb, 0x101fd28f, 0x886e7a22, 0x7a0508a1, 0x9f4787c3, 0x529e7d00, 0x49231c1e, 0x52f1ccf7);
    var s3 := Regs(0x3ec45cdb, 0xf5702fdb, 0x101fd28f, 0x886e7a22, 0xe50e1b4f, 0x9f4787c3, 0x529e7d00, 0x49231c1e);
    var s4 := Regs(0x38cc9913, 0x3ec45cdb, 0xf5702fdb, 0x101fd28f, 0x54cb266b, 0xe50e1b4f, 0x9f4787c3, 0x529e7d00);
    NextRound(m, 52, 0x84badedd, 0x391c0cb3, s0, s1);
    NextRound(m, 53, 0xc21462bc, 0x4ed8aa4a, s1, s2);
    NextRound(m, 54, 0x1487472c, 0x5b9cca4f, s2, s3);
    NextRound(m, 55, 0xb20f7a99, 0x682e6ff3, s3, s4);
  }

  lemma Rounds14(m: seq<Byte>)
    requires |m| == 64 && IsBlock(m)
    ensures Rounds(IV, m, 60)
         == Regs(0xb6ae8fff, 0xffb70472, 0xc062d46f, 0xfcd1887b, 0xb21bad3d, 0x6d83bfc6, 0x7e44008e, 0x9b5e906c)
  {
    Rounds13(m);
    Words6(m);
    Constants7();
    hide W, IsBlock, Rounds, RoundConstant;
    var s0 := Regs(0x38cc9913, 0x3ec45cdb, 0xf5702fdb, 0x101fd28f, 0x54cb266b, 0xe50e1b4f, 0x9f4787c3, 0x529e7d00);
    var s1 := Regs(0xfcd1887b, 0x38cc9913, 0x3ec45cdb, 0xf5702fdb, 0x9b5e906c, 0x54cb266b, 0xe50e1b4f, 0x9f4787c3);
    var s2 := Regs(0xc062d46f, 0xfcd1887b, 0x38cc9913, 0x3ec45cdb, 0x7e44008e, 0x9b5e906c, 0x54cb266b, 0xe50e1b4f);
    var s3 := Regs(0xffb70472, 0xc062d46f, 0xfcd1887b, 0x38cc9913, 0x6d83bfc6, 0x7e44008e, 0x9b5e906c, 0x54cb266b);
    var s4 := Regs(0xb6ae8fff, 0xffb70472, 0xc062d46f, 0xfcd1887b, 0xb21bad3d, 0x6d83bfc6, 0x7e44008e, 0x9b5e906c);
    NextRound(m, 56, 0xef57b9cd, 0x748f82ee, s0, s1);
    NextRound(m, 57, 0xebe6b238, 0x78a5636f, s1, s2);
    NextRound(m, 58, 0x9fe3095e, 0x84c87814, s2, s3);
    NextRound(m, 59, 0x78bc8d4b, 0x8cc70208, s3, s4);
  }

  lemma Rounds15(m: seq<Byte>)
    requires |m| == 64 && IsBlock(m)
    ensures Rounds(IV, m, 64)
         == Regs(0x506e3058, 0xd39a2165, 0x04d24d6c, 0xb85e2ce9, 0x5ef50f24, 0xfb121210, 0x948d25b6, 0x961f4894)
  {
    Rounds14(m);
    Words6(m);
    Constants7();
    hide W, IsBlock, Rounds, RoundConstant;
    var s0 := Regs(0xb6ae8fff, 0xffb70472, 0xc062d46f, 0xfcd1887b, 0xb21bad3d, 0x6d83bfc6, 0x7e44008e, 0x9b5e906c);
    var s1 := Regs(0xb85e2ce9, 0xb6ae8fff, 0xffb70472, 0xc062d46f, 0x961f4894, 0xb21bad3d, 0x6d83bfc6, 0x7e44008e);
    var s2 := Regs(0x04d24d6c, 0xb85e2ce9, 0xb6ae8fff, 0xffb70472, 0x948d25b6, 0x961f4894, 0xb21bad3d, 0x6d83bfc6);
    var s3 := Regs(0xd39a2165, 0x04d24d6c, 0xb85e2ce9, 0xb6ae8fff, 0xfb121210, 0x948d25b6, 0x961f4894, 0xb21bad3d);
    var s4 := Regs(0x506e3058, 0xd39a2165, 0x04d24d6c, 0xb85e2ce9, 0x5ef50f24, 0xfb121210, 0x948d25b6, 0x961f4894);
    NextRound(m, 60, 0xa43fcf15, 0x90befffa, s0, s1);
    NextRound(m, 61, 0x668b2ff8, 0xa4506ceb, s1, s2);
    NextRound(m, 62, 0xeeaba2cc, 0xbef9a3f7, s2, s3);
    NextRound(m, 63, 0x12b1edeb, 0xc67178f2, s3, s4);
  }

  // --------------------------------------------------------------- the digest

  lemma PaddedAbc()
    ensures IsBlock(Pad(ABC))
  {
    PadLayout(ABC);
    var p := Pad(ABC);
    assert |p| == 64 && p[..3] == ABC;
    assert p[0] == p[..3][0] && p[1] == p[..3][1] && p[2] == p[..3][2];
    LengthBytes();
    hide Pad, LengthByte;
    forall i | 56 <= i < 64 ensures p[i] == LengthByte(24, i - 56) {
      assert p[56..][i - 56] == p[i];
    }
  }

  lemma LengthBytes()
    ensures BitLength(3) == 24 && LengthByte(24, 7) == 0x18
    ensures forall i :: 0 <= i < 7 ==> LengthByte(24, i) == 0
  {
    SmallOctets();
    assert ShiftBytes(24, 0) == 24;
    forall i | 0 <= i < 7 ensures LengthByte(24, i) == 0 {
      NoneLeft(6 - i);
      assert ShiftBytes(24, 7 - i) == ShiftBytes(0, 6 - i);
      hide Octet, ShiftBytes;
    }
    hide Octet, ShiftBytes;
  }

  lemma SmallOctets()
    ensures Octet(24) == 0x18 && Octet(0) == 0
  {
  }

  lemma {:induction false} NoneLeft(k: nat)
    ensures ShiftBytes(0, k) == 0
  {
    if k > 0 {
      NoneLeft(k - 1);
    }
  }

  lemma FinalWords()
    ensures Add(IV,
        Regs(0x506e3058, 0xd39a2165, 0x04d24d6c, 0xb85e2ce9, 0x5ef50f24, 0xfb121210, 0x948d25b6, 0x961f4894))
      == Regs(0xba7816bf, 0x8f01cfea, 0x414140de, 0x5dae2223, 0xb00361a3, 0x96177a9c, 0xb410ff61, 0xf20015ad)
  {
  }

  lemma Bytes0()
    ensures ByteOf(0xba7816bf, 0) == 0xba && ByteOf(0xba7816bf, 1) == 0x78
    ensures ByteOf(0xba7816bf, 2) == 0x16 && ByteOf(0xba7816bf, 3) == 0xbf
  {
  }

  lemma Bytes1()
    ensures ByteOf(0x8f01cfea, 0) == 0x8f && ByteOf(0x8f01cfea, 1) == 0x01
    ensures ByteOf(0x8f01cfea, 2) == 0xcf && ByteOf(0x8f01cfea, 3) == 0xea
  {
  }

  lemma Bytes2()
    ensures ByteOf(0x414140de, 0) == 0x41 && ByteOf(0x414140de, 1) == 0x41
    ensures ByteOf(0x414140de, 2) == 0x40 && ByteOf(0x414140de, 3) == 0xde
  {
  }

  lemma Bytes3()
    ensures ByteOf(0x5dae2223, 0) == 0x5d && ByteOf(0x5dae2223, 1) == 0xae
    ensures ByteOf(0x5dae2223, 2) == 0x22 && ByteOf(0x5dae2223, 3) == 0x23
  {
  }

  lemma Bytes4()
    ensures ByteOf(0xb00361a3, 0) == 0xb0 && ByteOf(0xb00361a3, 1) == 0x03
    ensures ByteOf(0xb00361a3, 2) == 0x61 && ByteOf(0xb00361a3, 3) == 0xa3
  {
  }

  lemma Bytes5()
    ensures ByteOf(0x96177a9c, 0) == 0x96 && ByteOf(0x96177a9c, 1) == 0x17
    ensures ByteOf(0x96177a9c, 2) == 0x7a && ByteOf(0x96177a9c, 3) == 0x9c
  {
  }

  lemma Bytes6()
    ensures ByteOf(0xb410ff61, 0) == 0xb4 && ByteOf(0xb410ff61, 1) == 0x10
    ensures ByteOf(0xb410ff61, 2) == 0xff && ByteOf(0xb410ff61, 3) == 0x61
  {
  }

  lemma Bytes7()
    ensures ByteOf(0xf20015ad, 0) == 0xf2 && ByteOf(0xf20015ad, 1) == 0x00
    ensures ByteOf(0xf20015ad, 2) == 0x15 && ByteOf(0xf20015ad, 3) == 0xad
  {
  }

  lemma DigestBytes()
    ensures DigestOf(
        Regs(0xba7816bf, 0x8f01cfea, 0x414140de, 0x5dae2223, 0xb00361a3, 0x96177a9c, 0xb410ff61, 0xf20015ad)) == [
      0xba, 0x78, 0x16, 0xbf, 0x8f, 0x01, 0xcf, 0xea, 0x41, 0x41, 0x40, 0xde, 0x5d, 0xae, 0x22, 0x23,
      0xb0, 0x03, 0x61, 0xa3, 0x96, 0x17, 0x7a, 0x9c, 0xb4, 0x10, 0xff, 0x61, 0xf2, 0x00, 0x15, 0xad]
  {
    hide ByteOf;
    Bytes0();
    Bytes1();
    Bytes2();
    Bytes3();
    Bytes4();
    Bytes5();
    Bytes6();
    Bytes7();
  }

  lemma Sha256OfAbc()
    ensures Sha256(ABC) == [
      0xba, 0x78, 0x16, 0xbf, 0x8f, 0x01, 0xcf, 0xea, 0x41, 0x41, 0x40, 0xde, 0x5d, 0xae, 0x22, 0x23,
      0xb0, 0x03, 0x61, 0xa3, 0x96, 0x17, 0x7a, 0x9c, 0xb4, 0x10, 0xff, 0x61, 0xf2, 0x00, 0x15, 0xad]
  {
    PaddedAbc();
    var m := Pad(ABC);
    Rounds15(m);
    assert m[..64] == m && m[64..] == [];
    FinalWords();
    DigestBytes();
    hide Pad, Rounds, IsBlock, Add, DigestOf;
  }
}
