/** The one-block example of FIPS 180-4: the digest of "abc", round by round. */
module Sha256Example {
  import opened Bytes
  import opened Fips180
  import opened Fips180Message

  /** "abc", one bit, zeros, and the length of 24 bits. */
  const BLOCK: seq<byte> := [97, 98, 99, 0x80] + seq(59, i => 0) + [24]

  lemma BlockBytes()
    ensures |BLOCK| == 64 && BLOCK[0] == 97 && BLOCK[1] == 98 && BLOCK[2] == 99 && BLOCK[3] == 0x80 && BLOCK[63] == 24
    ensures forall k :: 4 <= k < 63 ==> BLOCK[k] == 0
  {
  }

  lemma Expanded(t: nat, w2: word, w7: word, w15: word, w16: word, w: word)
    requires 16 <= t < 64 && |BLOCK| == 64
    requires Schedule(BLOCK, t - 2) == w2 && Schedule(BLOCK, t - 7) == w7
    requires Schedule(BLOCK, t - 15) == w15 && Schedule(BLOCK, t - 16) == w16
    requires Expand(w2, w7, w15, w16) == w
    ensures Schedule(BLOCK, t) == w
  {
    hide Expand;
  }

  lemma Words0()
    ensures |BLOCK| == 64 && Schedule(BLOCK, 0) == 0x61626380
    ensures forall t: nat :: 1 <= t < 8 ==> Schedule(BLOCK, t) == 0
  {
    BlockBytes();
  }

  lemma Words1()
    ensures |BLOCK| == 64 && Schedule(BLOCK, 15) == 24
    ensures forall t: nat :: 8 <= t < 15 ==> Schedule(BLOCK, t) == 0
  {
    BlockBytes();
  }

  lemma Words2()
    ensures Schedule(BLOCK, 16) == 0x61626380 && Schedule(BLOCK, 17) == 0x000f0000
    ensures Schedule(BLOCK, 18) == 0x7da86405 && Schedule(BLOCK, 19) == 0x600003c6
    ensures Schedule(BLOCK, 20) == 0x3e9d7b78 && Schedule(BLOCK, 21) == 0x0183fc00
    ensures Schedule(BLOCK, 22) == 0x12dcbfdb && Schedule(BLOCK, 23) == 0xe2e2c38e
  {
    Words0();
    Words1();
    Expanded(16, 0x00000000, 0x00000000, 0x00000000, 0x61626380, 0x61626380);
    Expanded(17, 0x00000018, 0x00000000, 0x00000000, 0x00000000, 0x000f0000);
    Expanded(18, 0x61626380, 0x00000000, 0x00000000, 0x00000000, 0x7da86405);
    Expanded(19, 0x000f0000, 0x00000000, 0x00000000, 0x00000000, 0x600003c6);
    Expanded(20, 0x7da86405, 0x00000000, 0x00000000, 0x00000000, 0x3e9d7b78);
    Expanded(21, 0x600003c6, 0x00000000, 0x00000000, 0x00000000, 0x0183fc00);
    Expanded(22, 0x3e9d7b78, 0x00000018, 0x00000000, 0x00000000, 0x12dcbfdb);
    Expanded(23, 0x0183fc00, 0x61626380, 0x00000000, 0x00000000, 0xe2e2c38e);
  }

  lemma Words3()
    ensures Schedule(BLOCK, 24) == 0xc8215c1a && Schedule(BLOCK, 25) == 0xb73679a2
    ensures Schedule(BLOCK, 26) == 0xe5bc3909 && Schedule(BLOCK, 27) == 0x32663c5b
    ensures Schedule(BLOCK, 28) == 0x9d209d67 && Schedule(BLOCK, 29) == 0xec8726cb
    ensures Schedule(BLOCK, 30) == 0x702138a4 && Schedule(BLOCK, 31) == 0xd3b7973b
  {
    Words1();
    Words2();
    Expanded(24, 0x12dcbfdb, 0x000f0000, 0x00000000, 0x00000000, 0xc8215c1a);
    Expanded(25, 0xe2e2c38e, 0x7da86405, 0x00000000, 0x00000000, 0xb73679a2);
    Expanded(26, 0xc8215c1a, 0x600003c6, 0x00000000, 0x00000000, 0xe5bc3909);
    Expanded(27, 0xb73679a2, 0x3e9d7b78, 0x00000000, 0x00000000, 0x32663c5b);
    Expanded(28, 0xe5bc3909, 0x0183fc00, 0x00000000, 0x00000000, 0x9d209d67);
    Expanded(29, 0x32663c5b, 0x12dcbfdb, 0x00000000, 0x00000000, 0xec8726cb);
    Expanded(30, 0x9d209d67, 0xe2e2c38e, 0x00000018, 0x00000000, 0x702138a4);
    Expanded(31, 0xec8726cb, 0xc8215c1a, 0x61626380, 0x00000018, 0xd3b7973b);
  }

  lemma Words4()
    ensures Schedule(BLOCK, 32) == 0x93f5997f && Schedule(BLOCK, 33) == 0x3b68ba73
    ensures Schedule(BLOCK, 34) == 0xaff4ffc1 && Schedule(BLOCK, 35) == 0xf10a5c62
    ensures Schedule(BLOCK, 36) == 0x0a8b3996 && Schedule(BLOCK, 37) == 0x72af830a
    ensures Schedule(BLOCK, 38) == 0x9409e33e && Schedule(BLOCK, 39) == 0x24641522
  {
    Words2();
    Words3();
    Expanded(32, 0x702138a4, 0xb73679a2, 0x000f0000, 0x61626380, 0x93f5997f);
    Expanded(33, 0xd3b7973b, 0xe5bc3909, 0x7da86405, 0x000f0000, 0x3b68ba73);
    Expanded(34, 0x93f5997f, 0x32663c5b, 0x600003c6, 0x7da86405, 0xaff4ffc1);
    Expanded(35, 0x3b68ba73, 0x9d209d67, 0x3e9d7b78, 0x600003c6, 0xf10a5c62);
    Expanded(36, 0xaff4ffc1, 0xec8726cb, 0x0183fc00, 0x3e9d7b78, 0x0a8b3996);
    Expanded(37, 0xf10a5c62, 0x702138a4, 0x12dcbfdb, 0x0183fc00, 0x72af830a);
    Expanded(38, 0x0a8b3996, 0xd3b7973b, 0xe2e2c38e, 0x12dcbfdb, 0x9409e33e);
    Expanded(39, 0x72af830a, 0x93f5997f, 0xc8215c1a, 0xe2e2c38e, 0x24641522);
  }

  lemma Words5()
    ensures Schedule(BLOCK, 40) == 0x9f47bf94 && Schedule(BLOCK, 41) == 0xf0a64f5a
    ensures Schedule(BLOCK, 42) == 0x3e246a79 && Schedule(BLOCK, 43) == 0x27333ba3
    ensures Schedule(BLOCK, 44) == 0x0c4763f2 && Schedule(BLOCK, 45) == 0x840abf27
    ensures Schedule(BLOCK, 46) == 0x7a290d5d && Schedule(BLOCK, 47) == 0x065c43da
  {
    Words3();
    Words4();
    Expanded(40, 0x9409e33e, 0x3b68ba73, 0xb73679a2, 0xc8215c1a, 0x9f47bf94);
    Expanded(41, 0x24641522, 0xaff4ffc1, 0xe5bc3909, 0xb73679a2, 0xf0a64f5a);
    Expanded(42, 0x9f47bf94, 0xf10a5c62, 0x32663c5b, 0xe5bc3909, 0x3e246a79);
    Expanded(43, 0xf0a64f5a, 0x0a8b3996, 0x9d209d67, 0x32663c5b, 0x27333ba3);
    Expanded(44, 0x3e246a79, 0x72af830a, 0xec8726cb, 0x9d209d67, 0x0c4763f2);
    Expanded(45, 0x27333ba3, 0x9409e33e, 0x702138a4, 0xec8726cb, 0x840abf27);
    Expanded(46, 0x0c4763f2, 0x24641522, 0xd3b7973b, 0x702138a4, 0x7a290d5d);
    Expanded(47, 0x840abf27, 0x9f47bf94, 0x93f5997f, 0xd3b7973b, 0x065c43da);
  }

  lemma Words6()
    ensures Schedule(BLOCK, 48) == 0xfb3e89cb && Schedule(BLOCK, 49) == 0xcc7617db
    ensures Schedule(BLOCK, 50) == 0xb9e66c34 && Schedule(BLOCK, 51) == 0xa9993667
    ensures Schedule(BLOCK, 52) == 0x84badedd && Schedule(BLOCK, 53) == 0xc21462bc
    ensures Schedule(BLOCK, 54) == 0x1487472c && Schedule(BLOCK, 55) == 0xb20f7a99
  {
    Words4();
    Words5();
    Expanded(48, 0x7a290d5d, 0xf0a64f5a, 0x3b68ba73, 0x93f5997f, 0xfb3e89cb);
    Expanded(49, 0x065c43da, 0x3e246a79, 0xaff4ffc1, 0x3b68ba73, 0xcc7617db);
    Expanded(50, 0xfb3e89cb, 0x27333ba3, 0xf10a5c62, 0xaff4ffc1, 0xb9e66c34);
    Expanded(51, 0xcc7617db, 0x0c4763f2, 0x0a8b3996, 0xf10a5c62, 0xa9993667);
    Expanded(52, 0xb9e66c34, 0x840abf27, 0x72af830a, 0x0a8b3996, 0x84badedd);
    Expanded(53, 0xa9993667, 0x7a290d5d, 0x9409e33e, 0x72af830a, 0xc21462bc);
    Expanded(54, 0x84badedd, 0x065c43da, 0x24641522, 0x9409e33e, 0x1487472c);
    Expanded(55, 0xc21462bc, 0xfb3e89cb, 0x9f47bf94, 0x24641522, 0xb20f7a99);
  }

  lemma Words7()
    ensures Schedule(BLOCK, 56) == 0xef57b9cd && Schedule(BLOCK, 57) == 0xebe6b238
    ensures Schedule(BLOCK, 58) == 0x9fe3095e && Schedule(BLOCK, 59) == 0x78bc8d4b
    ensures Schedule(BLOCK, 60) == 0xa43fcf15 && Schedule(BLOCK, 61) == 0x668b2ff8
    ensures Schedule(BLOCK, 62) == 0xeeaba2cc && Schedule(BLOCK, 63) == 0x12b1edeb
  {
    Words5();
    Words6();
    Expanded(56, 0x1487472c, 0xcc7617db, 0xf0a64f5a, 0x9f47bf94, 0xef57b9cd);
    Expanded(57, 0xb20f7a99, 0xb9e66c34, 0x3e246a79, 0xf0a64f5a, 0xebe6b238);
    Expanded(58, 0xef57b9cd, 0xa9993667, 0x27333ba3, 0x3e246a79, 0x9fe3095e);
    Expanded(59, 0xebe6b238, 0x84badedd, 0x0c4763f2, 0x27333ba3, 0x78bc8d4b);
    Expanded(60, 0x9fe3095e, 0xc21462bc, 0x840abf27, 0x0c4763f2, 0xa43fcf15);
    Expanded(61, 0x78bc8d4b, 0x1487472c, 0x7a290d5d, 0x840abf27, 0x668b2ff8);
    Expanded(62, 0xa43fcf15, 0xb20f7a99, 0x065c43da, 0x7a290d5d, 0xeeaba2cc);
    Expanded(63, 0x668b2ff8, 0xef57b9cd, 0xfb3e89cb, 0x065c43da, 0x12b1edeb);
  }

  lemma NoRounds()
    ensures |BLOCK| == 64 && Rounds(InitialHash(), BLOCK, 0) ==
            Vars(0x6a09e667, 0xbb67ae85, 0x3c6ef372, 0xa54ff53a, 0x510e527f, 0x9b05688c, 0x1f83d9ab, 0x5be0cd19)
  {
    BlockBytes();
  }

  function Constant(t: nat): word
    requires t < 64
  {
    K[t]
  }

  /** One round, whose two new registers are given. */
  lemma Rounded(t: nat, v: Vars, k: word, w: word, a: word, e: word)
    requires t < 64 == |BLOCK| && Rounds(InitialHash(), BLOCK, t) == v && Constant(t) == k && Schedule(BLOCK, t) == w
    requires Round(v, k, w) == Vars(a, v.a, v.b, v.c, e, v.e, v.f, v.g)
    ensures Rounds(InitialHash(), BLOCK, t + 1) == Vars(a, v.a, v.b, v.c, e, v.e, v.f, v.g)
  {
    hide Round, Schedule;
  }

  lemma Constants0()
    ensures Constant(0) == 0x428a2f98 && Constant(1) == 0x71374491
    ensures Constant(2) == 0xb5c0fbcf && Constant(3) == 0xe9b5dba5
    ensures Constant(4) == 0x3956c25b && Constant(5) == 0x59f111f1
    ensures Constant(6) == 0x923f82a4 && Constant(7) == 0xab1c5ed5
  {
    assert forall k :: 0 <= k < 8 ==> K[0 + k] == K0[k];
  }

  lemma Rounds0()
    ensures Rounds(InitialHash(), BLOCK, 8) ==
            Vars(0x85a07b5f, 0xe5030380, 0x2b4209f5, 0x04409a6a, 0x0c657a79, 0x9b27a401, 0x714260ad, 0x43ada245)
  {
    hide Schedule, Rounds, InitialHash, Constant;
    Words0();
    Constants0();
    NoRounds();
    Rounded(0, Vars(0x6a09e667, 0xbb67ae85, 0x3c6ef372, 0xa54ff53a, 0x510e527f, 0x9b05688c, 0x1f83d9ab, 0x5be0cd19),
      0x428a2f98, 0x61626380, 0x5d6aebcd, 0xfa2a4622);
    Rounded(1, Vars(0x5d6aebcd, 0x6a09e667, 0xbb67ae85, 0x3c6ef372, 0xfa2a4622, 0x510e527f, 0x9b05688c, 0x1f83d9ab),
      0x71374491, 0x00000000, 0x5a6ad9ad, 0x78ce7989);
    Rounded(2, Vars(0x5a6ad9ad, 0x5d6aebcd, 0x6a09e667, 0xbb67ae85, 0x78ce7989, 0xfa2a4622, 0x510e527f, 0x9b05688c),
      0xb5c0fbcf, 0x00000000, 0xc8c347a7, 0xf92939eb);
    Rounded(3, Vars(0xc8c347a7, 0x5a6ad9ad, 0x5d6aebcd, 0x6a09e667, 0xf92939eb, 0x78ce7989, 0xfa2a4622, 0x510e527f),
      0xe9b5dba5, 0x00000000, 0xd550f666, 0x24e00850);
    Rounded(4, Vars(0xd550f666, 0xc8c347a7, 0x5a6ad9ad, 0x5d6aebcd, 0x24e00850, 0xf92939eb, 0x78ce7989, 0xfa2a4622),
      0x3956c25b, 0x00000000, 0x04409a6a, 0x43ada245);
    Rounded(5, Vars(0x04409a6a, 0xd550f666, 0xc8c347a7, 0x5a6ad9ad, 0x43ada245, 0x24e00850, 0xf92939eb, 0x78ce7989),
      0x59f111f1, 0x00000000, 0x2b4209f5, 0x714260ad);
    Rounded(6, Vars(0x2b4209f5, 0x04409a6a, 0xd550f666, 0xc8c347a7, 0x714260ad, 0x43ada245, 0x24e00850, 0xf92939eb),
      0x923f82a4, 0x00000000, 0xe5030380, 0x9b27a401);
    Rounded(7, Vars(0xe5030380, 0x2b4209f5, 0x04409a6a, 0xd550f666, 0x9b27a401, 0x714260ad, 0x43ada245, 0x24e00850),
      0xab1c5ed5, 0x00000000, 0x85a07b5f, 0x0c657a79);
  }

  lemma Constants1()
    ensures Constant(8) == 0xd807aa98 && Constant(9) == 0x12835b01
    ensures Constant(10) == 0x243185be && Constant(11) == 0x550c7dc3
    ensures Constant(12) == 0x72be5d74 && Constant(13) == 0x80deb1fe
    ensures Constant(14) == 0x9bdc06a7 && Constant(15) == 0xc19bf174
  {
    assert forall k :: 0 <= k < 8 ==> K[8 + k] == K1[k];
  }

  lemma Rounds1()
    ensures Rounds(InitialHash(), BLOCK, 16) ==
            Vars(0xb0fa238e, 0xc0645fde, 0xd932eb16, 0x87912990, 0x07590dcd, 0x0b92f20c, 0x745a48de, 0x1e578218)
  {
    hide Schedule, Rounds, InitialHash, Constant;
    Words1();
    Constants1();
    Rounds0();
    Rounded(8, Vars(0x85a07b5f, 0xe5030380, 0x2b4209f5, 0x04409a6a, 0x0c657a79, 0x9b27a401, 0x714260ad, 0x43ada245),
      0xd807aa98, 0x00000000, 0x8e04ecb9, 0x32ca2d8c);
    Rounded(9, Vars(0x8e04ecb9, 0x85a07b5f, 0xe5030380, 0x2b4209f5, 0x32ca2d8c, 0x0c657a79, 0x9b27a401, 0x714260ad),
      0x12835b01, 0x00000000, 0x8c87346b, 0x1cc92596);
    Rounded(10, Vars(0x8c87346b, 0x8e04ecb9, 0x85a07b5f, 0xe5030380, 0x1cc92596, 0x32ca2d8c, 0x0c657a79, 0x9b27a401),
      0x243185be, 0x00000000, 0x4798a3f4, 0x436b23e8);
    Rounded(11, Vars(0x4798a3f4, 0x8c87346b, 0x8e04ecb9, 0x85a07b5f, 0x436b23e8, 0x1cc92596, 0x32ca2d8c, 0x0c657a79),
      0x550c7dc3, 0x00000000, 0xf71fc5a9, 0x816fd6e9);
    Rounded(12, Vars(0xf71fc5a9, 0x4798a3f4, 0x8c87346b, 0x8e04ecb9, 0x816fd6e9, 0x436b23e8, 0x1cc92596, 0x32ca2d8c),
      0x72be5d74, 0x00000000, 0x87912990, 0x1e578218);
    Rounded(13, Vars(0x87912990, 0xf71fc5a9, 0x4798a3f4, 0x8c87346b, 0x1e578218, 0x816fd6e9, 0x436b23e8, 0x1cc92596),
      0x80deb1fe, 0x00000000, 0xd932eb16, 0x745a48de);
    Rounded(14, Vars(0xd932eb16, 0x87912990, 0xf71fc5a9, 0x4798a3f4, 0x745a48de, 0x1e578218, 0x816fd6e9, 0x436b23e8),
      0x9bdc06a7, 0x00000000, 0xc0645fde, 0x0b92f20c);
    Rounded(15, Vars(0xc0645fde, 0xd932eb16, 0x87912990, 0xf71fc5a9, 0x0b92f20c, 0x745a48de, 0x1e578218, 0x816fd6e9),
      0xc19bf174, 0x00000018, 0xb0fa238e, 0x07590dcd);
  }

  lemma Constants2()
    ensures Constant(16) == 0xe49b69c1 && Constant(17) == 0xefbe4786
    ensures Constant(18) == 0x0fc19dc6 && Constant(19) == 0x240ca1cc
    ensures Constant(20) == 0x2de92c6f && Constant(21) == 0x4a7484aa
    ensures Constant(22) == 0x5cb0a9dc && Constant(23) == 0x76f988da
  {
    assert forall k :: 0 <= k < 8 ==> K[16 + k] == K2[k];
  }

  lemma Rounds2()
    ensures Rounds(InitialHash(), BLOCK, 24) ==
            Vars(0xc5d53d8d, 0xa7a3623f, 0xc2606d6d, 0x9dc68b63, 0xaa47c347, 0x49f5114a, 0xe1257970, 0x8ada8930)
  {
    hide Schedule, Rounds, InitialHash, Constant;
    Words2();
    Constants2();
    Rounds1();
    Rounded(16, Vars(0xb0fa238e, 0xc0645fde, 0xd932eb16, 0x87912990, 0x07590dcd, 0x0b92f20c, 0x745a48de, 0x1e578218),
      0xe49b69c1, 0x61626380, 0x21da9a9b, 0x8034229c);
    Rounded(17, Vars(0x21da9a9b, 0xb0fa238e, 0xc0645fde, 0xd932eb16, 0x8034229c, 0x07590dcd, 0x0b92f20c, 0x745a48de),
      0xefbe4786, 0x000f0000, 0xc2fbd9d1, 0x846ee454);
    Rounded(18, Vars(0xc2fbd9d1, 0x21da9a9b, 0xb0fa238e, 0xc0645fde, 0x846ee454, 0x8034229c, 0x07590dcd, 0x0b92f20c),
      0x0fc19dc6, 0x7da86405, 0xfe777bbf, 0xcc899961);
    Rounded(19, Vars(0xfe777bbf, 0xc2fbd9d1, 0x21da9a9b, 0xb0fa238e, 0xcc899961, 0x846ee454, 0x8034229c, 0x07590dcd),
      0x240ca1cc, 0x600003c6, 0xe1f20c33, 0xb0638179);
    Rounded(20, Vars(0xe1f20c33, 0xfe777bbf, 0xc2fbd9d1, 0x21da9a9b, 0xb0638179, 0xcc899961, 0x846ee454, 0x8034229c),
      0x2de92c6f, 0x3e9d7b78, 0x9dc68b63, 0x8ada8930);
    Rounded(21, Vars(0x9dc68b63, 0xe1f20c33, 0xfe777bbf, 0xc2fbd9d1, 0x8ada8930, 0xb0638179, 0xcc899961, 0x846ee454),
      0x4a7484aa, 0x0183fc00, 0xc2606d6d, 0xe1257970);
    Rounded(22, Vars(0xc2606d6d, 0x9dc68b63, 0xe1f20c33, 0xfe777bbf, 0xe1257970, 0x8ada8930, 0xb0638179, 0xcc899961),
      0x5cb0a9dc, 0x12dcbfdb, 0xa7a3623f, 0x49f5114a);
    Rounded(23, Vars(0xa7a3623f, 0xc2606d6d, 0x9dc68b63, 0xe1f20c33, 0x49f5114a, 0xe1257970, 0x8ada8930, 0xb0638179),
      0x76f988da, 0xe2e2c38e, 0xc5d53d8d, 0xaa47c347);
  }

  lemma Constants3()
    ensures Constant(24) == 0x983e5152 && Constant(25) == 0xa831c66d
    ensures Constant(26) == 0xb00327c8 && Constant(27) == 0xbf597fc7
    ensures Constant(28) == 0xc6e00bf3 && Constant(29) == 0xd5a79147
    ensures Constant(30) == 0x06ca6351 && Constant(31) == 0x14292967
  {
    assert forall k :: 0 <= k < 8 ==> K[24 + k] == K3[k];
  }

  lemma Rounds3()
    ensures Rounds(InitialHash(), BLOCK, 32) ==
            Vars(0x73b33bf5, 0xea992a22, 0xa0060b30, 0x363482c9, 0xba591112, 0x0109ab3a, 0xade79437, 0x6112a3b7)
  {
    hide Schedule, Rounds, InitialHash, Constant;
    Words3();
    Constants3();
    Rounds2();
    Rounded(24, Vars(0xc5d53d8d, 0xa7a3623f, 0xc2606d6d, 0x9dc68b63, 0xaa47c347, 0x49f5114a, 0xe1257970, 0x8ada8930),
      0x983e5152, 0xc8215c1a, 0x1c2c2838, 0x2823ef91);
    Rounded(25, Vars(0x1c2c2838, 0xc5d53d8d, 0xa7a3623f, 0xc2606d6d, 0x2823ef91, 0xaa47c347, 0x49f5114a, 0xe1257970),
      0xa831c66d, 0xb73679a2, 0xcde8037d, 0x14383d8e);
    Rounded(26, Vars(0xcde8037d, 0x1c2c2838, 0xc5d53d8d, 0xa7a3623f, 0x14383d8e, 0x2823ef91, 0xaa47c347, 0x49f5114a),
      0xb00327c8, 0xe5bc3909, 0xb62ec4bc, 0xc74c6516);
    Rounded(27, Vars(0xb62ec4bc, 0xcde8037d, 0x1c2c2838, 0xc5d53d8d, 0xc74c6516, 0x14383d8e, 0x2823ef91, 0xaa47c347),
      0xbf597fc7, 0x32663c5b, 0x77d37528, 0xedffbff8);
    Rounded(28, Vars(0x77d37528, 0xb62ec4bc, 0xcde8037d, 0x1c2c2838, 0xedffbff8, 0xc74c6516, 0x14383d8e, 0x2823ef91),
      0xc6e00bf3, 0x9d209d67, 0x363482c9, 0x6112a3b7);
    Rounded(29, Vars(0x363482c9, 0x77d37528, 0xb62ec4bc, 0xcde8037d, 0x6112a3b7, 0xedffbff8, 0xc74c6516, 0x14383d8e),
      0xd5a79147, 0xec8726cb, 0xa0060b30, 0xade79437);
    Rounded(30, Vars(0xa0060b30, 0x363482c9, 0x77d37528, 0xb62ec4bc, 0xade79437, 0x6112a3b7, 0xedffbff8, 0xc74c6516),
      0x06ca6351, 0x702138a4, 0xea992a22, 0x0109ab3a);
    Rounded(31, Vars(0xea992a22, 0xa0060b30, 0x363482c9, 0x77d37528, 0x0109ab3a, 0xade79437, 0x6112a3b7, 0xedffbff8),
      0x14292967, 0xd3b7973b, 0x73b33bf5, 0xba591112);
  }

  lemma Constants4()
    ensures Constant(32) == 0x27b70a85 && Constant(33) == 0x2e1b2138
    ensures Constant(34) == 0x4d2c6dfc && Constant(35) == 0x53380d13
    ensures Constant(36) == 0x650a7354 && Constant(37) == 0x766a0abb
    ensures Constant(38) == 0x81c2c92e && Constant(39) == 0x92722c85
  {
    assert forall k :: 0 <= k < 8 ==> K[32 + k] == K4[k];
  }

  lemma Rounds4()
    ensures Rounds(InitialHash(), BLOCK, 40) ==
            Vars(0x79ea687a, 0x6dc57a8a, 0x34df1604, 0x41a65cb1, 0x1efbc0a0, 0xf0781bc8, 0xa507a53d, 0x0772a26b)
  {
    hide Schedule, Rounds, InitialHash, Constant;
    Words4();
    Constants4();
    Rounds3();
    Rounded(32, Vars(0x73b33bf5, 0xea992a22, 0xa0060b30, 0x363482c9, 0xba591112, 0x0109ab3a, 0xade79437, 0x6112a3b7),
      0x27b70a85, 0x93f5997f, 0x98e12507, 0x9cd9f5f6);
    Rounded(33, Vars(0x98e12507, 0x73b33bf5, 0xea992a22, 0xa0060b30, 0x9cd9f5f6, 0xba591112, 0x0109ab3a, 0xade79437),
      0x2e1b2138, 0x3b68ba73, 0xfe604df5, 0x59249dd3);
    Rounded(34, Vars(0xfe604df5, 0x98e12507, 0x73b33bf5, 0xea992a22, 0x59249dd3, 0x9cd9f5f6, 0xba591112, 0x0109ab3a),
      0x4d2c6dfc, 0xaff4ffc1, 0xa9a7738c, 0x085f3833);
    Rounded(35, Vars(0xa9a7738c, 0xfe604df5, 0x98e12507, 0x73b33bf5, 0x085f3833, 0x59249dd3, 0x9cd9f5f6, 0xba591112),
      0x53380d13, 0xf10a5c62, 0x65a0cfe4, 0xf4b002d6);
    Rounded(36, Vars(0x65a0cfe4, 0xa9a7738c, 0xfe604df5, 0x98e12507, 0xf4b002d6, 0x085f3833, 0x59249dd3, 0x9cd9f5f6),
      0x650a7354, 0x0a8b3996, 0x41a65cb1, 0x0772a26b);
    Rounded(37, Vars(0x41a65cb1, 0x65a0cfe4, 0xa9a7738c, 0xfe604df5, 0x0772a26b, 0xf4b002d6, 0x085f3833, 0x59249dd3),
      0x766a0abb, 0x72af830a, 0x34df1604, 0xa507a53d);
    Rounded(38, Vars(0x34df1604, 0x41a65cb1, 0x65a0cfe4, 0xa9a7738c, 0xa507a53d, 0x0772a26b, 0xf4b002d6, 0x085f3833),
      0x81c2c92e, 0x9409e33e, 0x6dc57a8a, 0xf0781bc8);
    Rounded(39, Vars(0x6dc57a8a, 0x34df1604, 0x41a65cb1, 0x65a0cfe4, 0xf0781bc8, 0xa507a53d, 0x0772a26b, 0xf4b002d6),
      0x92722c85, 0x24641522, 0x79ea687a, 0x1efbc0a0);
  }

  lemma Constants5()
    ensures Constant(40) == 0xa2bfe8a1 && Constant(41) == 0xa81a664b
    ensures Constant(42) == 0xc24b8b70 && Constant(43) == 0xc76c51a3
    ensures Constant(44) == 0xd192e819 && Constant(45) == 0xd6990624
    ensures Constant(46) == 0xf40e3585 && Constant(47) == 0x106aa070
  {
    assert forall k :: 0 <= k < 8 ==> K[40 + k] == K5[k];
  }

  lemma Rounds5()
    ensures Rounds(InitialHash(), BLOCK, 48) ==
            Vars(0x4172328d, 0xa14c14b0, 0x72ab4b91, 0x26628815, 0xfecf0bc6, 0xd57b94a9, 0xb7755da1, 0xa80f11f0)
  {
    hide Schedule, Rounds, InitialHash, Constant;
    Words5();
    Constants5();
    Rounds4();
    Rounded(40, Vars(0x79ea687a, 0x6dc57a8a, 0x34df1604, 0x41a65cb1, 0x1efbc0a0, 0xf0781bc8, 0xa507a53d, 0x0772a26b),
      0xa2bfe8a1, 0x9f47bf94, 0xd6670766, 0x26352d63);
    Rounded(41, Vars(0xd6670766, 0x79ea687a, 0x6dc57a8a, 0x34df1604, 0x26352d63, 0x1efbc0a0, 0xf0781bc8, 0xa507a53d),
      0xa81a664b, 0xf0a64f5a, 0xdf46652f, 0x838b2711);
    Rounded(42, Vars(0xdf46652f, 0xd6670766, 0x79ea687a, 0x6dc57a8a, 0x838b2711, 0x26352d63, 0x1efbc0a0, 0xf0781bc8),
      0xc24b8b70, 0x3e246a79, 0x17aa0dfe, 0xdecd4715);
    Rounded(43, Vars(0x17aa0dfe, 0xdf46652f, 0xd6670766, 0x79ea687a, 0xdecd4715, 0x838b2711, 0x26352d63, 0x1efbc0a0),
      0xc76c51a3, 0x27333ba3, 0x9d4baf93, 0xfda24c2e);
    Rounded(44, Vars(0x9d4baf93, 0x17aa0dfe, 0xdf46652f, 0xd6670766, 0xfda24c2e, 0xdecd4715, 0x838b2711, 0x26352d63),
      0xd192e819, 0x0c4763f2, 0x26628815, 0xa80f11f0);
    Rounded(45, Vars(0x26628815, 0x9d4baf93, 0x17aa0dfe, 0xdf46652f, 0xa80f11f0, 0xfda24c2e, 0xdecd4715, 0x838b2711),
      0xd6990624, 0x840abf27, 0x72ab4b91, 0xb7755da1);
    Rounded(46, Vars(0x72ab4b91, 0x26628815, 0x9d4baf93, 0x17aa0dfe, 0xb7755da1, 0xa80f11f0, 0xfda24c2e, 0xdecd4715),
      0xf40e3585, 0x7a290d5d, 0xa14c14b0, 0xd57b94a9);
    Rounded(47, Vars(0xa14c14b0, 0x72ab4b91, 0x26628815, 0x9d4baf93, 0xd57b94a9, 0xb7755da1, 0xa80f11f0, 0xfda24c2e),
      0x106aa070, 0x065c43da, 0x4172328d, 0xfecf0bc6);
  }

  lemma Constants6()
    ensures Constant(48) == 0x19a4c116 && Constant(49) == 0x1e376c08
    ensures Constant(50) == 0x2748774c && Constant(51) == 0x34b0bcb5
    ensures Constant(52) == 0x391c0cb3 && Constant(53) == 0x4ed8aa4a
    ensures Constant(54) == 0x5b9cca4f && Constant(55) == 0x682e6ff3
  {
    assert forall k :: 0 <= k < 8 ==> K[48 + k] == K6[k];
  }

  lemma Rounds6()
    ensures Rounds(InitialHash(), BLOCK, 56) ==
            Vars(0x38cc9913, 0x3ec45cdb, 0xf5702fdb, 0x101fd28f, 0x54cb266b, 0xe50e1b4f, 0x9f4787c3, 0x529e7d00)
  {
    hide Schedule, Rounds, InitialHash, Constant;
    Words6();
    Constants6();
    Rounds5();
    Rounded(48, Vars(0x4172328d, 0xa14c14b0, 0x72ab4b91, 0x26628815, 0xfecf0bc6, 0xd57b94a9, 0xb7755da1, 0xa80f11f0),
      0x19a4c116, 0xfb3e89cb, 0x05757ceb, 0xbd714038);
    Rounded(49, Vars(0x05757ceb, 0x4172328d, 0xa14c14b0, 0x72ab4b91, 0xbd714038, 0xfecf0bc6, 0xd57b94a9, 0xb7755da1),
      0x1e376c08, 0xcc7617db, 0xf11bfaa8, 0x6e5c390c);
    Rounded(50, Vars(0xf11bfaa8, 0x05757ceb, 0x4172328d, 0xa14c14b0, 0x6e5c390c, 0xbd714038, 0xfecf0bc6, 0xd57b94a9),
      0x2748774c, 0xb9e66c34, 0x7a0508a1, 0x52f1ccf7);
    Rounded(51, Vars(0x7a0508a1, 0xf11bfaa8, 0x05757ceb, 0x4172328d, 0x52f1ccf7, 0x6e5c390c, 0xbd714038, 0xfecf0bc6),
      0x34b0bcb5, 0xa9993667, 0x886e7a22, 0x49231c1e);
    Rounded(52, Vars(0x886e7a22, 0x7a0508a1, 0xf11bfaa8, 0x05757ceb, 0x49231c1e, 0x52f1ccf7, 0x6e5c390c, 0xbd714038),
      0x391c0cb3, 0x84badedd, 0x101fd28f, 0x529e7d00);
    Rounded(53, Vars(0x101fd28f, 0x886e7a22, 0x7a0508a1, 0xf11bfaa8, 0x529e7d00, 0x49231c1e, 0x52f1ccf7, 0x6e5c390c),
      0x4ed8aa4a, 0xc21462bc, 0xf5702fdb, 0x9f4787c3);
    Rounded(54, Vars(0xf5702fdb, 0x101fd28f, 0x886e7a22, 0x7a0508a1, 0x9f4787c3, 0x529e7d00, 0x49231c1e, 0x52f1ccf7),
      0x5b9cca4f, 0x1487472c, 0x3ec45cdb, 0xe50e1b4f);
    Rounded(55, Vars(0x3ec45cdb, 0xf5702fdb, 0x101fd28f, 0x886e7a22, 0xe50e1b4f, 0x9f4787c3, 0x529e7d00, 0x49231c1e),
      0x682e6ff3, 0xb20f7a99, 0x38cc9913, 0x54cb266b);
  }

  lemma Constants7()
    ensures Constant(56) == 0x748f82ee && Constant(57) == 0x78a5636f
    ensures Constant(58) == 0x84c87814 && Constant(59) == 0x8cc70208
    ensures Constant(60) == 0x90befffa && Constant(61) == 0xa4506ceb
    ensures Constant(62) == 0xbef9a3f7 && Constant(63) == 0xc67178f2
  {
    assert forall k :: 0 <= k < 8 ==> K[56 + k] == K7[k];
  }

  lemma Rounds7()
    ensures Rounds(InitialHash(), BLOCK, 64) ==
            Vars(0x506e3058, 0xd39a2165, 0x04d24d6c, 0xb85e2ce9, 0x5ef50f24, 0xfb121210, 0x948d25b6, 0x961f4894)
  {
    hide Schedule, Rounds, InitialHash, Constant;
    Words7();
    Constants7();
    Rounds6();
    Rounded(56, Vars(0x38cc9913, 0x3ec45cdb, 0xf5702fdb, 0x101fd28f, 0x54cb266b, 0xe50e1b4f, 0x9f4787c3, 0x529e7d00),
      0x748f82ee, 0xef57b9cd, 0xfcd1887b, 0x9b5e906c);
    Rounded(57, Vars(0xfcd1887b, 0x38cc9913, 0x3ec45cdb, 0xf5702fdb, 0x9b5e906c, 0x54cb266b, 0xe50e1b4f, 0x9f4787c3),
      0x78a5636f, 0xebe6b238, 0xc062d46f, 0x7e44008e);
    Rounded(58, Vars(0xc062d46f, 0xfcd1887b, 0x38cc9913, 0x3ec45cdb, 0x7e44008e, 0x9b5e906c, 0x54cb266b, 0xe50e1b4f),
      0x84c87814, 0x9fe3095e, 0xffb70472, 0x6d83bfc6);
    Rounded(59, Vars(0xffb70472, 0xc062d46f, 0xfcd1887b, 0x38cc9913, 0x6d83bfc6, 0x7e44008e, 0x9b5e906c, 0x54cb266b),
      0x8cc70208, 0x78bc8d4b, 0xb6ae8fff, 0xb21bad3d);
    Rounded(60, Vars(0xb6ae8fff, 0xffb70472, 0xc062d46f, 0xfcd1887b, 0xb21bad3d, 0x6d83bfc6, 0x7e44008e, 0x9b5e906c),
      0x90befffa, 0xa43fcf15, 0xb85e2ce9, 0x961f4894);
    Rounded(61, Vars(0xb85e2ce9, 0xb6ae8fff, 0xffb70472, 0xc062d46f, 0x961f4894, 0xb21bad3d, 0x6d83bfc6, 0x7e44008e),
      0xa4506ceb, 0x668b2ff8, 0x04d24d6c, 0x948d25b6);
    Rounded(62, Vars(0x04d24d6c, 0xb85e2ce9, 0xb6ae8fff, 0xffb70472, 0x948d25b6, 0x961f4894, 0xb21bad3d, 0x6d83bfc6),
      0xbef9a3f7, 0xeeaba2cc, 0xd39a2165, 0xfb121210);
    Rounded(63, Vars(0xd39a2165, 0x04d24d6c, 0xb85e2ce9, 0xb6ae8fff, 0xfb121210, 0x948d25b6, 0x961f4894, 0xb21bad3d),
      0xc67178f2, 0x12b1edeb, 0x506e3058, 0x5ef50f24);
  }

  lemma Compressed()
    ensures |BLOCK| == 64 && Compress(InitialHash(), BLOCK) ==
            Vars(0xba7816bf, 0x8f01cfea, 0x414140de, 0x5dae2223, 0xb00361a3, 0x96177a9c, 0xb410ff61, 0xf20015ad)
  {
    hide Rounds;
    Rounds7();
    BlockBytes();
  }

  lemma {:induction false} ZeroBytes(n: nat)
    ensures BigEndianBytes(0, n) == Zeros(n)
  {
    if n > 0 {
      ZeroBytes(n - 1);
    }
  }

  lemma PaddedAbc()
    ensures Padded([97, 98, 99]) == BLOCK
  {
    ZeroBytes(7);
    assert BigEndianBytes(24, 8) == Zeros(7) + [24];
    hide BigEndianBytes;
    assert [97, 98, 99] + [128] + Zeros(52) + (Zeros(7) + [24]) == BLOCK;
  }

  lemma FirstWords()
    ensures WordBytes(0xba7816bf) == [0xba, 0x78, 0x16, 0xbf]
    ensures WordBytes(0x8f01cfea) == [0x8f, 0x01, 0xcf, 0xea]
    ensures WordBytes(0x414140de) == [0x41, 0x41, 0x40, 0xde]
    ensures WordBytes(0x5dae2223) == [0x5d, 0xae, 0x22, 0x23]
  {
  }

  lemma LastWords()
    ensures WordBytes(0xb00361a3) == [0xb0, 0x03, 0x61, 0xa3]
    ensures WordBytes(0x96177a9c) == [0x96, 0x17, 0x7a, 0x9c]
    ensures WordBytes(0xb410ff61) == [0xb4, 0x10, 0xff, 0x61]
    ensures WordBytes(0xf20015ad) == [0xf2, 0x00, 0x15, 0xad]
  {
  }

  lemma {:induction false} WordsConcat(a: seq<word>, b: seq<word>)
    ensures WordsBytes(a + b) == WordsBytes(a) + WordsBytes(b)
    decreases |b|
  {
    hide WordBytes;
    if b == [] {
      assert a + b == a;
    } else {
      assert (a + b)[..|a + b| - 1] == a + b[..|b| - 1];
      WordsConcat(a, b[..|b| - 1]);
    }
  }

  lemma TwoWords(a: word, b: word)
    ensures WordsBytes([a, b]) == WordBytes(a) + WordBytes(b)
  {
    hide WordBytes;
    assert [a, b][..1] == [a] && [a][..0] == [];
  }

  lemma FourWords(a: word, b: word, c: word, d: word)
    ensures WordsBytes([a, b, c, d]) == WordBytes(a) + WordBytes(b) + (WordBytes(c) + WordBytes(d))
  {
    hide WordBytes, WordsBytes;
    TwoWords(a, b);
    TwoWords(c, d);
    WordsConcat([a, b], [c, d]);
    assert [a, b] + [c, d] == [a, b, c, d];
  }

  lemma DigestIs(v: Vars)
    ensures Digest(v) ==
            WordBytes(v.a) + WordBytes(v.b) + (WordBytes(v.c) + WordBytes(v.d))
            + (WordBytes(v.e) + WordBytes(v.f) + (WordBytes(v.g) + WordBytes(v.h)))
  {
    hide WordBytes, WordsBytes;
    FourWords(v.a, v.b, v.c, v.d);
    FourWords(v.e, v.f, v.g, v.h);
    WordsConcat([v.a, v.b, v.c, v.d], [v.e, v.f, v.g, v.h]);
    assert [v.a, v.b, v.c, v.d] + [v.e, v.f, v.g, v.h] == [v.a, v.b, v.c, v.d, v.e, v.f, v.g, v.h];
  }

  /** The digest of "abc". */
  lemma DigestOfAbc()
    ensures Sha256([97, 98, 99]) == [
              0xba, 0x78, 0x16, 0xbf, 0x8f, 0x01, 0xcf, 0xea, 0x41, 0x41, 0x40, 0xde, 0x5d, 0xae, 0x22, 0x23,
              0xb0, 0x03, 0x61, 0xa3, 0x96, 0x17, 0x7a, 0x9c, 0xb4, 0x10, 0xff, 0x61, 0xf2, 0x00, 0x15, 0xad]
  {
    hide Compress, Padded, Digest, HashBlocks, InitialHash, WordBytes;
    PaddedAbc();
    BlockBytes();
    HashOne(InitialHash(), BLOCK);
    Compressed();
    DigestIs(Compress(InitialHash(), BLOCK));
    FirstWords();
    LastWords();
  }
}
