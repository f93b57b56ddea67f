/**
 The one-block example that NIST publishes with FIPS 180-4: the digest of "abc",
 word by word and round by round.
 */
module Sha256Example {
  import opened Bytes
  import opened Sha256

  // ---- The message schedule ----------------------------------------------

  predicate Words0(b: Block) {
    && Schedule(b, 0) == 0x61626380 && Schedule(b, 1) == 0x00000000
    && Schedule(b, 2) == 0x00000000 && Schedule(b, 3) == 0x00000000
    && Schedule(b, 4) == 0x00000000 && Schedule(b, 5) == 0x00000000
    && Schedule(b, 6) == 0x00000000 && Schedule(b, 7) == 0x00000000
  }

  predicate Words8(b: Block) {
    && Schedule(b, 8) == 0x00000000 && Schedule(b, 9) == 0x00000000
    && Schedule(b, 10) == 0x00000000 && Schedule(b, 11) == 0x00000000
    && Schedule(b, 12) == 0x00000000 && Schedule(b, 13) == 0x00000000
    && Schedule(b, 14) == 0x00000000 && Schedule(b, 15) == 0x00000018
  }

  predicate Words16(b: Block) {
    && Schedule(b, 16) == 0x61626380 && Schedule(b, 17) == 0x000f0000
    && Schedule(b, 18) == 0x7da86405 && Schedule(b, 19) == 0x600003c6
    && Schedule(b, 20) == 0x3e9d7b78 && Schedule(b, 21) == 0x0183fc00
    && Schedule(b, 22) == 0x12dcbfdb && Schedule(b, 23) == 0xe2e2c38e
  }

  predicate Words24(b: Block) {
    && Schedule(b, 24) == 0xc8215c1a && Schedule(b, 25) == 0xb73679a2
    && Schedule(b, 26) == 0xe5bc3909 && Schedule(b, 27) == 0x32663c5b
    && Schedule(b, 28) == 0x9d209d67 && Schedule(b, 29) == 0xec8726cb
    && Schedule(b, 30) == 0x702138a4 && Schedule(b, 31) == 0xd3b7973b
  }

  predicate Words32(b: Block) {
    && Schedule(b, 32) == 0x93f5997f && Schedule(b, 33) == 0x3b68ba73
    && Schedule(b, 34) == 0xaff4ffc1 && Schedule(b, 35) == 0xf10a5c62
    && Schedule(b, 36) == 0x0a8b3996 && Schedule(b, 37) == 0x72af830a
    && Schedule(b, 38) == 0x9409e33e && Schedule(b, 39) == 0x24641522
  }

  predicate Words40(b: Block) {
    && Schedule(b, 40) == 0x9f47bf94 && Schedule(b, 41) == 0xf0a64f5a
    && Schedule(b, 42) == 0x3e246a79 && Schedule(b, 43) == 0x27333ba3
    && Schedule(b, 44) == 0x0c4763f2 && Schedule(b, 45) == 0x840abf27
    && Schedule(b, 46) == 0x7a290d5d && Schedule(b, 47) == 0x065c43da
  }

  predicate Words48(b: Block) {
    && Schedule(b, 48) == 0xfb3e89cb && Schedule(b, 49) == 0xcc7617db
    && Schedule(b, 50) == 0xb9e66c34 && Schedule(b, 51) == 0xa9993667
    && Schedule(b, 52) == 0x84badedd && Schedule(b, 53) == 0xc21462bc
    && Schedule(b, 54) == 0x1487472c && Schedule(b, 55) == 0xb20f7a99
  }

  predicate Words56(b: Block) {
    && Schedule(b, 56) == 0xef57b9cd && Schedule(b, 57) == 0xebe6b238
    && Schedule(b, 58) == 0x9fe3095e && Schedule(b, 59) == 0x78bc8d4b
    && Schedule(b, 60) == 0xa43fcf15 && Schedule(b, 61) == 0x668b2ff8
    && Schedule(b, 62) == 0xeeaba2cc && Schedule(b, 63) == 0x12b1edeb
  }

  lemma Extend(b: Block, t: nat, w16: Word, w15: Word, w7: Word, w2: Word)
    requires 16 <= t < 64
    requires Schedule(b, t - 16) == w16 && Schedule(b, t - 15) == w15
    requires Schedule(b, t - 7) == w7 && Schedule(b, t - 2) == w2
    ensures Schedule(b, t) == Add(Add(Add(w16, SmallSigma0(w15)), w7), SmallSigma1(w2))
  {
    hide Add, SmallSigma0, SmallSigma1;
  }

  lemma Extend16(b: Block)
    requires Words0(b) && Words8(b)
    ensures Words16(b)
  {
    hide Schedule;
    Extend(b, 16, 0x61626380, 0x00000000, 0x00000000, 0x00000000);
    Extend(b, 17, 0x00000000, 0x00000000, 0x00000000, 0x00000018);
    Extend(b, 18, 0x00000000, 0x00000000, 0x00000000, 0x61626380);
    Extend(b, 19, 0x00000000, 0x00000000, 0x00000000, 0x000f0000);
    Extend(b, 20, 0x00000000, 0x00000000, 0x00000000, 0x7da86405);
    Extend(b, 21, 0x00000000, 0x00000000, 0x00000000, 0x600003c6);
    Extend(b, 22, 0x00000000, 0x00000000, 0x00000018, 0x3e9d7b78);
    Extend(b, 23, 0x00000000, 0x00000000, 0x61626380, 0x0183fc00);
  }

  lemma Extend24(b: Block)
    requires Words8(b) && Words16(b)
    ensures Words24(b)
  {
    hide Schedule;
    Extend(b, 24, 0x00000000, 0x00000000, 0x000f0000, 0x12dcbfdb);
    Extend(b, 25, 0x00000000, 0x00000000, 0x7da86405, 0xe2e2c38e);
    Extend(b, 26, 0x00000000, 0x00000000, 0x600003c6, 0xc8215c1a);
    Extend(b, 27, 0x00000000, 0x00000000, 0x3e9d7b78, 0xb73679a2);
    Extend(b, 28, 0x00000000, 0x00000000, 0x0183fc00, 0xe5bc3909);
    Extend(b, 29, 0x00000000, 0x00000000, 0x12dcbfdb, 0x32663c5b);
    Extend(b, 30, 0x00000000, 0x00000018, 0xe2e2c38e, 0x9d209d67);
    Extend(b, 31, 0x00000018, 0x61626380, 0xc8215c1a, 0xec8726cb);
  }

  lemma Extend32(b: Block)
    requires Words16(b) && Words24(b)
    ensures Words32(b)
  {
    hide Schedule;
    Extend(b, 32, 0x61626380, 0x000f0000, 0xb73679a2, 0x702138a4);
    Extend(b, 33, 0x000f0000, 0x7da86405, 0xe5bc3909, 0xd3b7973b);
    Extend(b, 34, 0x7da86405, 0x600003c6, 0x32663c5b, 0x93f5997f);
    Extend(b, 35, 0x600003c6, 0x3e9d7b78, 0x9d209d67, 0x3b68ba73);
    Extend(b, 36, 0x3e9d7b78, 0x0183fc00, 0xec8726cb, 0xaff4ffc1);
    Extend(b, 37, 0x0183fc00, 0x12dcbfdb, 0x702138a4, 0xf10a5c62);
    Extend(b, 38, 0x12dcbfdb, 0xe2e2c38e, 0xd3b7973b, 0x0a8b3996);
    Extend(b, 39, 0xe2e2c38e, 0xc8215c1a, 0x93f5997f, 0x72af830a);
  }

  lemma Extend40(b: Block)
    requires Words24(b) && Words32(b)
    ensures Words40(b)
  {
    hide Schedule;
    Extend(b, 40, 0xc8215c1a, 0xb73679a2, 0x3b68ba73, 0x9409e33e);
    Extend(b, 41, 0xb73679a2, 0xe5bc3909, 0xaff4ffc1, 0x24641522);
    Extend(b, 42, 0xe5bc3909, 0x32663c5b, 0xf10a5c62, 0x9f47bf94);
    Extend(b, 43, 0x32663c5b, 0x9d209d67, 0x0a8b3996, 0xf0a64f5a);
    Extend(b, 44, 0x9d209d67, 0xec8726cb, 0x72af830a, 0x3e246a79);
    Extend(b, 45, 0xec8726cb, 0x702138a4, 0x9409e33e, 0x27333ba3);
    Extend(b, 46, 0x702138a4, 0xd3b7973b, 0x24641522, 0x0c4763f2);
    Extend(b, 47, 0xd3b7973b, 0x93f5997f, 0x9f47bf94, 0x840abf27);
  }

  lemma Extend48(b: Block)
    requires Words32(b) && Words40(b)
    ensures Words48(b)
  {
    hide Schedule;
    Extend(b, 48, 0x93f5997f, 0x3b68ba73, 0xf0a64f5a, 0x7a290d5d);
    Extend(b, 49, 0x3b68ba73, 0xaff4ffc1, 0x3e246a79, 0x065c43da);
    Extend(b, 50, 0xaff4ffc1, 0xf10a5c62, 0x27333ba3, 0xfb3e89cb);
    Extend(b, 51, 0xf10a5c62, 0x0a8b3996, 0x0c4763f2, 0xcc7617db);
    Extend(b, 52, 0x0a8b3996, 0x72af830a, 0x840abf27, 0xb9e66c34);
    Extend(b, 53, 0x72af830a, 0x9409e33e, 0x7a290d5d, 0xa9993667);
    Extend(b, 54, 0x9409e33e, 0x24641522, 0x065c43da, 0x84badedd);
    Extend(b, 55, 0x24641522, 0x9f47bf94, 0xfb3e89cb, 0xc21462bc);
  }

  lemma Extend56(b: Block)
    requires Words40(b) && Words48(b)
    ensures Words56(b)
  {
    hide Schedule;
    Extend(b, 56, 0x9f47bf94, 0xf0a64f5a, 0xcc7617db, 0x1487472c);
    Extend(b, 57, 0xf0a64f5a, 0x3e246a79, 0xb9e66c34, 0xb20f7a99);
    Extend(b, 58, 0x3e246a79, 0x27333ba3, 0xa9993667, 0xef57b9cd);
    Extend(b, 59, 0x27333ba3, 0x0c4763f2, 0x84badedd, 0xebe6b238);
    Extend(b, 60, 0x0c4763f2, 0x840abf27, 0xc21462bc, 0x9fe3095e);
    Extend(b, 61, 0x840abf27, 0x7a290d5d, 0x1487472c, 0x78bc8d4b);
    Extend(b, 62, 0x7a290d5d, 0x065c43da, 0xb20f7a99, 0xa43fcf15);
    Extend(b, 63, 0x065c43da, 0xfb3e89cb, 0xef57b9cd, 0x668b2ff8);
  }

  // ---- The rounds --------------------------------------------------------

  /** A word read off a number is the word whose number it is. */
  lemma Back(w: Word, n: u32)
    requires w as int == n
    ensures n as Word == w
  {
    assert (w as int) as Word == w;
  }

  /** One round moves six of the variables on and makes a new a and a new e. */
  lemma OneRound(s: Vars, b: Block, t: nat, v: Vars, k: Word, w: Word, a: Word, e: Word) returns (u: Vars)
    requires t < 64 && Rounds(s, b, t) == v && k as int == K(t) && Schedule(b, t) == w
    requires Round(v, k, w).a == a && Round(v, k, w).e == e
    ensures Rounds(s, b, t + 1) == u == Vars(a, v.a, v.b, v.c, e, v.e, v.f, v.g)
  {
    hide Schedule, K;
    Back(k, K(t));
    u := Round(v, k, w);
  }

  lemma Constants0()
    ensures K(0) == 0x428a2f98 && K(1) == 0x71374491 && K(2) == 0xb5c0fbcf && K(3) == 0xe9b5dba5
    ensures K(4) == 0x3956c25b && K(5) == 0x59f111f1 && K(6) == 0x923f82a4 && K(7) == 0xab1c5ed5
  {
  }

  lemma Constants8()
    ensures K(8) == 0xd807aa98 && K(9) == 0x12835b01 && K(10) == 0x243185be && K(11) == 0x550c7dc3
    ensures K(12) == 0x72be5d74 && K(13) == 0x80deb1fe && K(14) == 0x9bdc06a7 && K(15) == 0xc19bf174
  {
  }

  lemma Constants16()
    ensures K(16) == 0xe49b69c1 && K(17) == 0xefbe4786 && K(18) == 0x0fc19dc6 && K(19) == 0x240ca1cc
    ensures K(20) == 0x2de92c6f && K(21) == 0x4a7484aa && K(22) == 0x5cb0a9dc && K(23) == 0x76f988da
  {
  }

  lemma Constants24()
    ensures K(24) == 0x983e5152 && K(25) == 0xa831c66d && K(26) == 0xb00327c8 && K(27) == 0xbf597fc7
    ensures K(28) == 0xc6e00bf3 && K(29) == 0xd5a79147 && K(30) == 0x06ca6351 && K(31) == 0x14292967
  {
  }

  lemma Constants32()
    ensures K(32) == 0x27b70a85 && K(33) == 0x2e1b2138 && K(34) == 0x4d2c6dfc && K(35) == 0x53380d13
    ensures K(36) == 0x650a7354 && K(37) == 0x766a0abb && K(38) == 0x81c2c92e && K(39) == 0x92722c85
  {
  }

  lemma Constants40()
    ensures K(40) == 0xa2bfe8a1 && K(41) == 0xa81a664b && K(42) == 0xc24b8b70 && K(43) == 0xc76c51a3
    ensures K(44) == 0xd192e819 && K(45) == 0xd6990624 && K(46) == 0xf40e3585 && K(47) == 0x106aa070
  {
  }

  lemma Constants48()
    ensures K(48) == 0x19a4c116 && K(49) == 0x1e376c08 && K(50) == 0x2748774c && K(51) == 0x34b0bcb5
    ensures K(52) == 0x391c0cb3 && K(53) == 0x4ed8aa4a && K(54) == 0x5b9cca4f && K(55) == 0x682e6ff3
  {
  }

  lemma Constants56()
    ensures K(56) == 0x748f82ee && K(57) == 0x78a5636f && K(58) == 0x84c87814 && K(59) == 0x8cc70208
    ensures K(60) == 0x90befffa && K(61) == 0xa4506ceb && K(62) == 0xbef9a3f7 && K(63) == 0xc67178f2
  {
  }

  lemma Rounds0(s: Vars, b: Block)
    requires Words0(b)
    requires Rounds(s, b, 0)
      == Vars(0x6a09e667, 0xbb67ae85, 0x3c6ef372, 0xa54ff53a, 0x510e527f, 0x9b05688c, 0x1f83d9ab, 0x5be0cd19)
    ensures Rounds(s, b, 8)
      == Vars(0x85a07b5f, 0xe5030380, 0x2b4209f5, 0x04409a6a, 0x0c657a79, 0x9b27a401, 0x714260ad, 0x43ada245)
  {
    hide Schedule, Rounds, K;
    Constants0();
    var v := Vars(0x6a09e667, 0xbb67ae85, 0x3c6ef372, 0xa54ff53a, 0x510e527f, 0x9b05688c, 0x1f83d9ab, 0x5be0cd19);
    v := OneRound(s, b, 0, v, 0x428a2f98, 0x61626380, 0x5d6aebcd, 0xfa2a4622);
    v := OneRound(s, b, 1, v, 0x71374491, 0x00000000, 0x5a6ad9ad, 0x78ce7989);
    v := OneRound(s, b, 2, v, 0xb5c0fbcf, 0x00000000, 0xc8c347a7, 0xf92939eb);
    v := OneRound(s, b, 3, v, 0xe9b5dba5, 0x00000000, 0xd550f666, 0x24e00850);
    v := OneRound(s, b, 4, v, 0x3956c25b, 0x00000000, 0x04409a6a, 0x43ada245);
    v := OneRound(s, b, 5, v, 0x59f111f1, 0x00000000, 0x2b4209f5, 0x714260ad);
    v := OneRound(s, b, 6, v, 0x923f82a4, 0x00000000, 0xe5030380, 0x9b27a401);
    v := OneRound(s, b, 7, v, 0xab1c5ed5, 0x00000000, 0x85a07b5f, 0x0c657a79);
  }

  lemma Rounds8(s: Vars, b: Block)
    requires Words8(b)
    requires Rounds(s, b, 8)
      == Vars(0x85a07b5f, 0xe5030380, 0x2b4209f5, 0x04409a6a, 0x0c657a79, 0x9b27a401, 0x714260ad, 0x43ada245)
    ensures Rounds(s, b, 16)
      == Vars(0xb0fa238e, 0xc0645fde, 0xd932eb16, 0x87912990, 0x07590dcd, 0x0b92f20c, 0x745a48de, 0x1e578218)
  {
    hide Schedule, Rounds, K;
    Constants8();
    var v := Vars(0x85a07b5f, 0xe5030380, 0x2b4209f5, 0x04409a6a, 0x0c657a79, 0x9b27a401, 0x714260ad, 0x43ada245);
    v := OneRound(s, b, 8, v, 0xd807aa98, 0x00000000, 0x8e04ecb9, 0x32ca2d8c);
    v := OneRound(s, b, 9, v, 0x12835b01, 0x00000000, 0x8c87346b, 0x1cc92596);
    v := OneRound(s, b, 10, v, 0x243185be, 0x00000000, 0x4798a3f4, 0x436b23e8);
    v := OneRound(s, b, 11, v, 0x550c7dc3, 0x00000000, 0xf71fc5a9, 0x816fd6e9);
    v := OneRound(s, b, 12, v, 0x72be5d74, 0x00000000, 0x87912990, 0x1e578218);
    v := OneRound(s, b, 13, v, 0x80deb1fe, 0x00000000, 0xd932eb16, 0x745a48de);
    v := OneRound(s, b, 14, v, 0x9bdc06a7, 0x00000000, 0xc0645fde, 0x0b92f20c);
    v := OneRound(s, b, 15, v, 0xc19bf174, 0x00000018, 0xb0fa238e, 0x07590dcd);
  }

  lemma Rounds16(s: Vars, b: Block)
    requires Words16(b)
    requires Rounds(s, b, 16)
      == Vars(0xb0fa238e, 0xc0645fde, 0xd932eb16, 0x87912990, 0x07590dcd, 0x0b92f20c, 0x745a48de, 0x1e578218)
    ensures Rounds(s, b, 24)
      == Vars(0xc5d53d8d, 0xa7a3623f, 0xc2606d6d, 0x9dc68b63, 0xaa47c347, 0x49f5114a, 0xe1257970, 0x8ada8930)
  {
    hide Schedule, Rounds, K;
    Constants16();
    var v := Vars(0xb0fa238e, 0xc0645fde, 0xd932eb16, 0x87912990, 0x07590dcd, 0x0b92f20c, 0x745a48de, 0x1e578218);
    v := OneRound(s, b, 16, v, 0xe49b69c1, 0x61626380, 0x21da9a9b, 0x8034229c);
    v := OneRound(s, b, 17, v, 0xefbe4786, 0x000f0000, 0xc2fbd9d1, 0x846ee454);
    v := OneRound(s, b, 18, v, 0x0fc19dc6, 0x7da86405, 0xfe777bbf, 0xcc899961);
    v := OneRound(s, b, 19, v, 0x240ca1cc, 0x600003c6, 0xe1f20c33, 0xb0638179);
    v := OneRound(s, b, 20, v, 0x2de92c6f, 0x3e9d7b78, 0x9dc68b63, 0x8ada8930);
    v := OneRound(s, b, 21, v, 0x4a7484aa, 0x0183fc00, 0xc2606d6d, 0xe1257970);
    v := OneRound(s, b, 22, v, 0x5cb0a9dc, 0x12dcbfdb, 0xa7a3623f, 0x49f5114a);
    v := OneRound(s, b, 23, v, 0x76f988da, 0xe2e2c38e, 0xc5d53d8d, 0xaa47c347);
  }

  lemma Rounds24(s: Vars, b: Block)
    requires Words24(b)
    requires Rounds(s, b, 24)
      == Vars(0xc5d53d8d, 0xa7a3623f, 0xc2606d6d, 0x9dc68b63, 0xaa47c347, 0x49f5114a, 0xe1257970, 0x8ada8930)
    ensures Rounds(s, b, 32)
      == Vars(0x73b33bf5, 0xea992a22, 0xa0060b30, 0x363482c9, 0xba591112, 0x0109ab3a, 0xade79437, 0x6112a3b7)
  {
    hide Schedule, Rounds, K;
    Constants24();
    var v := Vars(0xc5d53d8d, 0xa7a3623f, 0xc2606d6d, 0x9dc68b63, 0xaa47c347, 0x49f5114a, 0xe1257970, 0x8ada8930);
    v := OneRound(s, b, 24, v, 0x983e5152, 0xc8215c1a, 0x1c2c2838, 0x2823ef91);
    v := OneRound(s, b, 25, v, 0xa831c66d, 0xb73679a2, 0xcde8037d, 0x14383d8e);
    v := OneRound(s, b, 26, v, 0xb00327c8, 0xe5bc3909, 0xb62ec4bc, 0xc74c6516);
    v := OneRound(s, b, 27, v, 0xbf597fc7, 0x32663c5b, 0x77d37528, 0xedffbff8);
    v := OneRound(s, b, 28, v, 0xc6e00bf3, 0x9d209d67, 0x363482c9, 0x6112a3b7);
    v := OneRound(s, b, 29, v, 0xd5a79147, 0xec8726cb, 0xa0060b30, 0xade79437);
    v := OneRound(s, b, 30, v, 0x06ca6351, 0x702138a4, 0xea992a22, 0x0109ab3a);
    v := OneRound(s, b, 31, v, 0x14292967, 0xd3b7973b, 0x73b33bf5, 0xba591112);
  }

  lemma Rounds32(s: Vars, b: Block)
    requires Words32(b)
    requires Rounds(s, b, 32)
      == Vars(0x73b33bf5, 0xea992a22, 0xa0060b30, 0x363482c9, 0xba591112, 0x0109ab3a, 0xade79437, 0x6112a3b7)
    ensures Rounds(s, b, 40)
      == Vars(0x79ea687a, 0x6dc57a8a, 0x34df1604, 0x41a65cb1, 0x1efbc0a0, 0xf0781bc8, 0xa507a53d, 0x0772a26b)
  {
    hide Schedule, Rounds, K;
    Constants32();
    var v := Vars(0x73b33bf5, 0xea992a22, 0xa0060b30, 0x363482c9, 0xba591112, 0x0109ab3a, 0xade79437, 0x6112a3b7);
    v := OneRound(s, b, 32, v, 0x27b70a85, 0x93f5997f, 0x98e12507, 0x9cd9f5f6);
    v := OneRound(s, b, 33, v, 0x2e1b2138, 0x3b68ba73, 0xfe604df5, 0x59249dd3);
    v := OneRound(s, b, 34, v, 0x4d2c6dfc, 0xaff4ffc1, 0xa9a7738c, 0x085f3833);
    v := OneRound(s, b, 35, v, 0x53380d13, 0xf10a5c62, 0x65a0cfe4, 0xf4b002d6);
    v := OneRound(s, b, 36, v, 0x650a7354, 0x0a8b3996, 0x41a65cb1, 0x0772a26b);
    v := OneRound(s, b, 37, v, 0x766a0abb, 0x72af830a, 0x34df1604, 0xa507a53d);
    v := OneRound(s, b, 38, v, 0x81c2c92e, 0x9409e33e, 0x6dc57a8a, 0xf0781bc8);
    v := OneRound(s, b, 39, v, 0x92722c85, 0x24641522, 0x79ea687a, 0x1efbc0a0);
  }

  lemma Rounds40(s: Vars, b: Block)
    requires Words40(b)
    requires Rounds(s, b, 40)
      == Vars(0x79ea687a, 0x6dc57a8a, 0x34df1604, 0x41a65cb1, 0x1efbc0a0, 0xf0781bc8, 0xa507a53d, 0x0772a26b)
    ensures Rounds(s, b, 48)
      == Vars(0x4172328d, 0xa14c14b0, 0x72ab4b91, 0x26628815, 0xfecf0bc6, 0xd57b94a9, 0xb7755da1, 0xa80f11f0)
  {
    hide Schedule, Rounds, K;
    Constants40();
    var v := Vars(0x79ea687a, 0x6dc57a8a, 0x34df1604, 0x41a65cb1, 0x1efbc0a0, 0xf0781bc8, 0xa507a53d, 0x0772a26b);
    v := OneRound(s, b, 40, v, 0xa2bfe8a1, 0x9f47bf94, 0xd6670766, 0x26352d63);
    v := OneRound(s, b, 41, v, 0xa81a664b, 0xf0a64f5a, 0xdf46652f, 0x838b2711);
    v := OneRound(s, b, 42, v, 0xc24b8b70, 0x3e246a79, 0x17aa0dfe, 0xdecd4715);
    v := OneRound(s, b, 43, v, 0xc76c51a3, 0x27333ba3, 0x9d4baf93, 0xfda24c2e);
    v := OneRound(s, b, 44, v, 0xd192e819, 0x0c4763f2, 0x26628815, 0xa80f11f0);
    v := OneRound(s, b, 45, v, 0xd6990624, 0x840abf27, 0x72ab4b91, 0xb7755da1);
    v := OneRound(s, b, 46, v, 0xf40e3585, 0x7a290d5d, 0xa14c14b0, 0xd57b94a9);
    v := OneRound(s, b, 47, v, 0x106aa070, 0x065c43da, 0x4172328d, 0xfecf0bc6);
  }

  lemma Rounds48(s: Vars, b: Block)
    requires Words48(b)
    requires Rounds(s, b, 48)
      == Vars(0x4172328d, 0xa14c14b0, 0x72ab4b91, 0x26628815, 0xfecf0bc6, 0xd57b94a9, 0xb7755da1, 0xa80f11f0)
    ensures Rounds(s, b, 56)
      == Vars(0x38cc9913, 0x3ec45cdb, 0xf5702fdb, 0x101fd28f, 0x54cb266b, 0xe50e1b4f, 0x9f4787c3, 0x529e7d00)
  {
    hide Schedule, Rounds, K;
    Constants48();
    var v := Vars(0x4172328d, 0xa14c14b0, 0x72ab4b91, 0x26628815, 0xfecf0bc6, 0xd57b94a9, 0xb7755da1, 0xa80f11f0);
    v := OneRound(s, b, 48, v, 0x19a4c116, 0xfb3e89cb, 0x05757ceb, 0xbd714038);
    v := OneRound(s, b, 49, v, 0x1e376c08, 0xcc7617db, 0xf11bfaa8, 0x6e5c390c);
    v := OneRound(s, b, 50, v, 0x2748774c, 0xb9e66c34, 0x7a0508a1, 0x52f1ccf7);
    v := OneRound(s, b, 51, v, 0x34b0bcb5, 0xa9993667, 0x886e7a22, 0x49231c1e);
    v := OneRound(s, b, 52, v, 0x391c0cb3, 0x84badedd, 0x101fd28f, 0x529e7d00);
    v := OneRound(s, b, 53, v, 0x4ed8aa4a, 0xc21462bc, 0xf5702fdb, 0x9f4787c3);
    v := OneRound(s, b, 54, v, 0x5b9cca4f, 0x1487472c, 0x3ec45cdb, 0xe50e1b4f);
    v := OneRound(s, b, 55, v, 0x682e6ff3, 0xb20f7a99, 0x38cc9913, 0x54cb266b);
  }

  lemma Rounds56(s: Vars, b: Block)
    requires Words56(b)
    requires Rounds(s, b, 56)
      == Vars(0x38cc9913, 0x3ec45cdb, 0xf5702fdb, 0x101fd28f, 0x54cb266b, 0xe50e1b4f, 0x9f4787c3, 0x529e7d00)
    ensures Rounds(s, b, 64)
      == Vars(0x506e3058, 0xd39a2165, 0x04d24d6c, 0xb85e2ce9, 0x5ef50f24, 0xfb121210, 0x948d25b6, 0x961f4894)
  {
    hide Schedule, Rounds, K;
    Constants56();
    var v := Vars(0x38cc9913, 0x3ec45cdb, 0xf5702fdb, 0x101fd28f, 0x54cb266b, 0xe50e1b4f, 0x9f4787c3, 0x529e7d00);
    v := OneRound(s, b, 56, v, 0x748f82ee, 0xef57b9cd, 0xfcd1887b, 0x9b5e906c);
    v := OneRound(s, b, 57, v, 0x78a5636f, 0xebe6b238, 0xc062d46f, 0x7e44008e);
    v := OneRound(s, b, 58, v, 0x84c87814, 0x9fe3095e, 0xffb70472, 0x6d83bfc6);
    v := OneRound(s, b, 59, v, 0x8cc70208, 0x78bc8d4b, 0xb6ae8fff, 0xb21bad3d);
    v := OneRound(s, b, 60, v, 0x90befffa, 0xa43fcf15, 0xb85e2ce9, 0x961f4894);
    v := OneRound(s, b, 61, v, 0xa4506ceb, 0x668b2ff8, 0x04d24d6c, 0x948d25b6);
    v := OneRound(s, b, 62, v, 0xbef9a3f7, 0xeeaba2cc, 0xd39a2165, 0xfb121210);
    v := OneRound(s, b, 63, v, 0xc67178f2, 0x12b1edeb, 0x506e3058, 0x5ef50f24);
  }

  // ---- The digest --------------------------------------------------------

  /** The number of four digits of base 256. */
  function Number(w: int, x: int, y: int, z: int): int {
    w * 0x100_0000 + x * 0x1_0000 + y * 0x100 + z
  }

  lemma FourBytes(b: seq<byte>)
    requires |b| == 4
    ensures FromBigEndian(b) == Number(b[0], b[1], b[2], b[3])
  {
    assert b[..3][..2] == b[..2] && b[..2][..1] == b[..1] && b[..1][..0] == [];
    assert FromBigEndian(b[..1]) == b[0];
    assert FromBigEndian(b[..2]) == FromBigEndian(b[..1]) * 256 + b[1];
  }

  lemma FirstWord(b: Block, t: nat, w: Word)
    requires t < 16
    requires w as int == Number(b[4 * t], b[4 * t + 1], b[4 * t + 2], b[4 * t + 3])
    ensures Schedule(b, t) == w
  {
    hide FromBigEndian;
    var p := b[4 * t..4 * t + 4];
    FourBytes(p);
    assert Pow256(4) == 0x1_0000_0000;
    Back(w, FromBigEndian(p));
  }

  /** "abc", padded to one block. */
  function Message(): Block {
    [97, 98, 99, 128] + seq(59, _ => 0) + [24]
  }

  lemma MessageIsPadded()
    ensures Padded([97, 98, 99]) == Message()
  {
    assert U64Be(24) == [0, 0, 0, 0, 0, 0, 0, 24];
  }

  lemma FirstWords(b: Block)
    requires b == Message()
    ensures Words0(b) && Words8(b)
  {
    hide Schedule;
    FirstWord(b, 0, 0x61626380);
    FirstWord(b, 15, 0x00000018);
    forall t | 1 <= t < 15
      ensures Schedule(b, t) == 0
    {
      FirstWord(b, t, 0);
    }
  }

  lemma Start()
    ensures Initial()
      == Vars(0x6a09e667, 0xbb67ae85, 0x3c6ef372, 0xa54ff53a, 0x510e527f, 0x9b05688c, 0x1f83d9ab, 0x5be0cd19)
  {
    Back(0x6a09e667, H0(0)); Back(0xbb67ae85, H0(1)); Back(0x3c6ef372, H0(2)); Back(0xa54ff53a, H0(3));
    Back(0x510e527f, H0(4)); Back(0x9b05688c, H0(5)); Back(0x1f83d9ab, H0(6)); Back(0x5be0cd19, H0(7));
  }

  lemma AllRounds(s: Vars, b: Block)
    requires b == Message()
    requires Rounds(s, b, 0)
      == Vars(0x6a09e667, 0xbb67ae85, 0x3c6ef372, 0xa54ff53a, 0x510e527f, 0x9b05688c, 0x1f83d9ab, 0x5be0cd19)
    ensures Rounds(s, b, 64)
      == Vars(0x506e3058, 0xd39a2165, 0x04d24d6c, 0xb85e2ce9, 0x5ef50f24, 0xfb121210, 0x948d25b6, 0x961f4894)
  {
    hide Schedule, Rounds, Message;
    FirstWords(b);
    Extend16(b); Extend24(b); Extend32(b); Extend40(b); Extend48(b); Extend56(b);
    Rounds0(s, b); Rounds8(s, b); Rounds16(s, b); Rounds24(s, b);
    Rounds32(s, b); Rounds40(s, b); Rounds48(s, b); Rounds56(s, b);
  }

  lemma SameDigits(a: seq<byte>, b: seq<byte>)
    requires |a| == 4 && |b| == 4
    requires Number(a[0], a[1], a[2], a[3]) == Number(b[0], b[1], b[2], b[3])
    ensures a == b
  {
    hide Number;
    DigitsOf(a[0], a[1], a[2], a[3]);
    DigitsOf(b[0], b[1], b[2], b[3]);
  }

  lemma DigitsOf(w: int, x: int, y: int, z: int)
    requires 0 <= w < 256 && 0 <= x < 256 && 0 <= y < 256 && 0 <= z < 256
    ensures var n := Number(w, x, y, z);
      n / 0x100_0000 == w && n / 0x1_0000 % 256 == x && n / 256 % 256 == y && n % 256 == z
  {
    var n := Number(w, x, y, z);
    assert n / 0x1_0000 == w * 256 + x && n / 256 == (w * 256 + x) * 256 + y;
  }

  lemma WordBytes(w: Word, n: nat, b: seq<byte>)
    requires w as int == n && |b| == 4 && n == Number(b[0], b[1], b[2], b[3])
    ensures BytesOf(w) == b
  {
    hide FromBigEndian, BigEndian, Number;
    assert Pow256(4) == 0x1_0000_0000;
    BigEndianRoundTrip(n, 4);
    FourBytes(BigEndian(n, 4));
    SameDigits(BigEndian(n, 4), b);
  }

  /** The digest of "abc" is the published one. */
  lemma DigestOfAbc()
    ensures Sha256.Sha256([97, 98, 99]) == [
      0xba, 0x78, 0x16, 0xbf, 0x8f, 0x01, 0xcf, 0xea,
      0x41, 0x41, 0x40, 0xde, 0x5d, 0xae, 0x22, 0x23,
      0xb0, 0x03, 0x61, 0xa3, 0x96, 0x17, 0x7a, 0x9c,
      0xb4, 0x10, 0xff, 0x61, 0xf2, 0x00, 0x15, 0xad
    ]
  {
    hide Padded, Rounds, Initial, BytesOf, Message;
    MessageIsPadded();
    var b, s := Message(), Initial();
    Start();
    RoundsNone(s, b);
    AllRounds(s, b);
    OneBlock(b);
    assert Sum(s, Rounds(s, b, 64))
      == Vars(0xba7816bf, 0x8f01cfea, 0x414140de, 0x5dae2223, 0xb00361a3, 0x96177a9c, 0xb410ff61, 0xf20015ad);
    WordBytes(0xba7816bf, 0xba7816bf, [0xba, 0x78, 0x16, 0xbf]);
    WordBytes(0x8f01cfea, 0x8f01cfea, [0x8f, 0x01, 0xcf, 0xea]);
    WordBytes(0x414140de, 0x414140de, [0x41, 0x41, 0x40, 0xde]);
    WordBytes(0x5dae2223, 0x5dae2223, [0x5d, 0xae, 0x22, 0x23]);
    WordBytes(0xb00361a3, 0xb00361a3, [0xb0, 0x03, 0x61, 0xa3]);
    WordBytes(0x96177a9c, 0x96177a9c, [0x96, 0x17, 0x7a, 0x9c]);
    WordBytes(0xb410ff61, 0xb410ff61, [0xb4, 0x10, 0xff, 0x61]);
    WordBytes(0xf20015ad, 0xf20015ad, [0xf2, 0x00, 0x15, 0xad]);
  }

  lemma RoundsNone(s: Vars, b: Block)
    ensures Rounds(s, b, 0) == s
  {
  }

  lemma OneBlock(b: Block)
    ensures HashBlocks(b) == Sum(Initial(), Rounds(Initial(), b, 64))
  {
    hide Rounds, Initial, Sum;
    assert b[..0] == [] && b[0..] == b;
  }
}
