/** The digest of "abc" that appendix A of FIPS 180-1 gives, step by step: the words of its only block, the
    five working words after every round, and their sum. */
module Sha1Abc {
  import opened Octets
  import opened Sha1Spec
  import opened Sha1

  const ABC: seq<bv8> := [0x61, 0x62, 0x63]

  const BLOCK: seq<bv8> := [0x61, 0x62, 0x63, 0x80] + Zeros(56) + [0, 0, 0, 0x18]

  lemma PaddedAbc()
    ensures Padded(ABC) == BLOCK
  {
    LengthOfAbc();
    hide LengthField, PadZeros;
    assert Padded(ABC) == [0x61, 0x62, 0x63] + [0x80] + Zeros(52) + [0, 0, 0, 0, 0, 0, 0, 0x18];
    assert Zeros(56) == Zeros(52) + [0, 0, 0, 0];
  }

  lemma LengthOfAbc()
    ensures PadZeros(3) == 52 && LengthField(24) == [0, 0, 0, 0, 0, 0, 0, 0x18]
  {
    AbcOctets();
    hide Octet;
  }

  lemma AbcOctets()
    ensures Octet(0) == 0 && Octet(24) == 0x18
  {
  }

  // ----- The schedule

  /** Sixteen words of the schedule, from word `t` on. */
  predicate Sixteen(b: seq<bv8>, t: nat, w0: bv32, w1: bv32, w2: bv32, w3: bv32, w4: bv32, w5: bv32, w6: bv32,
                    w7: bv32, w8: bv32, w9: bv32, w10: bv32, w11: bv32, w12: bv32, w13: bv32, w14: bv32, w15: bv32)
    requires |b| == 64
  {
    && W(b, t) == w0 && W(b, t + 1) == w1 && W(b, t + 2) == w2 && W(b, t + 3) == w3
    && W(b, t + 4) == w4 && W(b, t + 5) == w5 && W(b, t + 6) == w6 && W(b, t + 7) == w7
    && W(b, t + 8) == w8 && W(b, t + 9) == w9 && W(b, t + 10) == w10 && W(b, t + 11) == w11
    && W(b, t + 12) == w12 && W(b, t + 13) == w13 && W(b, t + 14) == w14 && W(b, t + 15) == w15
  }

  lemma FirstWord(b: seq<bv8>, t: nat)
    requires b == BLOCK && t < 16
    ensures W(b, t) == Word(if t == 0 then 0x61 else 0, if t == 0 then 0x62 else 0, if t == 0 then 0x63 else 0,
                            if t == 0 then 0x80 else if t == 15 then 0x18 else 0)
  {
    hide Word;
  }

  lemma WordValues()
    ensures Word(0x61, 0x62, 0x63, 0x80) == 0x61626380 && Word(0, 0, 0, 0) == 0 && Word(0, 0, 0, 0x18) == 0x18
  {
  }

  lemma LaterWord(b: seq<bv8>, t: nat, r: bv32)
    requires |b| == 64 && t >= 16 && r == Rol1(W(b, t - 3) ^ W(b, t - 8) ^ W(b, t - 14) ^ W(b, t - 16))
    ensures W(b, t) == r
  {
    hide Rol1;
  }

  lemma WordsTo16(b: seq<bv8>)
    requires b == BLOCK
    ensures Sixteen(b, 0, 0x61626380, 0x00000000, 0x00000000, 0x00000000, 0x00000000,
                    0x00000000, 0x00000000, 0x00000000, 0x00000000, 0x00000000, 0x00000000,
                    0x00000000, 0x00000000, 0x00000000, 0x00000000, 0x00000018)
  {
    hide W, Word;
    WordValues();
    FirstWord(b, 0); FirstWord(b, 1); FirstWord(b, 2); FirstWord(b, 3);
    FirstWord(b, 4); FirstWord(b, 5); FirstWord(b, 6); FirstWord(b, 7);
    FirstWord(b, 8); FirstWord(b, 9); FirstWord(b, 10); FirstWord(b, 11);
    FirstWord(b, 12); FirstWord(b, 13); FirstWord(b, 14); FirstWord(b, 15);
  }

  lemma WordsTo32(b: seq<bv8>)
    requires |b| == 64
    requires Sixteen(b, 0, 0x61626380, 0x00000000, 0x00000000, 0x00000000, 0x00000000,
                    0x00000000, 0x00000000, 0x00000000, 0x00000000, 0x00000000, 0x00000000,
                    0x00000000, 0x00000000, 0x00000000, 0x00000000, 0x00000018)
    ensures Sixteen(b, 16, 0xc2c4c700, 0x00000000, 0x00000030, 0x85898e01, 0x00000000,
                    0x00000060, 0x0b131c03, 0x00000030, 0x85898ec1, 0x16263806, 0x00000000,
                    0x00000180, 0x2c4c700c, 0x000000f0, 0x93afb507, 0x5898e048)
  {
    hide W;
    LaterWord(b, 16, 0xc2c4c700); LaterWord(b, 17, 0x00000000);
    LaterWord(b, 18, 0x00000030); LaterWord(b, 19, 0x85898e01);
    LaterWord(b, 20, 0x00000000); LaterWord(b, 21, 0x00000060);
    LaterWord(b, 22, 0x0b131c03); LaterWord(b, 23, 0x00000030);
    LaterWord(b, 24, 0x85898ec1); LaterWord(b, 25, 0x16263806);
    LaterWord(b, 26, 0x00000000); LaterWord(b, 27, 0x00000180);
    LaterWord(b, 28, 0x2c4c700c); LaterWord(b, 29, 0x000000f0);
    LaterWord(b, 30, 0x93afb507); LaterWord(b, 31, 0x5898e048);
  }

  lemma WordsTo48(b: seq<bv8>)
    requires |b| == 64
    requires Sixteen(b, 16, 0xc2c4c700, 0x00000000, 0x00000030, 0x85898e01, 0x00000000,
                    0x00000060, 0x0b131c03, 0x00000030, 0x85898ec1, 0x16263806, 0x00000000,
                    0x00000180, 0x2c4c700c, 0x000000f0, 0x93afb507, 0x5898e048)
    ensures Sixteen(b, 32, 0x8e9a9202, 0x00000600, 0xb131c0f0, 0x16263bc6, 0x4ebed41e,
                    0x626380a1, 0x16263806, 0x000018c0, 0xd2e138c4, 0x00000f00, 0x3afb5079,
                    0x898e04e5, 0xe2ba3c2b, 0x000060c0, 0x053a37cd, 0x74458547)
  {
    hide W;
    LaterWord(b, 32, 0x8e9a9202); LaterWord(b, 33, 0x00000600);
    LaterWord(b, 34, 0xb131c0f0); LaterWord(b, 35, 0x16263bc6);
    LaterWord(b, 36, 0x4ebed41e); LaterWord(b, 37, 0x626380a1);
    LaterWord(b, 38, 0x16263806); LaterWord(b, 39, 0x000018c0);
    LaterWord(b, 40, 0xd2e138c4); LaterWord(b, 41, 0x00000f00);
    LaterWord(b, 42, 0x3afb5079); LaterWord(b, 43, 0x898e04e5);
    LaterWord(b, 44, 0xe2ba3c2b); LaterWord(b, 45, 0x000060c0);
    LaterWord(b, 46, 0x053a37cd); LaterWord(b, 47, 0x74458547);
  }

  lemma WordsTo64(b: seq<bv8>)
    requires |b| == 64
    requires Sixteen(b, 32, 0x8e9a9202, 0x00000600, 0xb131c0f0, 0x16263bc6, 0x4ebed41e,
                    0x626380a1, 0x16263806, 0x000018c0, 0xd2e138c4, 0x00000f00, 0x3afb5079,
                    0x898e04e5, 0xe2ba3c2b, 0x000060c0, 0x053a37cd, 0x74458547)
    ensures Sixteen(b, 48, 0xda9415ed, 0x26380a16, 0x626383a1, 0x4ebf54de, 0x3835b44b,
                    0x0000f600, 0x1e84c7a3, 0x98e04d98, 0x651d16a0, 0x62658ca1, 0x458544d6,
                    0x44584cb7, 0x7ba06619, 0x6380aea2, 0x0ae55269, 0x627b49a1)
  {
    hide W;
    LaterWord(b, 48, 0xda9415ed); LaterWord(b, 49, 0x26380a16);
    LaterWord(b, 50, 0x626383a1); LaterWord(b, 51, 0x4ebf54de);
    LaterWord(b, 52, 0x3835b44b); LaterWord(b, 53, 0x0000f600);
    LaterWord(b, 54, 0x1e84c7a3); LaterWord(b, 55, 0x98e04d98);
    LaterWord(b, 56, 0x651d16a0); LaterWord(b, 57, 0x62658ca1);
    LaterWord(b, 58, 0x458544d6); LaterWord(b, 59, 0x44584cb7);
    LaterWord(b, 60, 0x7ba06619); LaterWord(b, 61, 0x6380aea2);
    LaterWord(b, 62, 0x0ae55269); LaterWord(b, 63, 0x627b49a1);
  }

  lemma WordsTo80(b: seq<bv8>)
    requires |b| == 64
    requires Sixteen(b, 48, 0xda9415ed, 0x26380a16, 0x626383a1, 0x4ebf54de, 0x3835b44b,
                    0x0000f600, 0x1e84c7a3, 0x98e04d98, 0x651d16a0, 0x62658ca1, 0x458544d6,
                    0x44584cb7, 0x7ba06619, 0x6380aea2, 0x0ae55269, 0x627b49a1)
    ensures Sixteen(b, 64, 0x7cd45c9d, 0x000f0000, 0xfb50753a, 0xec6765e8, 0xba3c2be2,
                    0x0060c000, 0x3a37cd05, 0x458546f4, 0xb8599dd6, 0x380a1a26, 0x01e02203,
                    0xe7cc3456, 0xe6e60b69, 0x00f60a00, 0x5795ef4f, 0x822e0879)
  {
    hide W;
    LaterWord(b, 64, 0x7cd45c9d); LaterWord(b, 65, 0x000f0000);
    LaterWord(b, 66, 0xfb50753a); LaterWord(b, 67, 0xec6765e8);
    LaterWord(b, 68, 0xba3c2be2); LaterWord(b, 69, 0x0060c000);
    LaterWord(b, 70, 0x3a37cd05); LaterWord(b, 71, 0x458546f4);
    LaterWord(b, 72, 0xb8599dd6); LaterWord(b, 73, 0x380a1a26);
    LaterWord(b, 74, 0x01e02203); LaterWord(b, 75, 0xe7cc3456);
    LaterWord(b, 76, 0xe6e60b69); LaterWord(b, 77, 0x00f60a00);
    LaterWord(b, 78, 0x5795ef4f); LaterWord(b, 79, 0x822e0879);
  }

  // ----- The rounds

  /** Round `t` takes the working words from `was` to `now`. */
  lemma OneRound(b: seq<bv8>, t: nat, was: Words, now: Words) returns (s: Words)
    requires |b| == 64 && Rounds(INITIAL, b, t) == was && now == Round(was, t, W(b, t))
    ensures s == now && Rounds(INITIAL, b, t + 1) == now
  {
    hide Round, W;
    s := now;
  }

  lemma RoundsTo16(b: seq<bv8>)
    requires |b| == 64
    requires Sixteen(b, 0, 0x61626380, 0x00000000, 0x00000000, 0x00000000, 0x00000000,
                    0x00000000, 0x00000000, 0x00000000, 0x00000000, 0x00000000, 0x00000000,
                    0x00000000, 0x00000000, 0x00000000, 0x00000000, 0x00000018)
    requires Rounds(INITIAL, b, 0) == INITIAL
    ensures Rounds(INITIAL, b, 16) == Words(0x20bdd62f, 0x196bee77, 0x644a3da5, 0x1181ed99, 0x18c623f9)
  {
    hide W, Rounds;
    var s := INITIAL;
    s := OneRound(b, 0, s, Words(0x0116fc33, 0x67452301, 0x7bf36ae2, 0x98badcfe, 0x10325476));
    s := OneRound(b, 1, s, Words(0x8990536d, 0x0116fc33, 0x59d148c0, 0x7bf36ae2, 0x98badcfe));
    s := OneRound(b, 2, s, Words(0xa1390f08, 0x8990536d, 0xc045bf0c, 0x59d148c0, 0x7bf36ae2));
    s := OneRound(b, 3, s, Words(0xcdd8e11b, 0xa1390f08, 0x626414db, 0xc045bf0c, 0x59d148c0));
    s := OneRound(b, 4, s, Words(0xcfd499de, 0xcdd8e11b, 0x284e43c2, 0x626414db, 0xc045bf0c));
    s := OneRound(b, 5, s, Words(0x3fc7ca40, 0xcfd499de, 0xf3763846, 0x284e43c2, 0x626414db));
    s := OneRound(b, 6, s, Words(0x993e30c1, 0x3fc7ca40, 0xb3f52677, 0xf3763846, 0x284e43c2));
    s := OneRound(b, 7, s, Words(0x9e8c07d4, 0x993e30c1, 0x0ff1f290, 0xb3f52677, 0xf3763846));
    s := OneRound(b, 8, s, Words(0x4b6ae328, 0x9e8c07d4, 0x664f8c30, 0x0ff1f290, 0xb3f52677));
    s := OneRound(b, 9, s, Words(0x8351f929, 0x4b6ae328, 0x27a301f5, 0x664f8c30, 0x0ff1f290));
    s := OneRound(b, 10, s, Words(0xfbda9e89, 0x8351f929, 0x12dab8ca, 0x27a301f5, 0x664f8c30));
    s := OneRound(b, 11, s, Words(0x63188fe4, 0xfbda9e89, 0x60d47e4a, 0x12dab8ca, 0x27a301f5));
    s := OneRound(b, 12, s, Words(0x4607b664, 0x63188fe4, 0x7ef6a7a2, 0x60d47e4a, 0x12dab8ca));
    s := OneRound(b, 13, s, Words(0x9128f695, 0x4607b664, 0x18c623f9, 0x7ef6a7a2, 0x60d47e4a));
    s := OneRound(b, 14, s, Words(0x196bee77, 0x9128f695, 0x1181ed99, 0x18c623f9, 0x7ef6a7a2));
    s := OneRound(b, 15, s, Words(0x20bdd62f, 0x196bee77, 0x644a3da5, 0x1181ed99, 0x18c623f9));
  }

  lemma RoundsTo32(b: seq<bv8>)
    requires |b| == 64
    requires Sixteen(b, 16, 0xc2c4c700, 0x00000000, 0x00000030, 0x85898e01, 0x00000000,
                    0x00000060, 0x0b131c03, 0x00000030, 0x85898ec1, 0x16263806, 0x00000000,
                    0x00000180, 0x2c4c700c, 0x000000f0, 0x93afb507, 0x5898e048)
    requires Rounds(INITIAL, b, 16) == Words(0x20bdd62f, 0x196bee77, 0x644a3da5, 0x1181ed99, 0x18c623f9)
    ensures Rounds(INITIAL, b, 32) == Words(0x3b845d33, 0x1267b407, 0x717eebd7, 0xa0dc2d4b, 0xd2aa1365)
  {
    hide W, Rounds;
    var s := Words(0x20bdd62f, 0x196bee77, 0x644a3da5, 0x1181ed99, 0x18c623f9);
    s := OneRound(b, 16, s, Words(0x4e925823, 0x20bdd62f, 0xc65afb9d, 0x644a3da5, 0x1181ed99));
    s := OneRound(b, 17, s, Words(0x82aa6728, 0x4e925823, 0xc82f758b, 0xc65afb9d, 0x644a3da5));
    s := OneRound(b, 18, s, Words(0xdc64901d, 0x82aa6728, 0xd3a49608, 0xc82f758b, 0xc65afb9d));
    s := OneRound(b, 19, s, Words(0xfd9e1d7d, 0xdc64901d, 0x20aa99ca, 0xd3a49608, 0xc82f758b));
    s := OneRound(b, 20, s, Words(0x1a37b0ca, 0xfd9e1d7d, 0x77192407, 0x20aa99ca, 0xd3a49608));
    s := OneRound(b, 21, s, Words(0x33a23bfc, 0x1a37b0ca, 0x7f67875f, 0x77192407, 0x20aa99ca));
    s := OneRound(b, 22, s, Words(0x21283486, 0x33a23bfc, 0x868dec32, 0x7f67875f, 0x77192407));
    s := OneRound(b, 23, s, Words(0xd541f12d, 0x21283486, 0x0ce88eff, 0x868dec32, 0x7f67875f));
    s := OneRound(b, 24, s, Words(0xc7567dc6, 0xd541f12d, 0x884a0d21, 0x0ce88eff, 0x868dec32));
    s := OneRound(b, 25, s, Words(0x48413ba4, 0xc7567dc6, 0x75507c4b, 0x884a0d21, 0x0ce88eff));
    s := OneRound(b, 26, s, Words(0xbe35fbd5, 0x48413ba4, 0xb1d59f71, 0x75507c4b, 0x884a0d21));
    s := OneRound(b, 27, s, Words(0x4aa84d97, 0xbe35fbd5, 0x12104ee9, 0xb1d59f71, 0x75507c4b));
    s := OneRound(b, 28, s, Words(0x8370b52e, 0x4aa84d97, 0x6f8d7ef5, 0x12104ee9, 0xb1d59f71));
    s := OneRound(b, 29, s, Words(0xc5fbaf5d, 0x8370b52e, 0xd2aa1365, 0x6f8d7ef5, 0x12104ee9));
    s := OneRound(b, 30, s, Words(0x1267b407, 0xc5fbaf5d, 0xa0dc2d4b, 0xd2aa1365, 0x6f8d7ef5));
    s := OneRound(b, 31, s, Words(0x3b845d33, 0x1267b407, 0x717eebd7, 0xa0dc2d4b, 0xd2aa1365));
  }

  lemma RoundsTo48(b: seq<bv8>)
    requires |b| == 64
    requires Sixteen(b, 32, 0x8e9a9202, 0x00000600, 0xb131c0f0, 0x16263bc6, 0x4ebed41e,
                    0x626380a1, 0x16263806, 0x000018c0, 0xd2e138c4, 0x00000f00, 0x3afb5079,
                    0x898e04e5, 0xe2ba3c2b, 0x000060c0, 0x053a37cd, 0x74458547)
    requires Rounds(INITIAL, b, 32) == Words(0x3b845d33, 0x1267b407, 0x717eebd7, 0xa0dc2d4b, 0xd2aa1365)
    ensures Rounds(INITIAL, b, 48) == Words(0xbead02ca, 0xa01b846c, 0x8714787c, 0x503ca382, 0xfb86c6ab)
  {
    hide W, Rounds;
    var s := Words(0x3b845d33, 0x1267b407, 0x717eebd7, 0xa0dc2d4b, 0xd2aa1365);
    s := OneRound(b, 32, s, Words(0x046faa0a, 0x3b845d33, 0xc499ed01, 0x717eebd7, 0xa0dc2d4b));
    s := OneRound(b, 33, s, Words(0x2c0ebc11, 0x046faa0a, 0xcee1174c, 0xc499ed01, 0x717eebd7));
    s := OneRound(b, 34, s, Words(0x21796ad4, 0x2c0ebc11, 0x811bea82, 0xcee1174c, 0xc499ed01));
    s := OneRound(b, 35, s, Words(0xdcbbb0cb, 0x21796ad4, 0x4b03af04, 0x811bea82, 0xcee1174c));
    s := OneRound(b, 36, s, Words(0x0f511fd8, 0xdcbbb0cb, 0x085e5ab5, 0x4b03af04, 0x811bea82));
    s := OneRound(b, 37, s, Words(0xdc63973f, 0x0f511fd8, 0xf72eec32, 0x085e5ab5, 0x4b03af04));
    s := OneRound(b, 38, s, Words(0x4c986405, 0xdc63973f, 0x03d447f6, 0xf72eec32, 0x085e5ab5));
    s := OneRound(b, 39, s, Words(0x32de1cba, 0x4c986405, 0xf718e5cf, 0x03d447f6, 0xf72eec32));
    s := OneRound(b, 40, s, Words(0xfc87dedf, 0x32de1cba, 0x53261901, 0xf718e5cf, 0x03d447f6));
    s := OneRound(b, 41, s, Words(0x970a0d5c, 0xfc87dedf, 0x8cb7872e, 0x53261901, 0xf718e5cf));
    s := OneRound(b, 42, s, Words(0x7f193dc5, 0x970a0d5c, 0xff21f7b7, 0x8cb7872e, 0x53261901));
    s := OneRound(b, 43, s, Words(0xee1b1aaf, 0x7f193dc5, 0x25c28357, 0xff21f7b7, 0x8cb7872e));
    s := OneRound(b, 44, s, Words(0x40f28e09, 0xee1b1aaf, 0x5fc64f71, 0x25c28357, 0xff21f7b7));
    s := OneRound(b, 45, s, Words(0x1c51e1f2, 0x40f28e09, 0xfb86c6ab, 0x5fc64f71, 0x25c28357));
    s := OneRound(b, 46, s, Words(0xa01b846c, 0x1c51e1f2, 0x503ca382, 0xfb86c6ab, 0x5fc64f71));
    s := OneRound(b, 47, s, Words(0xbead02ca, 0xa01b846c, 0x8714787c, 0x503ca382, 0xfb86c6ab));
  }

  lemma RoundsTo64(b: seq<bv8>)
    requires |b| == 64
    requires Sixteen(b, 48, 0xda9415ed, 0x26380a16, 0x626383a1, 0x4ebf54de, 0x3835b44b,
                    0x0000f600, 0x1e84c7a3, 0x98e04d98, 0x651d16a0, 0x62658ca1, 0x458544d6,
                    0x44584cb7, 0x7ba06619, 0x6380aea2, 0x0ae55269, 0x627b49a1)
    requires Rounds(INITIAL, b, 48) == Words(0xbead02ca, 0xa01b846c, 0x8714787c, 0x503ca382, 0xfb86c6ab)
    ensures Rounds(INITIAL, b, 64) == Words(0x6b61c9e1, 0xb66c020b, 0x9523272c, 0xf5d5b051, 0x8fd4b796)
  {
    hide W, Rounds;
    var s := Words(0xbead02ca, 0xa01b846c, 0x8714787c, 0x503ca382, 0xfb86c6ab);
    s := OneRound(b, 48, s, Words(0xbaf39337, 0xbead02ca, 0x2806e11b, 0x8714787c, 0x503ca382));
    s := OneRound(b, 49, s, Words(0x120731c5, 0xbaf39337, 0xafab40b2, 0x2806e11b, 0x8714787c));
    s := OneRound(b, 50, s, Words(0x641db2ce, 0x120731c5, 0xeebce4cd, 0xafab40b2, 0x2806e11b));
    s := OneRound(b, 51, s, Words(0x3847ad66, 0x641db2ce, 0x4481cc71, 0xeebce4cd, 0xafab40b2));
    s := OneRound(b, 52, s, Words(0xe490436d, 0x3847ad66, 0x99076cb3, 0x4481cc71, 0xeebce4cd));
    s := OneRound(b, 53, s, Words(0x27e9f1d8, 0xe490436d, 0x8e11eb59, 0x99076cb3, 0x4481cc71));
    s := OneRound(b, 54, s, Words(0x7b71f76d, 0x27e9f1d8, 0x792410db, 0x8e11eb59, 0x99076cb3));
    s := OneRound(b, 55, s, Words(0x5e6456af, 0x7b71f76d, 0x09fa7c76, 0x792410db, 0x8e11eb59));
    s := OneRound(b, 56, s, Words(0xc846093f, 0x5e6456af, 0x5edc7ddb, 0x09fa7c76, 0x792410db));
    s := OneRound(b, 57, s, Words(0xd262ff50, 0xc846093f, 0xd79915ab, 0x5edc7ddb, 0x09fa7c76));
    s := OneRound(b, 58, s, Words(0x09d785fd, 0xd262ff50, 0xf211824f, 0xd79915ab, 0x5edc7ddb));
    s := OneRound(b, 59, s, Words(0x3f52de5a, 0x09d785fd, 0x3498bfd4, 0xf211824f, 0xd79915ab));
    s := OneRound(b, 60, s, Words(0xd756c147, 0x3f52de5a, 0x4275e17f, 0x3498bfd4, 0xf211824f));
    s := OneRound(b, 61, s, Words(0x548c9cb2, 0xd756c147, 0x8fd4b796, 0x4275e17f, 0x3498bfd4));
    s := OneRound(b, 62, s, Words(0xb66c020b, 0x548c9cb2, 0xf5d5b051, 0x8fd4b796, 0x4275e17f));
    s := OneRound(b, 63, s, Words(0x6b61c9e1, 0xb66c020b, 0x9523272c, 0xf5d5b051, 0x8fd4b796));
  }

  lemma RoundsTo80(b: seq<bv8>)
    requires |b| == 64
    requires Sixteen(b, 64, 0x7cd45c9d, 0x000f0000, 0xfb50753a, 0xec6765e8, 0xba3c2be2,
                    0x0060c000, 0x3a37cd05, 0x458546f4, 0xb8599dd6, 0x380a1a26, 0x01e02203,
                    0xe7cc3456, 0xe6e60b69, 0x00f60a00, 0x5795ef4f, 0x822e0879)
    requires Rounds(INITIAL, b, 64) == Words(0x6b61c9e1, 0xb66c020b, 0x9523272c, 0xf5d5b051, 0x8fd4b796)
    ensures Rounds(INITIAL, b, 80) == Words(0x42541b35, 0x5738d5e1, 0x21834873, 0x681e6df6, 0xd8fdf6ad)
  {
    hide W, Rounds;
    var s := Words(0x6b61c9e1, 0xb66c020b, 0x9523272c, 0xf5d5b051, 0x8fd4b796);
    s := OneRound(b, 64, s, Words(0x19dfa7ac, 0x6b61c9e1, 0xed9b0082, 0x9523272c, 0xf5d5b051));
    s := OneRound(b, 65, s, Words(0x101655f9, 0x19dfa7ac, 0x5ad87278, 0xed9b0082, 0x9523272c));
    s := OneRound(b, 66, s, Words(0x0c3df2b4, 0x101655f9, 0x0677e9eb, 0x5ad87278, 0xed9b0082));
    s := OneRound(b, 67, s, Words(0x78dd4d2b, 0x0c3df2b4, 0x4405957e, 0x0677e9eb, 0x5ad87278));
    s := OneRound(b, 68, s, Words(0x497093c0, 0x78dd4d2b, 0x030f7cad, 0x4405957e, 0x0677e9eb));
    s := OneRound(b, 69, s, Words(0x3f2588c2, 0x497093c0, 0xde37534a, 0x030f7cad, 0x4405957e));
    s := OneRound(b, 70, s, Words(0xc199f8c7, 0x3f2588c2, 0x125c24f0, 0xde37534a, 0x030f7cad));
    s := OneRound(b, 71, s, Words(0x39859de7, 0xc199f8c7, 0x8fc96230, 0x125c24f0, 0xde37534a));
    s := OneRound(b, 72, s, Words(0xedb42de4, 0x39859de7, 0xf0667e31, 0x8fc96230, 0x125c24f0));
    s := OneRound(b, 73, s, Words(0x11793f6f, 0xedb42de4, 0xce616779, 0xf0667e31, 0x8fc96230));
    s := OneRound(b, 74, s, Words(0x5ee76897, 0x11793f6f, 0x3b6d0b79, 0xce616779, 0xf0667e31));
    s := OneRound(b, 75, s, Words(0x63f7dab7, 0x5ee76897, 0xc45e4fdb, 0x3b6d0b79, 0xce616779));
    s := OneRound(b, 76, s, Words(0xa079b7d9, 0x63f7dab7, 0xd7b9da25, 0xc45e4fdb, 0x3b6d0b79));
    s := OneRound(b, 77, s, Words(0x860d21cc, 0xa079b7d9, 0xd8fdf6ad, 0xd7b9da25, 0xc45e4fdb));
    s := OneRound(b, 78, s, Words(0x5738d5e1, 0x860d21cc, 0x681e6df6, 0xd8fdf6ad, 0xd7b9da25));
    s := OneRound(b, 79, s, Words(0x42541b35, 0x5738d5e1, 0x21834873, 0x681e6df6, 0xd8fdf6ad));
  }

  lemma AllRounds(b: seq<bv8>)
    requires b == BLOCK
    ensures Rounds(INITIAL, b, 80) == Words(0x42541b35, 0x5738d5e1, 0x21834873, 0x681e6df6, 0xd8fdf6ad)
  {
    hide W, Sixteen;
    assert Rounds(INITIAL, b, 0) == INITIAL;
    hide Rounds;
    WordsTo16(b);
    WordsTo32(b);
    WordsTo48(b);
    WordsTo64(b);
    WordsTo80(b);
    RoundsTo16(b);
    RoundsTo32(b);
    RoundsTo48(b);
    RoundsTo64(b);
    RoundsTo80(b);
  }

  /** The digest of appendix A. */
  lemma DigestOfAbc()
    ensures Digest(ABC) == Words(0xA9993E36, 0x4706816A, 0xBA3E2571, 0x7850C26C, 0x9CD0D89D)
  {
    hide W, Rounds, Padded;
    PaddedAbc();
    var b := BLOCK;
    AllRounds(b);
    assert b[..64] == b && b[64..] == [];
  }

  /** The twenty bytes that the code puts out for it. */
  lemma OutputOfAbc()
    ensures Output(Digest(ABC)) ==
            [0xa9, 0x99, 0x3e, 0x36, 0x47, 0x06, 0x81, 0x6a, 0xba, 0x3e, 0x25, 0x71, 0x78, 0x50, 0xc2, 0x6c,
             0x9c, 0xd0, 0xd8, 0x9d]
  {
    hide Digest, BytesOf;
    DigestOfAbc();
    WordBytes();
  }

  lemma WordBytes()
    ensures BytesOf(0xA9993E36) == [0xa9, 0x99, 0x3e, 0x36] && BytesOf(0x4706816A) == [0x47, 0x06, 0x81, 0x6a]
    ensures BytesOf(0xBA3E2571) == [0xba, 0x3e, 0x25, 0x71] && BytesOf(0x7850C26C) == [0x78, 0x50, 0xc2, 0x6c]
    ensures BytesOf(0x9CD0D89D) == [0x9c, 0xd0, 0xd8, 0x9d]
  {
  }
}
