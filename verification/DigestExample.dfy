/** The digest of "abc", step by step: the example of appendix B.1 of FIPS 180-2. */
module DigestExample {
  import opened Bytes
  import opened Sha256

  /** The padded message: one block. */
  ghost function Abc(): (block: bytes)
    ensures |block| == 64
  {
    AbcIsOneBlock();
    Pad([0x61, 0x62, 0x63])
  }

  lemma AbcIsOneBlock()
    ensures Pad([0x61, 0x62, 0x63]) == [0x61, 0x62, 0x63, 0x80] + Zeros(52) + [0, 0, 0, 0, 0, 0, 0, 24]
  {
    hide Pad, BigEndian, Zeros;
    LengthOfAbc();
    PadIs([0x61, 0x62, 0x63]);
  }

  lemma PadIs(m: bytes)
    ensures Pad(m) == m + [0x80] + Zeros(PadZeros(|m|)) + BigEndian(BitCount(|m|), 8)
  {
    hide BigEndian, Zeros;
  }

  lemma LengthOfAbc()
    ensures BigEndian(24, 8) == [0, 0, 0, 0, 0, 0, 0, 24]
  {
    assert BigEndian(0, 4) == [0, 0, 0, 0];
    assert BigEndian(0, 7) == [0, 0, 0, 0, 0, 0, 0];
  }

  // ----- The message schedule -----

  predicate Same(a: bytes, b: bytes) { a == b }

  /** Word `t` of the schedule is `w`; said of whatever is the same block, so that it is computed only on demand. */
  ghost predicate HasWord(block: bytes, t: nat, w: bv32) {
    && |block| == 64 && t < 64
    && forall b {:trigger Same(b, block)} :: |b| == 64 && Same(b, block) ==> Schedule(b, t) == w
  }

  lemma WordIs(block: bytes, t: nat, w: bv32)
    requires |block| == 64 && t < 64
    ensures HasWord(block, t, w) <==> Schedule(block, t) == w
  {
    hide Schedule;
    assert Same(block, block);
  }

  lemma FirstWords(block: bytes)
    requires block == Abc()
    ensures HasWord(block, 0, 0x61626380) && HasWord(block, 15, 24)
    ensures forall t :: 1 <= t < 15 ==> HasWord(block, t, 0)
  {
    hide Pad, HasWord;
    AbcIsOneBlock();
    WordIs(block, 0, 0x61626380);
    WordIs(block, 15, 24);
    forall t | 1 <= t < 15 {
      WordIs(block, t, 0);
    }
  }

  lemma Turned(x: bv32)
    ensures Rotr(x, 7) == (x >> 7) | (x << 25) && Rotr(x, 18) == (x >> 18) | (x << 14)
    ensures Rotr(x, 17) == (x >> 17) | (x << 15) && Rotr(x, 19) == (x >> 19) | (x << 13)
  {
  }

  lemma NextWord(block: bytes, t: nat, a: bv32, b: bv32, c: bv32, d: bv32)
    requires |block| == 64 && 16 <= t < 64 && HasWord(block, t - 2, a) && HasWord(block, t - 7, b)
    requires HasWord(block, t - 15, c) && HasWord(block, t - 16, d)
    ensures HasWord(block, t, Add(Add(Add(SmallSigma1(a), b), SmallSigma0(c)), d))
    ensures Rotr(a, 17) == (a >> 17) | (a << 15) && Rotr(a, 19) == (a >> 19) | (a << 13)
    ensures Rotr(c, 7) == (c >> 7) | (c << 25) && Rotr(c, 18) == (c >> 18) | (c << 14)
  {
    hide SmallSigma0, SmallSigma1, Rotr, Add, HasWord;
    Turned(a);
    Turned(c);
    WordIs(block, t - 2, a);
    WordIs(block, t - 7, b);
    WordIs(block, t - 15, c);
    WordIs(block, t - 16, d);
    WordIs(block, t, Add(Add(Add(SmallSigma1(a), b), SmallSigma0(c)), d));
  }

  lemma Words16(block: bytes)
    requires block == Abc()
    ensures HasWord(block, 16, 0x61626380) && HasWord(block, 17, 0x000F0000)
    ensures HasWord(block, 18, 0x7DA86405) && HasWord(block, 19, 0x600003C6)
    ensures HasWord(block, 20, 0x3E9D7B78) && HasWord(block, 21, 0x0183FC00)
    ensures HasWord(block, 22, 0x12DCBFDB) && HasWord(block, 23, 0xE2E2C38E)
  {
    hide HasWord, Abc, Rotr;
    FirstWords(block);
    NextWord(block, 16, 0x00000000, 0x00000000, 0x00000000, 0x61626380);
    NextWord(block, 17, 0x00000018, 0x00000000, 0x00000000, 0x00000000);
    NextWord(block, 18, 0x61626380, 0x00000000, 0x00000000, 0x00000000);
    NextWord(block, 19, 0x000F0000, 0x00000000, 0x00000000, 0x00000000);
    NextWord(block, 20, 0x7DA86405, 0x00000000, 0x00000000, 0x00000000);
    NextWord(block, 21, 0x600003C6, 0x00000000, 0x00000000, 0x00000000);
    NextWord(block, 22, 0x3E9D7B78, 0x00000018, 0x00000000, 0x00000000);
    NextWord(block, 23, 0x0183FC00, 0x61626380, 0x00000000, 0x00000000);
  }

  lemma Words24(block: bytes)
    requires block == Abc()
    ensures HasWord(block, 24, 0xC8215C1A) && HasWord(block, 25, 0xB73679A2)
    ensures HasWord(block, 26, 0xE5BC3909) && HasWord(block, 27, 0x32663C5B)
    ensures HasWord(block, 28, 0x9D209D67) && HasWord(block, 29, 0xEC8726CB)
    ensures HasWord(block, 30, 0x702138A4) && HasWord(block, 31, 0xD3B7973B)
  {
    hide HasWord, Abc, Rotr;
    FirstWords(block);
    Words16(block);
    NextWord(block, 24, 0x12DCBFDB, 0x000F0000, 0x00000000, 0x00000000);
    NextWord(block, 25, 0xE2E2C38E, 0x7DA86405, 0x00000000, 0x00000000);
    NextWord(block, 26, 0xC8215C1A, 0x600003C6, 0x00000000, 0x00000000);
    NextWord(block, 27, 0xB73679A2, 0x3E9D7B78, 0x00000000, 0x00000000);
    NextWord(block, 28, 0xE5BC3909, 0x0183FC00, 0x00000000, 0x00000000);
    NextWord(block, 29, 0x32663C5B, 0x12DCBFDB, 0x00000000, 0x00000000);
    NextWord(block, 30, 0x9D209D67, 0xE2E2C38E, 0x00000018, 0x00000000);
    NextWord(block, 31, 0xEC8726CB, 0xC8215C1A, 0x61626380, 0x00000018);
  }

  lemma Words32(block: bytes)
    requires block == Abc()
    ensures HasWord(block, 32, 0x93F5997F) && HasWord(block, 33, 0x3B68BA73)
    ensures HasWord(block, 34, 0xAFF4FFC1) && HasWord(block, 35, 0xF10A5C62)
    ensures HasWord(block, 36, 0x0A8B3996) && HasWord(block, 37, 0x72AF830A)
    ensures HasWord(block, 38, 0x9409E33E) && HasWord(block, 39, 0x24641522)
  {
    hide HasWord, Abc, Rotr;
    Words16(block);
    Words24(block);
    NextWord(block, 32, 0x702138A4, 0xB73679A2, 0x000F0000, 0x61626380);
    NextWord(block, 33, 0xD3B7973B, 0xE5BC3909, 0x7DA86405, 0x000F0000);
    NextWord(block, 34, 0x93F5997F, 0x32663C5B, 0x600003C6, 0x7DA86405);
    NextWord(block, 35, 0x3B68BA73, 0x9D209D67, 0x3E9D7B78, 0x600003C6);
    NextWord(block, 36, 0xAFF4FFC1, 0xEC8726CB, 0x0183FC00, 0x3E9D7B78);
    NextWord(block, 37, 0xF10A5C62, 0x702138A4, 0x12DCBFDB, 0x0183FC00);
    NextWord(block, 38, 0x0A8B3996, 0xD3B7973B, 0xE2E2C38E, 0x12DCBFDB);
    NextWord(block, 39, 0x72AF830A, 0x93F5997F, 0xC8215C1A, 0xE2E2C38E);
  }

  lemma Words40(block: bytes)
    requires block == Abc()
    ensures HasWord(block, 40, 0x9F47BF94) && HasWord(block, 41, 0xF0A64F5A)
    ensures HasWord(block, 42, 0x3E246A79) && HasWord(block, 43, 0x27333BA3)
    ensures HasWord(block, 44, 0x0C4763F2) && HasWord(block, 45, 0x840ABF27)
    ensures HasWord(block, 46, 0x7A290D5D) && HasWord(block, 47, 0x065C43DA)
  {
    hide HasWord, Abc, Rotr;
    Words24(block);
    Words32(block);
    NextWord(block, 40, 0x9409E33E, 0x3B68BA73, 0xB73679A2, 0xC8215C1A);
    NextWord(block, 41, 0x24641522, 0xAFF4FFC1, 0xE5BC3909, 0xB73679A2);
    NextWord(block, 42, 0x9F47BF94, 0xF10A5C62, 0x32663C5B, 0xE5BC3909);
    NextWord(block, 43, 0xF0A64F5A, 0x0A8B3996, 0x9D209D67, 0x32663C5B);
    NextWord(block, 44, 0x3E246A79, 0x72AF830A, 0xEC8726CB, 0x9D209D67);
    NextWord(block, 45, 0x27333BA3, 0x9409E33E, 0x702138A4, 0xEC8726CB);
    NextWord(block, 46, 0x0C4763F2, 0x24641522, 0xD3B7973B, 0x702138A4);
    NextWord(block, 47, 0x840ABF27, 0x9F47BF94, 0x93F5997F, 0xD3B7973B);
  }

  lemma Words48(block: bytes)
    requires block == Abc()
    ensures HasWord(block, 48, 0xFB3E89CB) && HasWord(block, 49, 0xCC7617DB)
    ensures HasWord(block, 50, 0xB9E66C34) && HasWord(block, 51, 0xA9993667)
    ensures HasWord(block, 52, 0x84BADEDD) && HasWord(block, 53, 0xC21462BC)
    ensures HasWord(block, 54, 0x1487472C) && HasWord(block, 55, 0xB20F7A99)
  {
    hide HasWord, Abc, Rotr;
    Words32(block);
    Words40(block);
    NextWord(block, 48, 0x7A290D5D, 0xF0A64F5A, 0x3B68BA73, 0x93F5997F);
    NextWord(block, 49, 0x065C43DA, 0x3E246A79, 0xAFF4FFC1, 0x3B68BA73);
    NextWord(block, 50, 0xFB3E89CB, 0x27333BA3, 0xF10A5C62, 0xAFF4FFC1);
    NextWord(block, 51, 0xCC7617DB, 0x0C4763F2, 0x0A8B3996, 0xF10A5C62);
    NextWord(block, 52, 0xB9E66C34, 0x840ABF27, 0x72AF830A, 0x0A8B3996);
    NextWord(block, 53, 0xA9993667, 0x7A290D5D, 0x9409E33E, 0x72AF830A);
    NextWord(block, 54, 0x84BADEDD, 0x065C43DA, 0x24641522, 0x9409E33E);
    NextWord(block, 55, 0xC21462BC, 0xFB3E89CB, 0x9F47BF94, 0x24641522);
  }

  lemma Words56(block: bytes)
    requires block == Abc()
    ensures HasWord(block, 56, 0xEF57B9CD) && HasWord(block, 57, 0xEBE6B238)
    ensures HasWord(block, 58, 0x9FE3095E) && HasWord(block, 59, 0x78BC8D4B)
    ensures HasWord(block, 60, 0xA43FCF15) && HasWord(block, 61, 0x668B2FF8)
    ensures HasWord(block, 62, 0xEEABA2CC) && HasWord(block, 63, 0x12B1EDEB)
  {
    hide HasWord, Abc, Rotr;
    Words40(block);
    Words48(block);
    NextWord(block, 56, 0x1487472C, 0xCC7617DB, 0xF0A64F5A, 0x9F47BF94);
    NextWord(block, 57, 0xB20F7A99, 0xB9E66C34, 0x3E246A79, 0xF0A64F5A);
    NextWord(block, 58, 0xEF57B9CD, 0xA9993667, 0x27333BA3, 0x3E246A79);
    NextWord(block, 59, 0xEBE6B238, 0x84BADEDD, 0x0C4763F2, 0x27333BA3);
    NextWord(block, 60, 0x9FE3095E, 0xC21462BC, 0x840ABF27, 0x0C4763F2);
    NextWord(block, 61, 0x78BC8D4B, 0x1487472C, 0x7A290D5D, 0x840ABF27);
    NextWord(block, 62, 0xA43FCF15, 0xB20F7A99, 0x065C43DA, 0x7A290D5D);
    NextWord(block, 63, 0x668B2FF8, 0xEF57B9CD, 0xFB3E89CB, 0x065C43DA);
  }

  // ----- The rounds -----

  /** The working variables after `t` rounds are `v`. */
  ghost predicate IsAt(block: bytes, t: nat, v: Words) {
    && |block| == 64 && t <= 64
    && forall b {:trigger Same(b, block)} :: |b| == 64 && Same(b, block) ==> Rounds(INITIAL, b, t) == v
  }

  lemma VariablesAre(block: bytes, t: nat, v: Words)
    requires |block| == 64 && t <= 64
    ensures IsAt(block, t, v) <==> Rounds(INITIAL, block, t) == v
  {
    hide Rounds;
    assert Same(block, block);
  }

  lemma NextRound(block: bytes, t: nat, v: Words, k: bv32, w: bv32)
    requires |block| == 64 && t < 64 && IsAt(block, t, v) && K[t] == k && HasWord(block, t, w)
    ensures IsAt(block, t + 1, Round(v, k, w))
    ensures Rotr(v.a, 2) == (v.a >> 2) | (v.a << 30) && Rotr(v.a, 13) == (v.a >> 13) | (v.a << 19)
    ensures Rotr(v.a, 22) == (v.a >> 22) | (v.a << 10) && Rotr(v.e, 6) == (v.e >> 6) | (v.e << 26)
    ensures Rotr(v.e, 11) == (v.e >> 11) | (v.e << 21) && Rotr(v.e, 25) == (v.e >> 25) | (v.e << 7)
  {
    hide Round, Schedule, Rotr, HasWord, IsAt;
    Rotated(v.a);
    Rotated(v.e);
    WordIs(block, t, w);
    VariablesAre(block, t, v);
    VariablesAre(block, t + 1, Round(v, k, w));
  }

  lemma Rotated(x: bv32)
    ensures Rotr(x, 2) == (x >> 2) | (x << 30) && Rotr(x, 13) == (x >> 13) | (x << 19)
    ensures Rotr(x, 22) == (x >> 22) | (x << 10) && Rotr(x, 6) == (x >> 6) | (x << 26)
    ensures Rotr(x, 11) == (x >> 11) | (x << 21) && Rotr(x, 25) == (x >> 25) | (x << 7)
  {
  }

  lemma Rounds0(block: bytes)
    requires block == Abc()
    ensures IsAt(block, 8, Words(0x85A07B5F, 0xE5030380, 0x2B4209F5, 0x04409A6A,
                                0x0C657A79, 0x9B27A401, 0x714260AD, 0x43ADA245))
  {
    hide IsAt, HasWord, Abc, Rotr;
    FirstWords(block);
    AtStart(block);
    var v := INITIAL;
    NextRound(block, 0, v, 0x428A2F98, 0x61626380);
    var v1 := Words(0x5D6AEBCD, v.a, v.b, v.c, 0xFA2A4622, v.e, v.f, v.g);
    NextRound(block, 1, v1, 0x71374491, 0x00000000);
    var v2 := Words(0x5A6AD9AD, v1.a, v1.b, v1.c, 0x78CE7989, v1.e, v1.f, v1.g);
    NextRound(block, 2, v2, 0xB5C0FBCF, 0x00000000);
    var v3 := Words(0xC8C347A7, v2.a, v2.b, v2.c, 0xF92939EB, v2.e, v2.f, v2.g);
    NextRound(block, 3, v3, 0xE9B5DBA5, 0x00000000);
    var v4 := Words(0xD550F666, v3.a, v3.b, v3.c, 0x24E00850, v3.e, v3.f, v3.g);
    NextRound(block, 4, v4, 0x3956C25B, 0x00000000);
    var v5 := Words(0x04409A6A, v4.a, v4.b, v4.c, 0x43ADA245, v4.e, v4.f, v4.g);
    NextRound(block, 5, v5, 0x59F111F1, 0x00000000);
    var v6 := Words(0x2B4209F5, v5.a, v5.b, v5.c, 0x714260AD, v5.e, v5.f, v5.g);
    NextRound(block, 6, v6, 0x923F82A4, 0x00000000);
    var v7 := Words(0xE5030380, v6.a, v6.b, v6.c, 0x9B27A401, v6.e, v6.f, v6.g);
    NextRound(block, 7, v7, 0xAB1C5ED5, 0x00000000);
  }

  lemma Rounds8(block: bytes)
    requires block == Abc()
    ensures IsAt(block, 16, Words(0xB0FA238E, 0xC0645FDE, 0xD932EB16, 0x87912990,
                                0x07590DCD, 0x0B92F20C, 0x745A48DE, 0x1E578218))
  {
    hide IsAt, HasWord, Abc, Rotr;
    FirstWords(block);
    Rounds0(block);
    var v := Words(0x85A07B5F, 0xE5030380, 0x2B4209F5, 0x04409A6A,
                   0x0C657A79, 0x9B27A401, 0x714260AD, 0x43ADA245);
    NextRound(block, 8, v, 0xD807AA98, 0x00000000);
    var v1 := Words(0x8E04ECB9, v.a, v.b, v.c, 0x32CA2D8C, v.e, v.f, v.g);
    NextRound(block, 9, v1, 0x12835B01, 0x00000000);
    var v2 := Words(0x8C87346B, v1.a, v1.b, v1.c, 0x1CC92596, v1.e, v1.f, v1.g);
    NextRound(block, 10, v2, 0x243185BE, 0x00000000);
    var v3 := Words(0x4798A3F4, v2.a, v2.b, v2.c, 0x436B23E8, v2.e, v2.f, v2.g);
    NextRound(block, 11, v3, 0x550C7DC3, 0x00000000);
    var v4 := Words(0xF71FC5A9, v3.a, v3.b, v3.c, 0x816FD6E9, v3.e, v3.f, v3.g);
    NextRound(block, 12, v4, 0x72BE5D74, 0x00000000);
    var v5 := Words(0x87912990, v4.a, v4.b, v4.c, 0x1E578218, v4.e, v4.f, v4.g);
    NextRound(block, 13, v5, 0x80DEB1FE, 0x00000000);
    var v6 := Words(0xD932EB16, v5.a, v5.b, v5.c, 0x745A48DE, v5.e, v5.f, v5.g);
    NextRound(block, 14, v6, 0x9BDC06A7, 0x00000000);
    var v7 := Words(0xC0645FDE, v6.a, v6.b, v6.c, 0x0B92F20C, v6.e, v6.f, v6.g);
    NextRound(block, 15, v7, 0xC19BF174, 0x00000018);
  }

  lemma Rounds16(block: bytes)
    requires block == Abc()
    ensures IsAt(block, 24, Words(0xC5D53D8D, 0xA7A3623F, 0xC2606D6D, 0x9DC68B63,
                                0xAA47C347, 0x49F5114A, 0xE1257970, 0x8ADA8930))
  {
    hide IsAt, HasWord, Abc, Rotr;
    Words16(block);
    Rounds8(block);
    var v := Words(0xB0FA238E, 0xC0645FDE, 0xD932EB16, 0x87912990,
                   0x07590DCD, 0x0B92F20C, 0x745A48DE, 0x1E578218);
    NextRound(block, 16, v, 0xE49B69C1, 0x61626380);
    var v1 := Words(0x21DA9A9B, v.a, v.b, v.c, 0x8034229C, v.e, v.f, v.g);
    NextRound(block, 17, v1, 0xEFBE4786, 0x000F0000);
    var v2 := Words(0xC2FBD9D1, v1.a, v1.b, v1.c, 0x846EE454, v1.e, v1.f, v1.g);
    NextRound(block, 18, v2, 0x0FC19DC6, 0x7DA86405);
    var v3 := Words(0xFE777BBF, v2.a, v2.b, v2.c, 0xCC899961, v2.e, v2.f, v2.g);
    NextRound(block, 19, v3, 0x240CA1CC, 0x600003C6);
    var v4 := Words(0xE1F20C33, v3.a, v3.b, v3.c, 0xB0638179, v3.e, v3.f, v3.g);
    NextRound(block, 20, v4, 0x2DE92C6F, 0x3E9D7B78);
    var v5 := Words(0x9DC68B63, v4.a, v4.b, v4.c, 0x8ADA8930, v4.e, v4.f, v4.g);
    NextRound(block, 21, v5, 0x4A7484AA, 0x0183FC00);
    var v6 := Words(0xC2606D6D, v5.a, v5.b, v5.c, 0xE1257970, v5.e, v5.f, v5.g);
    NextRound(block, 22, v6, 0x5CB0A9DC, 0x12DCBFDB);
    var v7 := Words(0xA7A3623F, v6.a, v6.b, v6.c, 0x49F5114A, v6.e, v6.f, v6.g);
    NextRound(block, 23, v7, 0x76F988DA, 0xE2E2C38E);
  }

  lemma Rounds24(block: bytes)
    requires block == Abc()
    ensures IsAt(block, 32, Words(0x73B33BF5, 0xEA992A22, 0xA0060B30, 0x363482C9,
                                0xBA591112, 0x0109AB3A, 0xADE79437, 0x6112A3B7))
  {
    hide IsAt, HasWord, Abc, Rotr;
    Words24(block);
    Rounds16(block);
    var v := Words(0xC5D53D8D, 0xA7A3623F, 0xC2606D6D, 0x9DC68B63,
                   0xAA47C347, 0x49F5114A, 0xE1257970, 0x8ADA8930);
    NextRound(block, 24, v, 0x983E5152, 0xC8215C1A);
    var v1 := Words(0x1C2C2838, v.a, v.b, v.c, 0x2823EF91, v.e, v.f, v.g);
    NextRound(block, 25, v1, 0xA831C66D, 0xB73679A2);
    var v2 := Words(0xCDE8037D, v1.a, v1.b, v1.c, 0x14383D8E, v1.e, v1.f, v1.g);
    NextRound(block, 26, v2, 0xB00327C8, 0xE5BC3909);
    var v3 := Words(0xB62EC4BC, v2.a, v2.b, v2.c, 0xC74C6516, v2.e, v2.f, v2.g);
    NextRound(block, 27, v3, 0xBF597FC7, 0x32663C5B);
    var v4 := Words(0x77D37528, v3.a, v3.b, v3.c, 0xEDFFBFF8, v3.e, v3.f, v3.g);
    NextRound(block, 28, v4, 0xC6E00BF3, 0x9D209D67);
    var v5 := Words(0x363482C9, v4.a, v4.b, v4.c, 0x6112A3B7, v4.e, v4.f, v4.g);
    NextRound(block, 29, v5, 0xD5A79147, 0xEC8726CB);
    var v6 := Words(0xA0060B30, v5.a, v5.b, v5.c, 0xADE79437, v5.e, v5.f, v5.g);
    NextRound(block, 30, v6, 0x06CA6351, 0x702138A4);
    var v7 := Words(0xEA992A22, v6.a, v6.b, v6.c, 0x0109AB3A, v6.e, v6.f, v6.g);
    NextRound(block, 31, v7, 0x14292967, 0xD3B7973B);
  }

  lemma Rounds32(block: bytes)
    requires block == Abc()
    ensures IsAt(block, 40, Words(0x79EA687A, 0x6DC57A8A, 0x34DF1604, 0x41A65CB1,
                                0x1EFBC0A0, 0xF0781BC8, 0xA507A53D, 0x0772A26B))
  {
    hide IsAt, HasWord, Abc, Rotr;
    Words32(block);
    Rounds24(block);
    var v := Words(0x73B33BF5, 0xEA992A22, 0xA0060B30, 0x363482C9,
                   0xBA591112, 0x0109AB3A, 0xADE79437, 0x6112A3B7);
    NextRound(block, 32, v, 0x27B70A85, 0x93F5997F);
    var v1 := Words(0x98E12507, v.a, v.b, v.c, 0x9CD9F5F6, v.e, v.f, v.g);
    NextRound(block, 33, v1, 0x2E1B2138, 0x3B68BA73);
    var v2 := Words(0xFE604DF5, v1.a, v1.b, v1.c, 0x59249DD3, v1.e, v1.f, v1.g);
    NextRound(block, 34, v2, 0x4D2C6DFC, 0xAFF4FFC1);
    var v3 := Words(0xA9A7738C, v2.a, v2.b, v2.c, 0x085F3833, v2.e, v2.f, v2.g);
    NextRound(block, 35, v3, 0x53380D13, 0xF10A5C62);
    var v4 := Words(0x65A0CFE4, v3.a, v3.b, v3.c, 0xF4B002D6, v3.e, v3.f, v3.g);
    NextRound(block, 36, v4, 0x650A7354, 0x0A8B3996);
    var v5 := Words(0x41A65CB1, v4.a, v4.b, v4.c, 0x0772A26B, v4.e, v4.f, v4.g);
    NextRound(block, 37, v5, 0x766A0ABB, 0x72AF830A);
    var v6 := Words(0x34DF1604, v5.a, v5.b, v5.c, 0xA507A53D, v5.e, v5.f, v5.g);
    NextRound(block, 38, v6, 0x81C2C92E, 0x9409E33E);
    var v7 := Words(0x6DC57A8A, v6.a, v6.b, v6.c, 0xF0781BC8, v6.e, v6.f, v6.g);
    NextRound(block, 39, v7, 0x92722C85, 0x24641522);
  }

  lemma Rounds40(block: bytes)
    requires block == Abc()
    ensures IsAt(block, 48, Words(0x4172328D, 0xA14C14B0, 0x72AB4B91, 0x26628815,
                                0xFECF0BC6, 0xD57B94A9, 0xB7755DA1, 0xA80F11F0))
  {
    hide IsAt, HasWord, Abc, Rotr;
    Words40(block);
    Rounds32(block);
    var v := Words(0x79EA687A, 0x6DC57A8A, 0x34DF1604, 0x41A65CB1,
                   0x1EFBC0A0, 0xF0781BC8, 0xA507A53D, 0x0772A26B);
    NextRound(block, 40, v, 0xA2BFE8A1, 0x9F47BF94);
    var v1 := Words(0xD6670766, v.a, v.b, v.c, 0x26352D63, v.e, v.f, v.g);
    NextRound(block, 41, v1, 0xA81A664B, 0xF0A64F5A);
    var v2 := Words(0xDF46652F, v1.a, v1.b, v1.c, 0x838B2711, v1.e, v1.f, v1.g);
    NextRound(block, 42, v2, 0xC24B8B70, 0x3E246A79);
    var v3 := Words(0x17AA0DFE, v2.a, v2.b, v2.c, 0xDECD4715, v2.e, v2.f, v2.g);
    NextRound(block, 43, v3, 0xC76C51A3, 0x27333BA3);
    var v4 := Words(0x9D4BAF93, v3.a, v3.b, v3.c, 0xFDA24C2E, v3.e, v3.f, v3.g);
    NextRound(block, 44, v4, 0xD192E819, 0x0C4763F2);
    var v5 := Words(0x26628815, v4.a, v4.b, v4.c, 0xA80F11F0, v4.e, v4.f, v4.g);
    NextRound(block, 45, v5, 0xD6990624, 0x840ABF27);
    var v6 := Words(0x72AB4B91, v5.a, v5.b, v5.c, 0xB7755DA1, v5.e, v5.f, v5.g);
    NextRound(block, 46, v6, 0xF40E3585, 0x7A290D5D);
    var v7 := Words(0xA14C14B0, v6.a, v6.b, v6.c, 0xD57B94A9, v6.e, v6.f, v6.g);
    NextRound(block, 47, v7, 0x106AA070, 0x065C43DA);
  }

  lemma Rounds48(block: bytes)
    requires block == Abc()
    ensures IsAt(block, 56, Words(0x38CC9913, 0x3EC45CDB, 0xF5702FDB, 0x101FD28F,
                                0x54CB266B, 0xE50E1B4F, 0x9F4787C3, 0x529E7D00))
  {
    hide IsAt, HasWord, Abc, Rotr;
    Words48(block);
    Rounds40(block);
    var v := Words(0x4172328D, 0xA14C14B0, 0x72AB4B91, 0x26628815,
                   0xFECF0BC6, 0xD57B94A9, 0xB7755DA1, 0xA80F11F0);
    NextRound(block, 48, v, 0x19A4C116, 0xFB3E89CB);
    var v1 := Words(0x05757CEB, v.a, v.b, v.c, 0xBD714038, v.e, v.f, v.g);
    NextRound(block, 49, v1, 0x1E376C08, 0xCC7617DB);
    var v2 := Words(0xF11BFAA8, v1.a, v1.b, v1.c, 0x6E5C390C, v1.e, v1.f, v1.g);
    NextRound(block, 50, v2, 0x2748774C, 0xB9E66C34);
    var v3 := Words(0x7A0508A1, v2.a, v2.b, v2.c, 0x52F1CCF7, v2.e, v2.f, v2.g);
    NextRound(block, 51, v3, 0x34B0BCB5, 0xA9993667);
    var v4 := Words(0x886E7A22, v3.a, v3.b, v3.c, 0x49231C1E, v3.e, v3.f, v3.g);
    NextRound(block, 52, v4, 0x391C0CB3, 0x84BADEDD);
    var v5 := Words(0x101FD28F, v4.a, v4.b, v4.c, 0x529E7D00, v4.e, v4.f, v4.g);
    NextRound(block, 53, v5, 0x4ED8AA4A, 0xC21462BC);
    var v6 := Words(0xF5702FDB, v5.a, v5.b, v5.c, 0x9F4787C3, v5.e, v5.f, v5.g);
    NextRound(block, 54, v6, 0x5B9CCA4F, 0x1487472C);
    var v7 := Words(0x3EC45CDB, v6.a, v6.b, v6.c, 0xE50E1B4F, v6.e, v6.f, v6.g);
    NextRound(block, 55, v7, 0x682E6FF3, 0xB20F7A99);
  }

  lemma Rounds56(block: bytes)
    requires block == Abc()
    ensures IsAt(block, 64, Words(0x506E3058, 0xD39A2165, 0x04D24D6C, 0xB85E2CE9,
                                0x5EF50F24, 0xFB121210, 0x948D25B6, 0x961F4894))
  {
    hide IsAt, HasWord, Abc, Rotr;
    Words56(block);
    Rounds48(block);
    var v := Words(0x38CC9913, 0x3EC45CDB, 0xF5702FDB, 0x101FD28F,
                   0x54CB266B, 0xE50E1B4F, 0x9F4787C3, 0x529E7D00);
    NextRound(block, 56, v, 0x748F82EE, 0xEF57B9CD);
    var v1 := Words(0xFCD1887B, v.a, v.b, v.c, 0x9B5E906C, v.e, v.f, v.g);
    NextRound(block, 57, v1, 0x78A5636F, 0xEBE6B238);
    var v2 := Words(0xC062D46F, v1.a, v1.b, v1.c, 0x7E44008E, v1.e, v1.f, v1.g);
    NextRound(block, 58, v2, 0x84C87814, 0x9FE3095E);
    var v3 := Words(0xFFB70472, v2.a, v2.b, v2.c, 0x6D83BFC6, v2.e, v2.f, v2.g);
    NextRound(block, 59, v3, 0x8CC70208, 0x78BC8D4B);
    var v4 := Words(0xB6AE8FFF, v3.a, v3.b, v3.c, 0xB21BAD3D, v3.e, v3.f, v3.g);
    NextRound(block, 60, v4, 0x90BEFFFA, 0xA43FCF15);
    var v5 := Words(0xB85E2CE9, v4.a, v4.b, v4.c, 0x961F4894, v4.e, v4.f, v4.g);
    NextRound(block, 61, v5, 0xA4506CEB, 0x668B2FF8);
    var v6 := Words(0x04D24D6C, v5.a, v5.b, v5.c, 0x948D25B6, v5.e, v5.f, v5.g);
    NextRound(block, 62, v6, 0xBEF9A3F7, 0xEEABA2CC);
    var v7 := Words(0xD39A2165, v6.a, v6.b, v6.c, 0xFB121210, v6.e, v6.f, v6.g);
    NextRound(block, 63, v7, 0xC67178F2, 0x12B1EDEB);
  }

  lemma AtStart(block: bytes)
    requires |block| == 64
    ensures IsAt(block, 0, INITIAL)
  {
    VariablesAre(block, 0, INITIAL);
  }

  /** SHA-256 of "abc". */
  lemma DigestOfAbc()
    ensures Digest([0x61, 0x62, 0x63]) == [
              0xBA, 0x78, 0x16, 0xBF, 0x8F, 0x01, 0xCF, 0xEA, 0x41, 0x41, 0x40, 0xDE, 0x5D, 0xAE, 0x22, 0x23,
              0xB0, 0x03, 0x61, 0xA3, 0x96, 0x17, 0x7A, 0x9C, 0xB4, 0x10, 0xFF, 0x61, 0xF2, 0x00, 0x15, 0xAD
            ]
  {
    hide Rounds, Fold, Abc, Schedule, AllWordBytes, Pad, IsAt, Digest;
    var block := Abc();
    AbcIsPadded();
    Rounds56(block);
    OneBlock(block);
    LastState(block);
    DigestIs([0x61, 0x62, 0x63]);
    DigestBytes();
  }

  lemma AbcIsPadded()
    ensures Abc() == Pad([0x61, 0x62, 0x63])
  {
    hide Pad;
  }

  lemma DigestIs(m: bytes)
    ensures Digest(m) == AllWordBytes(Fold(INITIAL, Pad(m)))
  {
    hide Fold, Pad, AllWordBytes;
  }

  lemma LastState(block: bytes)
    requires |block| == 64 && Fold(INITIAL, block) == Sum(INITIAL, Rounds(INITIAL, block, 64))
    requires IsAt(block, 64, Words(0x506E3058, 0xD39A2165, 0x04D24D6C, 0xB85E2CE9,
                                   0x5EF50F24, 0xFB121210, 0x948D25B6, 0x961F4894))
    ensures Fold(INITIAL, block) == Words(0xBA7816BF, 0x8F01CFEA, 0x414140DE, 0x5DAE2223,
                                          0xB00361A3, 0x96177A9C, 0xB410FF61, 0xF20015AD)
  {
    hide Rounds, Fold, IsAt;
    VariablesAre(block, 64, Words(0x506E3058, 0xD39A2165, 0x04D24D6C, 0xB85E2CE9,
                                  0x5EF50F24, 0xFB121210, 0x948D25B6, 0x961F4894));
  }

  lemma DigestBytes()
    ensures AllWordBytes(Words(0xBA7816BF, 0x8F01CFEA, 0x414140DE, 0x5DAE2223,
                               0xB00361A3, 0x96177A9C, 0xB410FF61, 0xF20015AD)) == [
              0xBA, 0x78, 0x16, 0xBF, 0x8F, 0x01, 0xCF, 0xEA, 0x41, 0x41, 0x40, 0xDE, 0x5D, 0xAE, 0x22, 0x23,
              0xB0, 0x03, 0x61, 0xA3, 0x96, 0x17, 0x7A, 0x9C, 0xB4, 0x10, 0xFF, 0x61, 0xF2, 0x00, 0x15, 0xAD
            ]
  {
    WordsOfDigest();
    hide WordBytes;
  }

  lemma WordsOfDigest()
    ensures WordBytes(0xBA7816BF) == [0xBA, 0x78, 0x16, 0xBF]
    ensures WordBytes(0x8F01CFEA) == [0x8F, 0x01, 0xCF, 0xEA]
    ensures WordBytes(0x414140DE) == [0x41, 0x41, 0x40, 0xDE]
    ensures WordBytes(0x5DAE2223) == [0x5D, 0xAE, 0x22, 0x23]
    ensures WordBytes(0xB00361A3) == [0xB0, 0x03, 0x61, 0xA3]
    ensures WordBytes(0x96177A9C) == [0x96, 0x17, 0x7A, 0x9C]
    ensures WordBytes(0xB410FF61) == [0xB4, 0x10, 0xFF, 0x61]
    ensures WordBytes(0xF20015AD) == [0xF2, 0x00, 0x15, 0xAD]
  {
  }

  lemma OneBlock(block: bytes)
    requires |block| == 64
    ensures Fold(INITIAL, block) == Sum(INITIAL, Rounds(INITIAL, block, 64))
  {
    hide Rounds, Sum;
    assert block[..64] == block && block[64..] == [];
    assert Fold(Compress(INITIAL, block), []) == Compress(INITIAL, block);
  }
}
