/** The integrity primitives against their standards: where their constants come from, and published answers. */
module KnownAnswers {
  import opened Bytes
  import Crc32c
  import opened Sha256

  // ----- CRC-32C -----

  lemma DigitsAreFed()
    ensures Crc32c.Feed(0xFFFFFFFF, 0x31) == 0x6F0A661C
    ensures Crc32c.Feed(0x6F0A661C, 0x32) == 0x8CAA3B9F
    ensures Crc32c.Feed(0x8CAA3B9F, 0x33) == 0xEF84D04D
    ensures Crc32c.Feed(0xEF84D04D, 0x34) == 0x09C50B11
    ensures Crc32c.Feed(0x09C50B11, 0x35) == 0xE72EDCCA
    ensures Crc32c.Feed(0xE72EDCCA, 0x36) == 0xBECA8E79
    ensures Crc32c.Feed(0xBECA8E79, 0x37) == 0xEDBD6815
    ensures Crc32c.Feed(0xEDBD6815, 0x38) == 0x9F787F65
    ensures Crc32c.Feed(0x9F787F65, 0x39) == 0x1CF96D7C
  {
  }

  lemma ThreeAreFed(c: bv32, a: byte, b: byte, d: byte)
    ensures Crc32c.Divide(c, [a, b, d]) == Crc32c.Feed(Crc32c.Feed(Crc32c.Feed(c, a), b), d)
  {
    hide Crc32c.Feed;
    assert [a, b, d][1..] == [b, d] && [b, d][1..] == [d] && [d][1..] == [];
    assert Crc32c.Divide(Crc32c.Feed(Crc32c.Feed(c, a), b),
      [d]) == Crc32c.Divide(Crc32c.Feed(Crc32c.Feed(Crc32c.Feed(c, a), b), d), []);
    assert Crc32c.Divide(Crc32c.Feed(c, a), [b, d]) == Crc32c.Divide(Crc32c.Feed(Crc32c.Feed(c, a), b), [d]);
  }

  /** The check value of the polynomial: the digits 1 to 9 have the checksum E3069283. */
  lemma CheckValue()
    ensures Crc32c.Checksum([0x31, 0x32, 0x33, 0x34, 0x35, 0x36, 0x37, 0x38, 0x39], 0) == 0xE3069283
  {
    DigitsAreFed();
    hide Crc32c.Feed, Crc32c.Divide;
    var a: bytes, b: bytes, c: bytes := [0x31, 0x32, 0x33], [0x34, 0x35, 0x36], [0x37, 0x38, 0x39];
    ThreeAreFed(0xFFFFFFFF, 0x31, 0x32, 0x33);
    ThreeAreFed(0xEF84D04D, 0x34, 0x35, 0x36);
    ThreeAreFed(0xBECA8E79, 0x37, 0x38, 0x39);
    Crc32c.DivideConcat(0xFFFFFFFF, a, b + c);
    Crc32c.DivideConcat(0xEF84D04D, b, c);
    assert a + (b + c) == [0x31, 0x32, 0x33, 0x34, 0x35, 0x36, 0x37, 0x38, 0x39];
  }

  // ----- SHA-256: the constants -----

  /** The first 64 prime numbers. */
  const PRIMES: seq<nat> :=
    [2, 3, 5, 7, 11, 13, 17, 19]
    + [23, 29, 31, 37, 41, 43, 47, 53]
    + [59, 61, 67, 71, 73, 79, 83, 89]
    + [97, 101, 103, 107, 109, 113, 127, 131]
    + [137, 139, 149, 151, 157, 163, 167, 173]
    + [179, 181, 191, 193, 197, 199, 211, 223]
    + [227, 229, 233, 239, 241, 251, 257, 263]
    + [269, 271, 277, 281, 283, 293, 307, 311]

  const TWO_TO_32: nat := 0x1_0000_0000

  /** `r` is the cube root of `p`, cut off after 32 binary digits. */
  predicate IsCubeRoot(p: nat, r: nat) {
    r * r * r <= p * 0x1_0000_0000_0000_0000_0000_0000 < (r + 1) * (r + 1) * (r + 1)
  }

  predicate IsSquareRoot(p: nat, r: nat) {
    r * r <= p * 0x1_0000_0000_0000_0000 < (r + 1) * (r + 1)
  }

  /** The word is the fraction of the cube root of the prime. */
  ghost predicate IsCubeFraction(p: nat, k: bv32) {
    exists whole: nat :: IsCubeRoot(p, whole * TWO_TO_32 + k as nat)
  }

  ghost predicate IsSquareFraction(p: nat, h: bv32) {
    exists whole: nat :: IsSquareRoot(p, whole * TWO_TO_32 + h as nat)
  }

  lemma CubeFractions0()
    ensures IsCubeFraction(2, K[0]) && IsCubeFraction(3, K[1])
    ensures IsCubeFraction(5, K[2]) && IsCubeFraction(7, K[3])
    ensures IsCubeFraction(11, K[4]) && IsCubeFraction(13, K[5])
    ensures IsCubeFraction(17, K[6]) && IsCubeFraction(19, K[7])
  {
    assert IsCubeRoot(2, 1 * TWO_TO_32 + K[0] as nat);
    assert IsCubeRoot(3, 1 * TWO_TO_32 + K[1] as nat);
    assert IsCubeRoot(5, 1 * TWO_TO_32 + K[2] as nat);
    assert IsCubeRoot(7, 1 * TWO_TO_32 + K[3] as nat);
    assert IsCubeRoot(11, 2 * TWO_TO_32 + K[4] as nat);
    assert IsCubeRoot(13, 2 * TWO_TO_32 + K[5] as nat);
    assert IsCubeRoot(17, 2 * TWO_TO_32 + K[6] as nat);
    assert IsCubeRoot(19, 2 * TWO_TO_32 + K[7] as nat);
  }

  lemma CubeRow0()
    ensures forall i {:trigger K[i]} :: 0 <= i < 8 ==> IsCubeFraction(PRIMES[i], K[i])
  {
    hide IsCubeFraction;
    CubeFractions0();
  }

  lemma CubeFractions1()
    ensures IsCubeFraction(23, K[8]) && IsCubeFraction(29, K[9])
    ensures IsCubeFraction(31, K[10]) && IsCubeFraction(37, K[11])
    ensures IsCubeFraction(41, K[12]) && IsCubeFraction(43, K[13])
    ensures IsCubeFraction(47, K[14]) && IsCubeFraction(53, K[15])
  {
    assert IsCubeRoot(23, 2 * TWO_TO_32 + K[8] as nat);
    assert IsCubeRoot(29, 3 * TWO_TO_32 + K[9] as nat);
    assert IsCubeRoot(31, 3 * TWO_TO_32 + K[10] as nat);
    assert IsCubeRoot(37, 3 * TWO_TO_32 + K[11] as nat);
    assert IsCubeRoot(41, 3 * TWO_TO_32 + K[12] as nat);
    assert IsCubeRoot(43, 3 * TWO_TO_32 + K[13] as nat);
    assert IsCubeRoot(47, 3 * TWO_TO_32 + K[14] as nat);
    assert IsCubeRoot(53, 3 * TWO_TO_32 + K[15] as nat);
  }

  lemma CubeRow1()
    ensures forall i {:trigger K[i]} :: 8 <= i < 16 ==> IsCubeFraction(PRIMES[i], K[i])
  {
    hide IsCubeFraction;
    CubeFractions1();
  }

  lemma CubeFractions2()
    ensures IsCubeFraction(59, K[16]) && IsCubeFraction(61, K[17])
    ensures IsCubeFraction(67, K[18]) && IsCubeFraction(71, K[19])
    ensures IsCubeFraction(73, K[20]) && IsCubeFraction(79, K[21])
    ensures IsCubeFraction(83, K[22]) && IsCubeFraction(89, K[23])
  {
    assert IsCubeRoot(59, 3 * TWO_TO_32 + K[16] as nat);
    assert IsCubeRoot(61, 3 * TWO_TO_32 + K[17] as nat);
    assert IsCubeRoot(67, 4 * TWO_TO_32 + K[18] as nat);
    assert IsCubeRoot(71, 4 * TWO_TO_32 + K[19] as nat);
    assert IsCubeRoot(73, 4 * TWO_TO_32 + K[20] as nat);
    assert IsCubeRoot(79, 4 * TWO_TO_32 + K[21] as nat);
    assert IsCubeRoot(83, 4 * TWO_TO_32 + K[22] as nat);
    assert IsCubeRoot(89, 4 * TWO_TO_32 + K[23] as nat);
  }

  lemma CubeRow2()
    ensures forall i {:trigger K[i]} :: 16 <= i < 24 ==> IsCubeFraction(PRIMES[i], K[i])
  {
    hide IsCubeFraction;
    CubeFractions2();
  }

  lemma CubeFractions3()
    ensures IsCubeFraction(97, K[24]) && IsCubeFraction(101, K[25])
    ensures IsCubeFraction(103, K[26]) && IsCubeFraction(107, K[27])
    ensures IsCubeFraction(109, K[28]) && IsCubeFraction(113, K[29])
    ensures IsCubeFraction(127, K[30]) && IsCubeFraction(131, K[31])
  {
    assert IsCubeRoot(97, 4 * TWO_TO_32 + K[24] as nat);
    assert IsCubeRoot(101, 4 * TWO_TO_32 + K[25] as nat);
    assert IsCubeRoot(103, 4 * TWO_TO_32 + K[26] as nat);
    assert IsCubeRoot(107, 4 * TWO_TO_32 + K[27] as nat);
    assert IsCubeRoot(109, 4 * TWO_TO_32 + K[28] as nat);
    assert IsCubeRoot(113, 4 * TWO_TO_32 + K[29] as nat);
    assert IsCubeRoot(127, 5 * TWO_TO_32 + K[30] as nat);
    assert IsCubeRoot(131, 5 * TWO_TO_32 + K[31] as nat);
  }

  lemma CubeRow3()
    ensures forall i {:trigger K[i]} :: 24 <= i < 32 ==> IsCubeFraction(PRIMES[i], K[i])
  {
    hide IsCubeFraction;
    CubeFractions3();
  }

  lemma CubeFractions4()
    ensures IsCubeFraction(137, K[32]) && IsCubeFraction(139, K[33])
    ensures IsCubeFraction(149, K[34]) && IsCubeFraction(151, K[35])
    ensures IsCubeFraction(157, K[36]) && IsCubeFraction(163, K[37])
    ensures IsCubeFraction(167, K[38]) && IsCubeFraction(173, K[39])
  {
    assert IsCubeRoot(137, 5 * TWO_TO_32 + K[32] as nat);
    assert IsCubeRoot(139, 5 * TWO_TO_32 + K[33] as nat);
    assert IsCubeRoot(149, 5 * TWO_TO_32 + K[34] as nat);
    assert IsCubeRoot(151, 5 * TWO_TO_32 + K[35] as nat);
    assert IsCubeRoot(157, 5 * TWO_TO_32 + K[36] as nat);
    assert IsCubeRoot(163, 5 * TWO_TO_32 + K[37] as nat);
    assert IsCubeRoot(167, 5 * TWO_TO_32 + K[38] as nat);
    assert IsCubeRoot(173, 5 * TWO_TO_32 + K[39] as nat);
  }

  lemma CubeRow4()
    ensures forall i {:trigger K[i]} :: 32 <= i < 40 ==> IsCubeFraction(PRIMES[i], K[i])
  {
    hide IsCubeFraction;
    CubeFractions4();
  }

  lemma CubeFractions5()
    ensures IsCubeFraction(179, K[40]) && IsCubeFraction(181, K[41])
    ensures IsCubeFraction(191, K[42]) && IsCubeFraction(193, K[43])
    ensures IsCubeFraction(197, K[44]) && IsCubeFraction(199, K[45])
    ensures IsCubeFraction(211, K[46]) && IsCubeFraction(223, K[47])
  {
    assert IsCubeRoot(179, 5 * TWO_TO_32 + K[40] as nat);
    assert IsCubeRoot(181, 5 * TWO_TO_32 + K[41] as nat);
    assert IsCubeRoot(191, 5 * TWO_TO_32 + K[42] as nat);
    assert IsCubeRoot(193, 5 * TWO_TO_32 + K[43] as nat);
    assert IsCubeRoot(197, 5 * TWO_TO_32 + K[44] as nat);
    assert IsCubeRoot(199, 5 * TWO_TO_32 + K[45] as nat);
    assert IsCubeRoot(211, 5 * TWO_TO_32 + K[46] as nat);
    assert IsCubeRoot(223, 6 * TWO_TO_32 + K[47] as nat);
  }

  lemma CubeRow5()
    ensures forall i {:trigger K[i]} :: 40 <= i < 48 ==> IsCubeFraction(PRIMES[i], K[i])
  {
    hide IsCubeFraction;
    CubeFractions5();
  }

  lemma CubeFractions6()
    ensures IsCubeFraction(227, K[48]) && IsCubeFraction(229, K[49])
    ensures IsCubeFraction(233, K[50]) && IsCubeFraction(239, K[51])
    ensures IsCubeFraction(241, K[52]) && IsCubeFraction(251, K[53])
    ensures IsCubeFraction(257, K[54]) && IsCubeFraction(263, K[55])
  {
    assert IsCubeRoot(227, 6 * TWO_TO_32 + K[48] as nat);
    assert IsCubeRoot(229, 6 * TWO_TO_32 + K[49] as nat);
    assert IsCubeRoot(233, 6 * TWO_TO_32 + K[50] as nat);
    assert IsCubeRoot(239, 6 * TWO_TO_32 + K[51] as nat);
    assert IsCubeRoot(241, 6 * TWO_TO_32 + K[52] as nat);
    assert IsCubeRoot(251, 6 * TWO_TO_32 + K[53] as nat);
    assert IsCubeRoot(257, 6 * TWO_TO_32 + K[54] as nat);
    assert IsCubeRoot(263, 6 * TWO_TO_32 + K[55] as nat);
  }

  lemma CubeRow6()
    ensures forall i {:trigger K[i]} :: 48 <= i < 56 ==> IsCubeFraction(PRIMES[i], K[i])
  {
    hide IsCubeFraction;
    CubeFractions6();
  }

  lemma CubeFractions7()
    ensures IsCubeFraction(269, K[56]) && IsCubeFraction(271, K[57])
    ensures IsCubeFraction(277, K[58]) && IsCubeFraction(281, K[59])
    ensures IsCubeFraction(283, K[60]) && IsCubeFraction(293, K[61])
    ensures IsCubeFraction(307, K[62]) && IsCubeFraction(311, K[63])
  {
    assert IsCubeRoot(269, 6 * TWO_TO_32 + K[56] as nat);
    assert IsCubeRoot(271, 6 * TWO_TO_32 + K[57] as nat);
    assert IsCubeRoot(277, 6 * TWO_TO_32 + K[58] as nat);
    assert IsCubeRoot(281, 6 * TWO_TO_32 + K[59] as nat);
    assert IsCubeRoot(283, 6 * TWO_TO_32 + K[60] as nat);
    assert IsCubeRoot(293, 6 * TWO_TO_32 + K[61] as nat);
    assert IsCubeRoot(307, 6 * TWO_TO_32 + K[62] as nat);
    assert IsCubeRoot(311, 6 * TWO_TO_32 + K[63] as nat);
  }

  lemma CubeRow7()
    ensures forall i {:trigger K[i]} :: 56 <= i < 64 ==> IsCubeFraction(PRIMES[i], K[i])
  {
    hide IsCubeFraction;
    CubeFractions7();
  }

  /** The 64 round constants are the fractions of the cube roots of the first 64 primes (section 4.2.2 of FIPS 180-4). */
  lemma RoundConstants()
    ensures |K| == |PRIMES| == 64 && forall i :: 0 <= i < 64 ==> IsCubeFraction(PRIMES[i], K[i])
  {
    hide IsCubeFraction;
    CubeRow0();
    CubeRow1();
    CubeRow2();
    CubeRow3();
    CubeRow4();
    CubeRow5();
    CubeRow6();
    CubeRow7();
  }

  /** The initial words are the fractions of the square roots of the first eight primes (section 5.3.3 of FIPS 180-4). */
  lemma InitialWords()
    ensures IsSquareFraction(2, INITIAL.a) && IsSquareFraction(3, INITIAL.b) && IsSquareFraction(5, INITIAL.c)
    ensures IsSquareFraction(7, INITIAL.d) && IsSquareFraction(11, INITIAL.e) && IsSquareFraction(13, INITIAL.f)
    ensures IsSquareFraction(17, INITIAL.g) && IsSquareFraction(19, INITIAL.h)
  {
    assert IsSquareRoot(2, 1 * TWO_TO_32 + INITIAL.a as nat);
    assert IsSquareRoot(3, 1 * TWO_TO_32 + INITIAL.b as nat);
    assert IsSquareRoot(5, 2 * TWO_TO_32 + INITIAL.c as nat);
    assert IsSquareRoot(7, 2 * TWO_TO_32 + INITIAL.d as nat);
    assert IsSquareRoot(11, 3 * TWO_TO_32 + INITIAL.e as nat);
    assert IsSquareRoot(13, 3 * TWO_TO_32 + INITIAL.f as nat);
    assert IsSquareRoot(17, 4 * TWO_TO_32 + INITIAL.g as nat);
    assert IsSquareRoot(19, 4 * TWO_TO_32 + INITIAL.h as nat);
  }
}
