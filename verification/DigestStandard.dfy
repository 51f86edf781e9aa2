/** What the constants of FIPS 180-4 are, the fractions of the roots of the first primes (sections 4.2.2 and 5.3.3), and
    how the bytes of a block make up its words. */
module DigestStandard {
  import opened Bytes
  import opened BlockStream
  import opened Sha256
  import opened WordFunctions

  // ----- Constants -----

  const TWO_32: nat := 0x1_0000_0000

  /** In 32 binary places `x` is the square root: it is no greater, and the next number is. */
  predicate IsSquareRoot(p: nat, x: nat) {
    x * x <= p * TWO_32 * TWO_32 < (x + 1) * (x + 1)
  }

  /** In 32 binary places `x` is the cube root. */
  predicate IsCubeRoot(p: nat, x: nat) {
    x * x * x <= p * TWO_32 * TWO_32 * TWO_32 < (x + 1) * (x + 1) * (x + 1)
  }

  /** The initial words are the fractions of the square roots of the first eight primes. */
  lemma InitialWordsAreRoots()
    ensures INITIAL == Words(0x6A09E667, 0xBB67AE85, 0x3C6EF372, 0xA54FF53A,
                             0x510E527F, 0x9B05688C, 0x1F83D9AB, 0x5BE0CD19)
    ensures IsSquareRoot(2, 0x1_6A09E667) && IsSquareRoot(3, 0x1_BB67AE85)
    ensures IsSquareRoot(5, 0x2_3C6EF372) && IsSquareRoot(7, 0x2_A54FF53A)
    ensures IsSquareRoot(11, 0x3_510E527F) && IsSquareRoot(13, 0x3_9B05688C)
    ensures IsSquareRoot(17, 0x4_1F83D9AB) && IsSquareRoot(19, 0x4_5BE0CD19)
  {
  }

  /** The round constants are the fractions of the cube roots of the first 64 primes. */
  lemma FirstConstantsAreRoots()
    ensures ROUND_CONSTANTS[0] == 0x428A2F98 && IsCubeRoot(2, 0x1_428A2F98)
    ensures ROUND_CONSTANTS[1] == 0x71374491 && IsCubeRoot(3, 0x1_71374491)
    ensures ROUND_CONSTANTS[2] == 0xB5C0FBCF && IsCubeRoot(5, 0x1_B5C0FBCF)
    ensures ROUND_CONSTANTS[3] == 0xE9B5DBA5 && IsCubeRoot(7, 0x1_E9B5DBA5)
    ensures ROUND_CONSTANTS[4] == 0x3956C25B && IsCubeRoot(11, 0x2_3956C25B)
    ensures ROUND_CONSTANTS[5] == 0x59F111F1 && IsCubeRoot(13, 0x2_59F111F1)
    ensures ROUND_CONSTANTS[6] == 0x923F82A4 && IsCubeRoot(17, 0x2_923F82A4)
    ensures ROUND_CONSTANTS[7] == 0xAB1C5ED5 && IsCubeRoot(19, 0x2_AB1C5ED5)
  {
  }

  lemma SecondConstantsAreRoots()
    ensures ROUND_CONSTANTS[8] == 0xD807AA98 && IsCubeRoot(23, 0x2_D807AA98)
    ensures ROUND_CONSTANTS[9] == 0x12835B01 && IsCubeRoot(29, 0x3_12835B01)
    ensures ROUND_CONSTANTS[10] == 0x243185BE && IsCubeRoot(31, 0x3_243185BE)
    ensures ROUND_CONSTANTS[11] == 0x550C7DC3 && IsCubeRoot(37, 0x3_550C7DC3)
    ensures ROUND_CONSTANTS[12] == 0x72BE5D74 && IsCubeRoot(41, 0x3_72BE5D74)
    ensures ROUND_CONSTANTS[13] == 0x80DEB1FE && IsCubeRoot(43, 0x3_80DEB1FE)
    ensures ROUND_CONSTANTS[14] == 0x9BDC06A7 && IsCubeRoot(47, 0x3_9BDC06A7)
    ensures ROUND_CONSTANTS[15] == 0xC19BF174 && IsCubeRoot(53, 0x3_C19BF174)
  {
  }

  lemma ThirdConstantsAreRoots()
    ensures ROUND_CONSTANTS[16] == 0xE49B69C1 && IsCubeRoot(59, 0x3_E49B69C1)
    ensures ROUND_CONSTANTS[17] == 0xEFBE4786 && IsCubeRoot(61, 0x3_EFBE4786)
    ensures ROUND_CONSTANTS[18] == 0x0FC19DC6 && IsCubeRoot(67, 0x4_0FC19DC6)
    ensures ROUND_CONSTANTS[19] == 0x240CA1CC && IsCubeRoot(71, 0x4_240CA1CC)
    ensures ROUND_CONSTANTS[20] == 0x2DE92C6F && IsCubeRoot(73, 0x4_2DE92C6F)
    ensures ROUND_CONSTANTS[21] == 0x4A7484AA && IsCubeRoot(79, 0x4_4A7484AA)
    ensures ROUND_CONSTANTS[22] == 0x5CB0A9DC && IsCubeRoot(83, 0x4_5CB0A9DC)
    ensures ROUND_CONSTANTS[23] == 0x76F988DA && IsCubeRoot(89, 0x4_76F988DA)
  {
  }

  lemma FourthConstantsAreRoots()
    ensures ROUND_CONSTANTS[24] == 0x983E5152 && IsCubeRoot(97, 0x4_983E5152)
    ensures ROUND_CONSTANTS[25] == 0xA831C66D && IsCubeRoot(101, 0x4_A831C66D)
    ensures ROUND_CONSTANTS[26] == 0xB00327C8 && IsCubeRoot(103, 0x4_B00327C8)
    ensures ROUND_CONSTANTS[27] == 0xBF597FC7 && IsCubeRoot(107, 0x4_BF597FC7)
    ensures ROUND_CONSTANTS[28] == 0xC6E00BF3 && IsCubeRoot(109, 0x4_C6E00BF3)
    ensures ROUND_CONSTANTS[29] == 0xD5A79147 && IsCubeRoot(113, 0x4_D5A79147)
    ensures ROUND_CONSTANTS[30] == 0x06CA6351 && IsCubeRoot(127, 0x5_06CA6351)
    ensures ROUND_CONSTANTS[31] == 0x14292967 && IsCubeRoot(131, 0x5_14292967)
  {
  }

  lemma FifthConstantsAreRoots()
    ensures ROUND_CONSTANTS[32] == 0x27B70A85 && IsCubeRoot(137, 0x5_27B70A85)
    ensures ROUND_CONSTANTS[33] == 0x2E1B2138 && IsCubeRoot(139, 0x5_2E1B2138)
    ensures ROUND_CONSTANTS[34] == 0x4D2C6DFC && IsCubeRoot(149, 0x5_4D2C6DFC)
    ensures ROUND_CONSTANTS[35] == 0x53380D13 && IsCubeRoot(151, 0x5_53380D13)
    ensures ROUND_CONSTANTS[36] == 0x650A7354 && IsCubeRoot(157, 0x5_650A7354)
    ensures ROUND_CONSTANTS[37] == 0x766A0ABB && IsCubeRoot(163, 0x5_766A0ABB)
    ensures ROUND_CONSTANTS[38] == 0x81C2C92E && IsCubeRoot(167, 0x5_81C2C92E)
    ensures ROUND_CONSTANTS[39] == 0x92722C85 && IsCubeRoot(173, 0x5_92722C85)
  {
  }

  lemma SixthConstantsAreRoots()
    ensures ROUND_CONSTANTS[40] == 0xA2BFE8A1 && IsCubeRoot(179, 0x5_A2BFE8A1)
    ensures ROUND_CONSTANTS[41] == 0xA81A664B && IsCubeRoot(181, 0x5_A81A664B)
    ensures ROUND_CONSTANTS[42] == 0xC24B8B70 && IsCubeRoot(191, 0x5_C24B8B70)
    ensures ROUND_CONSTANTS[43] == 0xC76C51A3 && IsCubeRoot(193, 0x5_C76C51A3)
    ensures ROUND_CONSTANTS[44] == 0xD192E819 && IsCubeRoot(197, 0x5_D192E819)
    ensures ROUND_CONSTANTS[45] == 0xD6990624 && IsCubeRoot(199, 0x5_D6990624)
    ensures ROUND_CONSTANTS[46] == 0xF40E3585 && IsCubeRoot(211, 0x5_F40E3585)
    ensures ROUND_CONSTANTS[47] == 0x106AA070 && IsCubeRoot(223, 0x6_106AA070)
  {
  }

  lemma SeventhConstantsAreRoots()
    ensures ROUND_CONSTANTS[48] == 0x19A4C116 && IsCubeRoot(227, 0x6_19A4C116)
    ensures ROUND_CONSTANTS[49] == 0x1E376C08 && IsCubeRoot(229, 0x6_1E376C08)
    ensures ROUND_CONSTANTS[50] == 0x2748774C && IsCubeRoot(233, 0x6_2748774C)
    ensures ROUND_CONSTANTS[51] == 0x34B0BCB5 && IsCubeRoot(239, 0x6_34B0BCB5)
    ensures ROUND_CONSTANTS[52] == 0x391C0CB3 && IsCubeRoot(241, 0x6_391C0CB3)
    ensures ROUND_CONSTANTS[53] == 0x4ED8AA4A && IsCubeRoot(251, 0x6_4ED8AA4A)
    ensures ROUND_CONSTANTS[54] == 0x5B9CCA4F && IsCubeRoot(257, 0x6_5B9CCA4F)
    ensures ROUND_CONSTANTS[55] == 0x682E6FF3 && IsCubeRoot(263, 0x6_682E6FF3)
  {
  }

  lemma EighthConstantsAreRoots()
    ensures ROUND_CONSTANTS[56] == 0x748F82EE && IsCubeRoot(269, 0x6_748F82EE)
    ensures ROUND_CONSTANTS[57] == 0x78A5636F && IsCubeRoot(271, 0x6_78A5636F)
    ensures ROUND_CONSTANTS[58] == 0x84C87814 && IsCubeRoot(277, 0x6_84C87814)
    ensures ROUND_CONSTANTS[59] == 0x8CC70208 && IsCubeRoot(281, 0x6_8CC70208)
    ensures ROUND_CONSTANTS[60] == 0x90BEFFFA && IsCubeRoot(283, 0x6_90BEFFFA)
    ensures ROUND_CONSTANTS[61] == 0xA4506CEB && IsCubeRoot(293, 0x6_A4506CEB)
    ensures ROUND_CONSTANTS[62] == 0xBEF9A3F7 && IsCubeRoot(307, 0x6_BEF9A3F7)
    ensures ROUND_CONSTANTS[63] == 0xC67178F2 && IsCubeRoot(311, 0x6_C67178F2)
  {
  }

  // ----- Words of a block -----

  lemma ByteIsSmall(b: byte)
    ensures (b as bv32) < 256
  {
  }

  /** A word of a block is four bytes, the most significant first. */
  lemma WordBits(block: seq<byte>, k: nat, j: bv5)
    requires 4 * k + 3 < |block| && j < 8
    ensures Bit(WordAt(block, k), 24 + j) <==> Bit(block[4 * k] as bv32, j)
    ensures Bit(WordAt(block, k), 16 + j) <==> Bit(block[4 * k + 1] as bv32, j)
    ensures Bit(WordAt(block, k), 8 + j) <==> Bit(block[4 * k + 2] as bv32, j)
    ensures Bit(WordAt(block, k), j) <==> Bit(block[4 * k + 3] as bv32, j)
  {
    ByteIsSmall(block[4 * k]);
    ByteIsSmall(block[4 * k + 1]);
    ByteIsSmall(block[4 * k + 2]);
    ByteIsSmall(block[4 * k + 3]);
    JoinedBits(block[4 * k] as bv32, block[4 * k + 1] as bv32, block[4 * k + 2] as bv32, block[4 * k + 3] as bv32, j);
  }
}
