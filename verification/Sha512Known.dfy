/**
 * What pins the constants and the elementary functions down: the constants are the roots that sections 4.2.3 and 5.3.5
 * of FIPS 180-4 take them from, and the message "abc" has the digest published with the standard. Every constant and
 * every function of the compression takes part in that digest.
 */
module Sha512Known {
  import opened Sha512Core
  import opened Sha512Stream

  // ---- the rotations, bit by bit ----

  /** Bit k of a word, counted from the lowest; sums of bit numbers are taken modulo 64. */
  predicate BitAt(x: bv64, k: bv6) { (x >> k) & 1 == 1 }

  /** A sum of three bits without carry. */
  predicate Odd(a: bool, b: bool, c: bool) { a != (b != c) }

  lemma OddBits(x: bv64, y: bv64, z: bv64, k: bv6)
    ensures BitAt(x ^ y ^ z, k) <==> Odd(BitAt(x, k), BitAt(y, k), BitAt(z, k))
  {
  }

  lemma Combined(s: bv64, a: bv64, b: bv64, c: bv64, k: bv6, p: bool, q: bool, r: bool)
    requires s == a ^ b ^ c && BitAt(a, k) == p && BitAt(b, k) == q && BitAt(c, k) == r
    ensures BitAt(s, k) <==> Odd(p, q, r)
  {
    hide Odd;
    OddBits(a, b, c, k);
  }

  lemma Ror1Bits(x: bv64, k: bv6) ensures BitAt(Ror(x, 1), k) == BitAt(x, k + 1) { }
  lemma Ror8Bits(x: bv64, k: bv6) ensures BitAt(Ror(x, 8), k) == BitAt(x, k + 8) { }
  lemma Ror14Bits(x: bv64, k: bv6) ensures BitAt(Ror(x, 14), k) == BitAt(x, k + 14) { }
  lemma Ror18Bits(x: bv64, k: bv6) ensures BitAt(Ror(x, 18), k) == BitAt(x, k + 18) { }
  lemma Ror19Bits(x: bv64, k: bv6) ensures BitAt(Ror(x, 19), k) == BitAt(x, k + 19) { }
  lemma Ror28Bits(x: bv64, k: bv6) ensures BitAt(Ror(x, 28), k) == BitAt(x, k + 28) { }
  lemma Ror34Bits(x: bv64, k: bv6) ensures BitAt(Ror(x, 34), k) == BitAt(x, k + 34) { }
  lemma Ror39Bits(x: bv64, k: bv6) ensures BitAt(Ror(x, 39), k) == BitAt(x, k + 39) { }
  lemma Ror41Bits(x: bv64, k: bv6) ensures BitAt(Ror(x, 41), k) == BitAt(x, k + 41) { }
  lemma Ror61Bits(x: bv64, k: bv6) ensures BitAt(Ror(x, 61), k) == BitAt(x, k + 61) { }

  /** A shift loses the bits below. */
  lemma ShiftBits(x: bv64, k: bv6)
    ensures BitAt(x >> 7, k) <==> k < 57 && BitAt(x, k + 7)
    ensures BitAt(x >> 6, k) <==> k < 58 && BitAt(x, k + 6)
  {
  }

  /**
   * Rotating to the right by n puts bit k + n at k. These are the bits that the sums of section 4.1.3 combine; their
   * three parts go by a, b and c.
   */
  lemma Sigma0Bits(x: bv64, k: bv6, s: bv64, a: bv64, b: bv64, c: bv64)
    requires a == Ror(x, 28) && b == Ror(x, 34) && c == Ror(x, 39) && s == Sigma0(x)
    ensures BitAt(s, k) <==> Odd(BitAt(x, k + 28), BitAt(x, k + 34), BitAt(x, k + 39))
  {
    hide BitAt, Odd, Ror;
    Ror28Bits(x, k);
    Ror34Bits(x, k);
    Ror39Bits(x, k);
    Combined(s, a, b, c, k, BitAt(x, k + 28), BitAt(x, k + 34), BitAt(x, k + 39));
  }

  lemma Sigma1Bits(x: bv64, k: bv6, s: bv64, a: bv64, b: bv64, c: bv64)
    requires a == Ror(x, 14) && b == Ror(x, 18) && c == Ror(x, 41) && s == Sigma1(x)
    ensures BitAt(s, k) <==> Odd(BitAt(x, k + 14), BitAt(x, k + 18), BitAt(x, k + 41))
  {
    hide BitAt, Odd, Ror;
    Ror14Bits(x, k);
    Ror18Bits(x, k);
    Ror41Bits(x, k);
    Combined(s, a, b, c, k, BitAt(x, k + 14), BitAt(x, k + 18), BitAt(x, k + 41));
  }

  lemma Gamma0Bits(x: bv64, k: bv6, s: bv64, a: bv64, b: bv64, c: bv64)
    requires a == Ror(x, 1) && b == Ror(x, 8) && c == x >> 7 && s == Gamma0(x)
    ensures BitAt(s, k) <==> Odd(BitAt(x, k + 1), BitAt(x, k + 8), k < 57 && BitAt(x, k + 7))
  {
    hide BitAt, Odd, Ror;
    Ror1Bits(x, k);
    Ror8Bits(x, k);
    ShiftBits(x, k);
    Combined(s, a, b, c, k, BitAt(x, k + 1), BitAt(x, k + 8), k < 57 && BitAt(x, k + 7));
  }

  lemma Gamma1Bits(x: bv64, k: bv6, s: bv64, a: bv64, b: bv64, c: bv64)
    requires a == Ror(x, 19) && b == Ror(x, 61) && c == x >> 6 && s == Gamma1(x)
    ensures BitAt(s, k) <==> Odd(BitAt(x, k + 19), BitAt(x, k + 61), k < 58 && BitAt(x, k + 6))
  {
    hide BitAt, Odd, Ror;
    Ror19Bits(x, k);
    Ror61Bits(x, k);
    ShiftBits(x, k);
    Combined(s, a, b, c, k, BitAt(x, k + 19), BitAt(x, k + 61), k < 58 && BitAt(x, k + 6));
  }

  // ---- the constants ----

  function Square(n: nat): nat { n * n }
  function Cube(n: nat): nat { n * n * n }

  function SquareFloor(p: nat): nat { if p < 4 then 1 else if p < 9 then 2 else if p < 16 then 3 else 4 }
  function CubeFloor(p: nat): nat {
    if p < 8 then 1 else if p < 27 then 2 else if p < 64 then 3 else if p < 125 then 4 else if p < 216 then 5
    else if p < 343 then 6 else 7
  }

  /** The first 64 bits of the fractional part of the square root, for p < 25: neither a unit less nor a unit more. */
  predicate IsSquareRoot(p: nat, k: bv64) {
    var r := SquareFloor(p) * 0x1_0000_0000_0000_0000 + k as nat;
    Square(r) <= p * 0x1_0000_0000_0000_0000_0000_0000_0000_0000 < Square(r + 1)
  }

  /** The same for the cube root, for p < 512. */
  predicate IsCubeRoot(p: nat, k: bv64) {
    var r := CubeFloor(p) * 0x1_0000_0000_0000_0000 + k as nat;
    Cube(r) <= p * 0x1_0000_0000_0000_0000_0000_0000_0000_0000_0000_0000_0000_0000 < Cube(r + 1)
  }

  /** The initial value is taken from the first eight primes. */
  lemma InitialValueIsRoots()
    ensures IsSquareRoot(2, INITIAL_VALUE.a) && IsSquareRoot(3, INITIAL_VALUE.b)
    ensures IsSquareRoot(5, INITIAL_VALUE.c) && IsSquareRoot(7, INITIAL_VALUE.d)
    ensures IsSquareRoot(11, INITIAL_VALUE.e) && IsSquareRoot(13, INITIAL_VALUE.f)
    ensures IsSquareRoot(17, INITIAL_VALUE.g) && IsSquareRoot(19, INITIAL_VALUE.h)
  {
  }

  /** The round constants are taken from the first eighty primes. */
  lemma RootsFrom0()
    ensures IsCubeRoot(2, 0x428a2f98_d728ae22) && IsCubeRoot(3, 0x71374491_23ef65cd)
    ensures IsCubeRoot(5, 0xb5c0fbcf_ec4d3b2f) && IsCubeRoot(7, 0xe9b5dba5_8189dbbc)
    ensures IsCubeRoot(11, 0x3956c25b_f348b538) && IsCubeRoot(13, 0x59f111f1_b605d019)
    ensures IsCubeRoot(17, 0x923f82a4_af194f9b) && IsCubeRoot(19, 0xab1c5ed5_da6d8118)
    ensures IsCubeRoot(23, 0xd807aa98_a3030242) && IsCubeRoot(29, 0x12835b01_45706fbe)
    ensures IsCubeRoot(31, 0x243185be_4ee4b28c) && IsCubeRoot(37, 0x550c7dc3_d5ffb4e2)
    ensures IsCubeRoot(41, 0x72be5d74_f27b896f) && IsCubeRoot(43, 0x80deb1fe_3b1696b1)
    ensures IsCubeRoot(47, 0x9bdc06a7_25c71235) && IsCubeRoot(53, 0xc19bf174_cf692694)
  {
  }

  lemma RootsFrom16()
    ensures IsCubeRoot(59, 0xe49b69c1_9ef14ad2) && IsCubeRoot(61, 0xefbe4786_384f25e3)
    ensures IsCubeRoot(67, 0x0fc19dc6_8b8cd5b5) && IsCubeRoot(71, 0x240ca1cc_77ac9c65)
    ensures IsCubeRoot(73, 0x2de92c6f_592b0275) && IsCubeRoot(79, 0x4a7484aa_6ea6e483)
    ensures IsCubeRoot(83, 0x5cb0a9dc_bd41fbd4) && IsCubeRoot(89, 0x76f988da_831153b5)
    ensures IsCubeRoot(97, 0x983e5152_ee66dfab) && IsCubeRoot(101, 0xa831c66d_2db43210)
    ensures IsCubeRoot(103, 0xb00327c8_98fb213f) && IsCubeRoot(107, 0xbf597fc7_beef0ee4)
    ensures IsCubeRoot(109, 0xc6e00bf3_3da88fc2) && IsCubeRoot(113, 0xd5a79147_930aa725)
    ensures IsCubeRoot(127, 0x06ca6351_e003826f) && IsCubeRoot(131, 0x14292967_0a0e6e70)
  {
  }

  lemma RootsFrom32()
    ensures IsCubeRoot(137, 0x27b70a85_46d22ffc) && IsCubeRoot(139, 0x2e1b2138_5c26c926)
    ensures IsCubeRoot(149, 0x4d2c6dfc_5ac42aed) && IsCubeRoot(151, 0x53380d13_9d95b3df)
    ensures IsCubeRoot(157, 0x650a7354_8baf63de) && IsCubeRoot(163, 0x766a0abb_3c77b2a8)
    ensures IsCubeRoot(167, 0x81c2c92e_47edaee6) && IsCubeRoot(173, 0x92722c85_1482353b)
    ensures IsCubeRoot(179, 0xa2bfe8a1_4cf10364) && IsCubeRoot(181, 0xa81a664b_bc423001)
    ensures IsCubeRoot(191, 0xc24b8b70_d0f89791) && IsCubeRoot(193, 0xc76c51a3_0654be30)
    ensures IsCubeRoot(197, 0xd192e819_d6ef5218) && IsCubeRoot(199, 0xd6990624_5565a910)
    ensures IsCubeRoot(211, 0xf40e3585_5771202a) && IsCubeRoot(223, 0x106aa070_32bbd1b8)
  {
  }

  lemma RootsFrom48()
    ensures IsCubeRoot(227, 0x19a4c116_b8d2d0c8) && IsCubeRoot(229, 0x1e376c08_5141ab53)
    ensures IsCubeRoot(233, 0x2748774c_df8eeb99) && IsCubeRoot(239, 0x34b0bcb5_e19b48a8)
    ensures IsCubeRoot(241, 0x391c0cb3_c5c95a63) && IsCubeRoot(251, 0x4ed8aa4a_e3418acb)
    ensures IsCubeRoot(257, 0x5b9cca4f_7763e373) && IsCubeRoot(263, 0x682e6ff3_d6b2b8a3)
    ensures IsCubeRoot(269, 0x748f82ee_5defb2fc) && IsCubeRoot(271, 0x78a5636f_43172f60)
    ensures IsCubeRoot(277, 0x84c87814_a1f0ab72) && IsCubeRoot(281, 0x8cc70208_1a6439ec)
    ensures IsCubeRoot(283, 0x90befffa_23631e28) && IsCubeRoot(293, 0xa4506ceb_de82bde9)
    ensures IsCubeRoot(307, 0xbef9a3f7_b2c67915) && IsCubeRoot(311, 0xc67178f2_e372532b)
  {
  }

  lemma RootsFrom64()
    ensures IsCubeRoot(313, 0xca273ece_ea26619c) && IsCubeRoot(317, 0xd186b8c7_21c0c207)
    ensures IsCubeRoot(331, 0xeada7dd6_cde0eb1e) && IsCubeRoot(337, 0xf57d4f7f_ee6ed178)
    ensures IsCubeRoot(347, 0x06f067aa_72176fba) && IsCubeRoot(349, 0x0a637dc5_a2c898a6)
    ensures IsCubeRoot(353, 0x113f9804_bef90dae) && IsCubeRoot(359, 0x1b710b35_131c471b)
    ensures IsCubeRoot(367, 0x28db77f5_23047d84) && IsCubeRoot(373, 0x32caab7b_40c72493)
    ensures IsCubeRoot(379, 0x3c9ebe0a_15c9bebc) && IsCubeRoot(383, 0x431d67c4_9c100d4c)
    ensures IsCubeRoot(389, 0x4cc5d4be_cb3e42b6) && IsCubeRoot(397, 0x597f299c_fc657e2a)
    ensures IsCubeRoot(401, 0x5fcb6fab_3ad6faec) && IsCubeRoot(409, 0x6c44198c_4a475817)
  {
  }

  lemma ConstantsFrom0()
    ensures RoundConstant(0) == 0x428a2f98_d728ae22 && RoundConstant(1) == 0x71374491_23ef65cd
    ensures RoundConstant(2) == 0xb5c0fbcf_ec4d3b2f && RoundConstant(3) == 0xe9b5dba5_8189dbbc
    ensures RoundConstant(4) == 0x3956c25b_f348b538 && RoundConstant(5) == 0x59f111f1_b605d019
    ensures RoundConstant(6) == 0x923f82a4_af194f9b && RoundConstant(7) == 0xab1c5ed5_da6d8118
    ensures RoundConstant(8) == 0xd807aa98_a3030242 && RoundConstant(9) == 0x12835b01_45706fbe
    ensures RoundConstant(10) == 0x243185be_4ee4b28c && RoundConstant(11) == 0x550c7dc3_d5ffb4e2
    ensures RoundConstant(12) == 0x72be5d74_f27b896f && RoundConstant(13) == 0x80deb1fe_3b1696b1
    ensures RoundConstant(14) == 0x9bdc06a7_25c71235 && RoundConstant(15) == 0xc19bf174_cf692694
  {
  }

  lemma ConstantsFrom16()
    ensures RoundConstant(16) == 0xe49b69c1_9ef14ad2 && RoundConstant(17) == 0xefbe4786_384f25e3
    ensures RoundConstant(18) == 0x0fc19dc6_8b8cd5b5 && RoundConstant(19) == 0x240ca1cc_77ac9c65
    ensures RoundConstant(20) == 0x2de92c6f_592b0275 && RoundConstant(21) == 0x4a7484aa_6ea6e483
    ensures RoundConstant(22) == 0x5cb0a9dc_bd41fbd4 && RoundConstant(23) == 0x76f988da_831153b5
    ensures RoundConstant(24) == 0x983e5152_ee66dfab && RoundConstant(25) == 0xa831c66d_2db43210
    ensures RoundConstant(26) == 0xb00327c8_98fb213f && RoundConstant(27) == 0xbf597fc7_beef0ee4
    ensures RoundConstant(28) == 0xc6e00bf3_3da88fc2 && RoundConstant(29) == 0xd5a79147_930aa725
    ensures RoundConstant(30) == 0x06ca6351_e003826f && RoundConstant(31) == 0x14292967_0a0e6e70
  {
  }

  lemma ConstantsFrom32()
    ensures RoundConstant(32) == 0x27b70a85_46d22ffc && RoundConstant(33) == 0x2e1b2138_5c26c926
    ensures RoundConstant(34) == 0x4d2c6dfc_5ac42aed && RoundConstant(35) == 0x53380d13_9d95b3df
    ensures RoundConstant(36) == 0x650a7354_8baf63de && RoundConstant(37) == 0x766a0abb_3c77b2a8
    ensures RoundConstant(38) == 0x81c2c92e_47edaee6 && RoundConstant(39) == 0x92722c85_1482353b
    ensures RoundConstant(40) == 0xa2bfe8a1_4cf10364 && RoundConstant(41) == 0xa81a664b_bc423001
    ensures RoundConstant(42) == 0xc24b8b70_d0f89791 && RoundConstant(43) == 0xc76c51a3_0654be30
    ensures RoundConstant(44) == 0xd192e819_d6ef5218 && RoundConstant(45) == 0xd6990624_5565a910
    ensures RoundConstant(46) == 0xf40e3585_5771202a && RoundConstant(47) == 0x106aa070_32bbd1b8
  {
  }

  lemma ConstantsFrom48()
    ensures RoundConstant(48) == 0x19a4c116_b8d2d0c8 && RoundConstant(49) == 0x1e376c08_5141ab53
    ensures RoundConstant(50) == 0x2748774c_df8eeb99 && RoundConstant(51) == 0x34b0bcb5_e19b48a8
    ensures RoundConstant(52) == 0x391c0cb3_c5c95a63 && RoundConstant(53) == 0x4ed8aa4a_e3418acb
    ensures RoundConstant(54) == 0x5b9cca4f_7763e373 && RoundConstant(55) == 0x682e6ff3_d6b2b8a3
    ensures RoundConstant(56) == 0x748f82ee_5defb2fc && RoundConstant(57) == 0x78a5636f_43172f60
    ensures RoundConstant(58) == 0x84c87814_a1f0ab72 && RoundConstant(59) == 0x8cc70208_1a6439ec
    ensures RoundConstant(60) == 0x90befffa_23631e28 && RoundConstant(61) == 0xa4506ceb_de82bde9
    ensures RoundConstant(62) == 0xbef9a3f7_b2c67915 && RoundConstant(63) == 0xc67178f2_e372532b
  {
  }

  lemma ConstantsFrom64()
    ensures RoundConstant(64) == 0xca273ece_ea26619c && RoundConstant(65) == 0xd186b8c7_21c0c207
    ensures RoundConstant(66) == 0xeada7dd6_cde0eb1e && RoundConstant(67) == 0xf57d4f7f_ee6ed178
    ensures RoundConstant(68) == 0x06f067aa_72176fba && RoundConstant(69) == 0x0a637dc5_a2c898a6
    ensures RoundConstant(70) == 0x113f9804_bef90dae && RoundConstant(71) == 0x1b710b35_131c471b
    ensures RoundConstant(72) == 0x28db77f5_23047d84 && RoundConstant(73) == 0x32caab7b_40c72493
    ensures RoundConstant(74) == 0x3c9ebe0a_15c9bebc && RoundConstant(75) == 0x431d67c4_9c100d4c
    ensures RoundConstant(76) == 0x4cc5d4be_cb3e42b6 && RoundConstant(77) == 0x597f299c_fc657e2a
    ensures RoundConstant(78) == 0x5fcb6fab_3ad6faec && RoundConstant(79) == 0x6c44198c_4a475817
  {
  }

  // ---- the schedule of the one block of "abc" ----

  const ABC: seq<bv8> := [0x61, 0x62, 0x63]

  function Block(): (b: seq<bv8>)
    ensures |b| == 128
  {
    [0x61, 0x62, 0x63, 0x80] + Blank(123) + [24]
  }

  lemma PaddedAbc()
    ensures Pad(ABC) == Block()
  {
    hide BigEndian, ZeroCount;
    ZerosFromTail(3, 3);
    LengthOfAbc();
    assert Blank(108) + Blank(15) == Blank(123);
    assert ABC + [0x80] + Blank(108) + (Blank(15) + [24]) == [0x61, 0x62, 0x63, 0x80] + (Blank(108) + Blank(15)) + [24];
  }

  lemma LengthOfAbc()
    ensures BigEndian(24, 16) == Blank(15) + [24]
  {
    hide Pow256;
    BlankIffZero(0, 15);
    assert 24 / 256 == 0 && Low(24) == 24;
  }

  lemma FirstWords()
    ensures ScheduleWord(Block(), 0) == 0x61626380_00000000 && ScheduleWord(Block(), 15) == 24
    ensures forall i :: 1 <= i < 15 ==> ScheduleWord(Block(), i) == 0
  {
    var b := Block();
    assert b[0..8] == [0x61, 0x62, 0x63, 0x80, 0, 0, 0, 0];
    assert b[120..128] == [0, 0, 0, 0, 0, 0, 0, 24];
    forall i | 1 <= i < 15 ensures ScheduleWord(b, i) == 0 {
      assert b[8 * i..8 * i + 8] == [0, 0, 0, 0, 0, 0, 0, 0];
    }
  }

  /** A further word of the schedule, from four earlier ones. */
  lemma Word(b: seq<bv8>, i: nat, w2: bv64, w7: bv64, w15: bv64, w16: bv64, w: bv64)
    requires |b| == 128 && 16 <= i < 80
    requires ScheduleWord(b, i - 2) == w2 && ScheduleWord(b, i - 7) == w7
    requires ScheduleWord(b, i - 15) == w15 && ScheduleWord(b, i - 16) == w16
    requires ScheduleNext(w2, w7, w15, w16) == w
    ensures ScheduleWord(b, i) == w
  {
    hide ScheduleNext;
  }

  /** Sixteen words of the schedule in a row. */
  predicate Words(b: seq<bv8>, at: nat, w: seq<bv64>)
    requires |b| == 128 && |w| == 16 && at + 16 <= 80
  {
    && ScheduleWord(b, at) == w[0] && ScheduleWord(b, at + 1) == w[1]
    && ScheduleWord(b, at + 2) == w[2] && ScheduleWord(b, at + 3) == w[3]
    && ScheduleWord(b, at + 4) == w[4] && ScheduleWord(b, at + 5) == w[5]
    && ScheduleWord(b, at + 6) == w[6] && ScheduleWord(b, at + 7) == w[7]
    && ScheduleWord(b, at + 8) == w[8] && ScheduleWord(b, at + 9) == w[9]
    && ScheduleWord(b, at + 10) == w[10] && ScheduleWord(b, at + 11) == w[11]
    && ScheduleWord(b, at + 12) == w[12] && ScheduleWord(b, at + 13) == w[13]
    && ScheduleWord(b, at + 14) == w[14] && ScheduleWord(b, at + 15) == w[15]
  }

  const WORDS_0: seq<bv64> := [
    0x61626380_00000000, 0x00000000_00000000, 0x00000000_00000000, 0x00000000_00000000,
    0x00000000_00000000, 0x00000000_00000000, 0x00000000_00000000, 0x00000000_00000000,
    0x00000000_00000000, 0x00000000_00000000, 0x00000000_00000000, 0x00000000_00000000,
    0x00000000_00000000, 0x00000000_00000000, 0x00000000_00000000, 0x00000000_00000018
  ]

  const WORDS_16: seq<bv64> := [
    0x61626380_00000000, 0x00030000_000000c0, 0x0a9699a2_4c700003, 0x00000c00_60000603,
    0x549ef626_39858996, 0x00c00033_00003c00, 0x1497007a_8a0e9dbc, 0x62e56500_cc0780f0,
    0x7760dd47_5a538797, 0xf1554b71_1c1c0003, 0xca2993a4_345d9ff2, 0x5e0e66b5_c783dd32,
    0xe25a625d_00494b62, 0x9f44486f_b1e4fbd2, 0xb31b8c2b_06085f2f, 0x0e987660_934142f6
  ]

  const WORDS_32: seq<bv64> := [
    0xa4af2cfd_09fbb924, 0xad289e2e_0bd53186, 0x3c74563a_a2f9673e, 0x6ccdcd14_cc14b53f,
    0xc3f925b3_37f22bde, 0x5bcc77a7_5ad95b54, 0x3ec2257a_dca09a52, 0x28246960_001fc5eb,
    0x04e33a75_ce2be88a, 0x7d5314b3_c359e0e7, 0xaef7a285_ff251266, 0x0b847258_1deea04f,
    0xb174e26e_ddc7b033, 0x5d63bae5_8ddd88de, 0x4c044007_b744ccbb, 0xe6a9aa4d_74dc7d43
  ]

  const WORDS_48: seq<bv64> := [
    0xebeaf123_7248019c, 0x361e80b2_d00f3193, 0x2e983912_5df3b175, 0x33196292_93ad5363,
    0x9cbc5d89_ac1b89d5, 0x275e23ff_eeca50b7, 0x3b80d680_bf69ef58, 0x0d069693_3945a125,
    0x7533eabc_b786ff00, 0xb89826ce_e6fbf0e5, 0x249b4fbc_ad623e9f, 0x4aea9df2_b02d6f1e,
    0x2cc57475_a55e8d8f, 0xb2574ae9_38d8be89, 0xc1b35a57_b16d6aea, 0xcc4918b5_949206bb
  ]

  const WORDS_64: seq<bv64> := [
    0x5099c3ad_d79f90ec, 0x5ea81d78_e7660bf1, 0xebee6267_405ac2a9, 0xb01f2192_6108a4ab,
    0x786433dd_2fe65556, 0xc54a6eaa_24a0552c, 0xb3c8f153_0bdbaa9e, 0xbb8abfe5_6f469338,
    0xf63d4265_cc1c5a78, 0xbe8355ea_73129afb, 0x49e2db8e_bdcfbeb5, 0x82269d4a_883a3d99,
    0xfdf53df3_011f362b, 0x464af567_1d71c12e, 0xe449b681_98ec611c, 0x92aeeed1_a7bcf7d2
  ]

  lemma EightFrom16(b: seq<bv8>)
    requires |b| == 128 && Words(b, 0, WORDS_0)
    ensures ScheduleWord(b, 16) == 0x61626380_00000000
    ensures ScheduleWord(b, 17) == 0x00030000_000000c0
    ensures ScheduleWord(b, 18) == 0x0a9699a2_4c700003
    ensures ScheduleWord(b, 19) == 0x00000c00_60000603
    ensures ScheduleWord(b, 20) == 0x549ef626_39858996
    ensures ScheduleWord(b, 21) == 0x00c00033_00003c00
    ensures ScheduleWord(b, 22) == 0x1497007a_8a0e9dbc
    ensures ScheduleWord(b, 23) == 0x62e56500_cc0780f0
  {
    hide ScheduleWord;
    Word(b, 16, 0x00000000_00000000, 0x00000000_00000000, 0x00000000_00000000, 0x61626380_00000000, 0x61626380_00000000);
    Word(b, 17, 0x00000000_00000018, 0x00000000_00000000, 0x00000000_00000000, 0x00000000_00000000, 0x00030000_000000c0);
    Word(b, 18, 0x61626380_00000000, 0x00000000_00000000, 0x00000000_00000000, 0x00000000_00000000, 0x0a9699a2_4c700003);
    Word(b, 19, 0x00030000_000000c0, 0x00000000_00000000, 0x00000000_00000000, 0x00000000_00000000, 0x00000c00_60000603);
    Word(b, 20, 0x0a9699a2_4c700003, 0x00000000_00000000, 0x00000000_00000000, 0x00000000_00000000, 0x549ef626_39858996);
    Word(b, 21, 0x00000c00_60000603, 0x00000000_00000000, 0x00000000_00000000, 0x00000000_00000000, 0x00c00033_00003c00);
    Word(b, 22, 0x549ef626_39858996, 0x00000000_00000018, 0x00000000_00000000, 0x00000000_00000000, 0x1497007a_8a0e9dbc);
    Word(b, 23, 0x00c00033_00003c00, 0x61626380_00000000, 0x00000000_00000000, 0x00000000_00000000, 0x62e56500_cc0780f0);
  }

  lemma WordsFrom16(b: seq<bv8>)
    requires |b| == 128 && Words(b, 0, WORDS_0)
    ensures Words(b, 16, WORDS_16)
  {
    hide ScheduleWord;
    EightFrom16(b);
    Word(b, 24, 0x1497007a_8a0e9dbc, 0x00030000_000000c0, 0x00000000_00000000, 0x00000000_00000000, 0x7760dd47_5a538797);
    Word(b, 25, 0x62e56500_cc0780f0, 0x0a9699a2_4c700003, 0x00000000_00000000, 0x00000000_00000000, 0xf1554b71_1c1c0003);
    Word(b, 26, 0x7760dd47_5a538797, 0x00000c00_60000603, 0x00000000_00000000, 0x00000000_00000000, 0xca2993a4_345d9ff2);
    Word(b, 27, 0xf1554b71_1c1c0003, 0x549ef626_39858996, 0x00000000_00000000, 0x00000000_00000000, 0x5e0e66b5_c783dd32);
    Word(b, 28, 0xca2993a4_345d9ff2, 0x00c00033_00003c00, 0x00000000_00000000, 0x00000000_00000000, 0xe25a625d_00494b62);
    Word(b, 29, 0x5e0e66b5_c783dd32, 0x1497007a_8a0e9dbc, 0x00000000_00000000, 0x00000000_00000000, 0x9f44486f_b1e4fbd2);
    Word(b, 30, 0xe25a625d_00494b62, 0x62e56500_cc0780f0, 0x00000000_00000018, 0x00000000_00000000, 0xb31b8c2b_06085f2f);
    Word(b, 31, 0x9f44486f_b1e4fbd2, 0x7760dd47_5a538797, 0x61626380_00000000, 0x00000000_00000018, 0x0e987660_934142f6);
  }

  lemma EightFrom32(b: seq<bv8>)
    requires |b| == 128 && Words(b, 16, WORDS_16)
    ensures ScheduleWord(b, 32) == 0xa4af2cfd_09fbb924
    ensures ScheduleWord(b, 33) == 0xad289e2e_0bd53186
    ensures ScheduleWord(b, 34) == 0x3c74563a_a2f9673e
    ensures ScheduleWord(b, 35) == 0x6ccdcd14_cc14b53f
    ensures ScheduleWord(b, 36) == 0xc3f925b3_37f22bde
    ensures ScheduleWord(b, 37) == 0x5bcc77a7_5ad95b54
    ensures ScheduleWord(b, 38) == 0x3ec2257a_dca09a52
    ensures ScheduleWord(b, 39) == 0x28246960_001fc5eb
  {
    hide ScheduleWord;
    Word(b, 32, 0xb31b8c2b_06085f2f, 0xf1554b71_1c1c0003, 0x00030000_000000c0, 0x61626380_00000000, 0xa4af2cfd_09fbb924);
    Word(b, 33, 0x0e987660_934142f6, 0xca2993a4_345d9ff2, 0x0a9699a2_4c700003, 0x00030000_000000c0, 0xad289e2e_0bd53186);
    Word(b, 34, 0xa4af2cfd_09fbb924, 0x5e0e66b5_c783dd32, 0x00000c00_60000603, 0x0a9699a2_4c700003, 0x3c74563a_a2f9673e);
    Word(b, 35, 0xad289e2e_0bd53186, 0xe25a625d_00494b62, 0x549ef626_39858996, 0x00000c00_60000603, 0x6ccdcd14_cc14b53f);
    Word(b, 36, 0x3c74563a_a2f9673e, 0x9f44486f_b1e4fbd2, 0x00c00033_00003c00, 0x549ef626_39858996, 0xc3f925b3_37f22bde);
    Word(b, 37, 0x6ccdcd14_cc14b53f, 0xb31b8c2b_06085f2f, 0x1497007a_8a0e9dbc, 0x00c00033_00003c00, 0x5bcc77a7_5ad95b54);
    Word(b, 38, 0xc3f925b3_37f22bde, 0x0e987660_934142f6, 0x62e56500_cc0780f0, 0x1497007a_8a0e9dbc, 0x3ec2257a_dca09a52);
    Word(b, 39, 0x5bcc77a7_5ad95b54, 0xa4af2cfd_09fbb924, 0x7760dd47_5a538797, 0x62e56500_cc0780f0, 0x28246960_001fc5eb);
  }

  lemma WordsFrom32(b: seq<bv8>)
    requires |b| == 128 && Words(b, 16, WORDS_16)
    ensures Words(b, 32, WORDS_32)
  {
    hide ScheduleWord;
    EightFrom32(b);
    Word(b, 40, 0x3ec2257a_dca09a52, 0xad289e2e_0bd53186, 0xf1554b71_1c1c0003, 0x7760dd47_5a538797, 0x04e33a75_ce2be88a);
    Word(b, 41, 0x28246960_001fc5eb, 0x3c74563a_a2f9673e, 0xca2993a4_345d9ff2, 0xf1554b71_1c1c0003, 0x7d5314b3_c359e0e7);
    Word(b, 42, 0x04e33a75_ce2be88a, 0x6ccdcd14_cc14b53f, 0x5e0e66b5_c783dd32, 0xca2993a4_345d9ff2, 0xaef7a285_ff251266);
    Word(b, 43, 0x7d5314b3_c359e0e7, 0xc3f925b3_37f22bde, 0xe25a625d_00494b62, 0x5e0e66b5_c783dd32, 0x0b847258_1deea04f);
    Word(b, 44, 0xaef7a285_ff251266, 0x5bcc77a7_5ad95b54, 0x9f44486f_b1e4fbd2, 0xe25a625d_00494b62, 0xb174e26e_ddc7b033);
    Word(b, 45, 0x0b847258_1deea04f, 0x3ec2257a_dca09a52, 0xb31b8c2b_06085f2f, 0x9f44486f_b1e4fbd2, 0x5d63bae5_8ddd88de);
    Word(b, 46, 0xb174e26e_ddc7b033, 0x28246960_001fc5eb, 0x0e987660_934142f6, 0xb31b8c2b_06085f2f, 0x4c044007_b744ccbb);
    Word(b, 47, 0x5d63bae5_8ddd88de, 0x04e33a75_ce2be88a, 0xa4af2cfd_09fbb924, 0x0e987660_934142f6, 0xe6a9aa4d_74dc7d43);
  }

  lemma EightFrom48(b: seq<bv8>)
    requires |b| == 128 && Words(b, 32, WORDS_32)
    ensures ScheduleWord(b, 48) == 0xebeaf123_7248019c
    ensures ScheduleWord(b, 49) == 0x361e80b2_d00f3193
    ensures ScheduleWord(b, 50) == 0x2e983912_5df3b175
    ensures ScheduleWord(b, 51) == 0x33196292_93ad5363
    ensures ScheduleWord(b, 52) == 0x9cbc5d89_ac1b89d5
    ensures ScheduleWord(b, 53) == 0x275e23ff_eeca50b7
    ensures ScheduleWord(b, 54) == 0x3b80d680_bf69ef58
    ensures ScheduleWord(b, 55) == 0x0d069693_3945a125
  {
    hide ScheduleWord;
    Word(b, 48, 0x4c044007_b744ccbb, 0x7d5314b3_c359e0e7, 0xad289e2e_0bd53186, 0xa4af2cfd_09fbb924, 0xebeaf123_7248019c);
    Word(b, 49, 0xe6a9aa4d_74dc7d43, 0xaef7a285_ff251266, 0x3c74563a_a2f9673e, 0xad289e2e_0bd53186, 0x361e80b2_d00f3193);
    Word(b, 50, 0xebeaf123_7248019c, 0x0b847258_1deea04f, 0x6ccdcd14_cc14b53f, 0x3c74563a_a2f9673e, 0x2e983912_5df3b175);
    Word(b, 51, 0x361e80b2_d00f3193, 0xb174e26e_ddc7b033, 0xc3f925b3_37f22bde, 0x6ccdcd14_cc14b53f, 0x33196292_93ad5363);
    Word(b, 52, 0x2e983912_5df3b175, 0x5d63bae5_8ddd88de, 0x5bcc77a7_5ad95b54, 0xc3f925b3_37f22bde, 0x9cbc5d89_ac1b89d5);
    Word(b, 53, 0x33196292_93ad5363, 0x4c044007_b744ccbb, 0x3ec2257a_dca09a52, 0x5bcc77a7_5ad95b54, 0x275e23ff_eeca50b7);
    Word(b, 54, 0x9cbc5d89_ac1b89d5, 0xe6a9aa4d_74dc7d43, 0x28246960_001fc5eb, 0x3ec2257a_dca09a52, 0x3b80d680_bf69ef58);
    Word(b, 55, 0x275e23ff_eeca50b7, 0xebeaf123_7248019c, 0x04e33a75_ce2be88a, 0x28246960_001fc5eb, 0x0d069693_3945a125);
  }

  lemma WordsFrom48(b: seq<bv8>)
    requires |b| == 128 && Words(b, 32, WORDS_32)
    ensures Words(b, 48, WORDS_48)
  {
    hide ScheduleWord;
    EightFrom48(b);
    Word(b, 56, 0x3b80d680_bf69ef58, 0x361e80b2_d00f3193, 0x7d5314b3_c359e0e7, 0x04e33a75_ce2be88a, 0x7533eabc_b786ff00);
    Word(b, 57, 0x0d069693_3945a125, 0x2e983912_5df3b175, 0xaef7a285_ff251266, 0x7d5314b3_c359e0e7, 0xb89826ce_e6fbf0e5);
    Word(b, 58, 0x7533eabc_b786ff00, 0x33196292_93ad5363, 0x0b847258_1deea04f, 0xaef7a285_ff251266, 0x249b4fbc_ad623e9f);
    Word(b, 59, 0xb89826ce_e6fbf0e5, 0x9cbc5d89_ac1b89d5, 0xb174e26e_ddc7b033, 0x0b847258_1deea04f, 0x4aea9df2_b02d6f1e);
    Word(b, 60, 0x249b4fbc_ad623e9f, 0x275e23ff_eeca50b7, 0x5d63bae5_8ddd88de, 0xb174e26e_ddc7b033, 0x2cc57475_a55e8d8f);
    Word(b, 61, 0x4aea9df2_b02d6f1e, 0x3b80d680_bf69ef58, 0x4c044007_b744ccbb, 0x5d63bae5_8ddd88de, 0xb2574ae9_38d8be89);
    Word(b, 62, 0x2cc57475_a55e8d8f, 0x0d069693_3945a125, 0xe6a9aa4d_74dc7d43, 0x4c044007_b744ccbb, 0xc1b35a57_b16d6aea);
    Word(b, 63, 0xb2574ae9_38d8be89, 0x7533eabc_b786ff00, 0xebeaf123_7248019c, 0xe6a9aa4d_74dc7d43, 0xcc4918b5_949206bb);
  }

  lemma EightFrom64(b: seq<bv8>)
    requires |b| == 128 && Words(b, 48, WORDS_48)
    ensures ScheduleWord(b, 64) == 0x5099c3ad_d79f90ec
    ensures ScheduleWord(b, 65) == 0x5ea81d78_e7660bf1
    ensures ScheduleWord(b, 66) == 0xebee6267_405ac2a9
    ensures ScheduleWord(b, 67) == 0xb01f2192_6108a4ab
    ensures ScheduleWord(b, 68) == 0x786433dd_2fe65556
    ensures ScheduleWord(b, 69) == 0xc54a6eaa_24a0552c
    ensures ScheduleWord(b, 70) == 0xb3c8f153_0bdbaa9e
    ensures ScheduleWord(b, 71) == 0xbb8abfe5_6f469338
  {
    hide ScheduleWord;
    Word(b, 64, 0xc1b35a57_b16d6aea, 0xb89826ce_e6fbf0e5, 0x361e80b2_d00f3193, 0xebeaf123_7248019c, 0x5099c3ad_d79f90ec);
    Word(b, 65, 0xcc4918b5_949206bb, 0x249b4fbc_ad623e9f, 0x2e983912_5df3b175, 0x361e80b2_d00f3193, 0x5ea81d78_e7660bf1);
    Word(b, 66, 0x5099c3ad_d79f90ec, 0x4aea9df2_b02d6f1e, 0x33196292_93ad5363, 0x2e983912_5df3b175, 0xebee6267_405ac2a9);
    Word(b, 67, 0x5ea81d78_e7660bf1, 0x2cc57475_a55e8d8f, 0x9cbc5d89_ac1b89d5, 0x33196292_93ad5363, 0xb01f2192_6108a4ab);
    Word(b, 68, 0xebee6267_405ac2a9, 0xb2574ae9_38d8be89, 0x275e23ff_eeca50b7, 0x9cbc5d89_ac1b89d5, 0x786433dd_2fe65556);
    Word(b, 69, 0xb01f2192_6108a4ab, 0xc1b35a57_b16d6aea, 0x3b80d680_bf69ef58, 0x275e23ff_eeca50b7, 0xc54a6eaa_24a0552c);
    Word(b, 70, 0x786433dd_2fe65556, 0xcc4918b5_949206bb, 0x0d069693_3945a125, 0x3b80d680_bf69ef58, 0xb3c8f153_0bdbaa9e);
    Word(b, 71, 0xc54a6eaa_24a0552c, 0x5099c3ad_d79f90ec, 0x7533eabc_b786ff00, 0x0d069693_3945a125, 0xbb8abfe5_6f469338);
  }

  lemma WordsFrom64(b: seq<bv8>)
    requires |b| == 128 && Words(b, 48, WORDS_48)
    ensures Words(b, 64, WORDS_64)
  {
    hide ScheduleWord;
    EightFrom64(b);
    Word(b, 72, 0xb3c8f153_0bdbaa9e, 0x5ea81d78_e7660bf1, 0xb89826ce_e6fbf0e5, 0x7533eabc_b786ff00, 0xf63d4265_cc1c5a78);
    Word(b, 73, 0xbb8abfe5_6f469338, 0xebee6267_405ac2a9, 0x249b4fbc_ad623e9f, 0xb89826ce_e6fbf0e5, 0xbe8355ea_73129afb);
    Word(b, 74, 0xf63d4265_cc1c5a78, 0xb01f2192_6108a4ab, 0x4aea9df2_b02d6f1e, 0x249b4fbc_ad623e9f, 0x49e2db8e_bdcfbeb5);
    Word(b, 75, 0xbe8355ea_73129afb, 0x786433dd_2fe65556, 0x2cc57475_a55e8d8f, 0x4aea9df2_b02d6f1e, 0x82269d4a_883a3d99);
    Word(b, 76, 0x49e2db8e_bdcfbeb5, 0xc54a6eaa_24a0552c, 0xb2574ae9_38d8be89, 0x2cc57475_a55e8d8f, 0xfdf53df3_011f362b);
    Word(b, 77, 0x82269d4a_883a3d99, 0xb3c8f153_0bdbaa9e, 0xc1b35a57_b16d6aea, 0xb2574ae9_38d8be89, 0x464af567_1d71c12e);
    Word(b, 78, 0xfdf53df3_011f362b, 0xbb8abfe5_6f469338, 0xcc4918b5_949206bb, 0xc1b35a57_b16d6aea, 0xe449b681_98ec611c);
    Word(b, 79, 0x464af567_1d71c12e, 0xf63d4265_cc1c5a78, 0x5099c3ad_d79f90ec, 0xcc4918b5_949206bb, 0x92aeeed1_a7bcf7d2);
  }

  // ---- the eighty rounds ----

  predicate After(b: seq<bv8>, n: nat, r: Regs)
    requires |b| == 128 && n <= 80
  {
    Rounds(INITIAL_VALUE, Schedule(b), n) == r
  }

  /** One more round: the first and the fifth register are new. */
  lemma Step(b: seq<bv8>, n: nat, r: Regs, k: bv64, w: bv64, a: bv64, e: bv64) returns (r': Regs)
    requires |b| == 128 && n < 80 && After(b, n, r) && RoundConstant(n) == k && ScheduleWord(b, n) == w
    requires Round(r, k, w) == Regs(a, r.a, r.b, r.c, e, r.e, r.f, r.g)
    ensures r' == Regs(a, r.a, r.b, r.c, e, r.e, r.f, r.g) && After(b, n + 1, r')
  {
    hide Round, RoundConstant, ScheduleWord;
    r' := Regs(a, r.a, r.b, r.c, e, r.e, r.f, r.g);
  }

  lemma NoRounds(b: seq<bv8>)
    requires |b| == 128
    ensures After(b, 0, INITIAL_VALUE)
  {
  }

  lemma RoundsFrom0(b: seq<bv8>)
    requires |b| == 128 && Words(b, 0, WORDS_0)
    ensures After(b, 8, Regs(0x8093d195_e0054fa3, 0xc4875b0c_7abc076b, 0xaf573b02_403e89cd, 0xb6809539_51604860,
                     0x86f67263_a0f0ec0a, 0x5a6c781f_54dcc00c, 0x96f60209_b6dc35ba, 0x745aca4a_342ed2e2))
  {
    hide ScheduleWord, Rounds, Schedule, After, RoundConstant;
    ConstantsFrom0();
    var r := INITIAL_VALUE;
    NoRounds(b);
    r := Step(b, 0, r, 0x428a2f98_d728ae22, 0x61626380_00000000, 0xf6afceb8_bcfcddf5, 0x58cb0234_7ab51f91);
    r := Step(b, 1, r, 0x71374491_23ef65cd, 0x00000000_00000000, 0x1320f8c9_fb872cc0, 0xc3d4ebfd_48650ffa);
    r := Step(b, 2, r, 0xb5c0fbcf_ec4d3b2f, 0x00000000_00000000, 0xebcffc07_203d91f3, 0xdfa9b239_f2697812);
    r := Step(b, 3, r, 0xe9b5dba5_8189dbbc, 0x00000000_00000000, 0x5a83cb3e_80050e82, 0x0b47b4bb_1928990e);
    r := Step(b, 4, r, 0x3956c25b_f348b538, 0x00000000_00000000, 0xb6809539_51604860, 0x745aca4a_342ed2e2);
    r := Step(b, 5, r, 0x59f111f1_b605d019, 0x00000000_00000000, 0xaf573b02_403e89cd, 0x96f60209_b6dc35ba);
    r := Step(b, 6, r, 0x923f82a4_af194f9b, 0x00000000_00000000, 0xc4875b0c_7abc076b, 0x5a6c781f_54dcc00c);
    r := Step(b, 7, r, 0xab1c5ed5_da6d8118, 0x00000000_00000000, 0x8093d195_e0054fa3, 0x86f67263_a0f0ec0a);
  }

  lemma RoundsFrom8(b: seq<bv8>)
    requires |b| == 128 && Words(b, 0, WORDS_0)
    requires After(b, 8, Regs(0x8093d195_e0054fa3, 0xc4875b0c_7abc076b, 0xaf573b02_403e89cd, 0xb6809539_51604860,
                      0x86f67263_a0f0ec0a, 0x5a6c781f_54dcc00c, 0x96f60209_b6dc35ba, 0x745aca4a_342ed2e2))
    ensures After(b, 16, Regs(0x0ae07c86_b1181c75, 0xfa967eed_85a08028, 0x44249631_255d2ca0, 0x5e412143_88186c14,
                     0xa77b7c03_5dd4c161, 0x874bfe5f_6aae9f2f, 0x860acf9e_ffba6f61, 0xcdf3bff2_883fc9d9))
  {
    hide ScheduleWord, Rounds, Schedule, After, RoundConstant;
    ConstantsFrom0();
    var r := Regs(0x8093d195_e0054fa3, 0xc4875b0c_7abc076b, 0xaf573b02_403e89cd, 0xb6809539_51604860,
                  0x86f67263_a0f0ec0a, 0x5a6c781f_54dcc00c, 0x96f60209_b6dc35ba, 0x745aca4a_342ed2e2);
    r := Step(b, 8, r, 0xd807aa98_a3030242, 0x00000000_00000000, 0xf1eca554_4cb89225, 0xd0403c39_8fc40002);
    r := Step(b, 9, r, 0x12835b01_45706fbe, 0x00000000_00000000, 0x81782d4a_5db48f03, 0x00091f46_0be46c52);
    r := Step(b, 10, r, 0x243185be_4ee4b28c, 0x00000000_00000000, 0x69854c4a_a0f25b59, 0xd375471b_de1ba3f4);
    r := Step(b, 11, r, 0x550c7dc3_d5ffb4e2, 0x00000000_00000000, 0xdb0a9963_f80c2eaa, 0x475975b9_1a7a462c);
    r := Step(b, 12, r, 0x72be5d74_f27b896f, 0x00000000_00000000, 0x5e412143_88186c14, 0xcdf3bff2_883fc9d9);
    r := Step(b, 13, r, 0x80deb1fe_3b1696b1, 0x00000000_00000000, 0x44249631_255d2ca0, 0x860acf9e_ffba6f61);
    r := Step(b, 14, r, 0x9bdc06a7_25c71235, 0x00000000_00000000, 0xfa967eed_85a08028, 0x874bfe5f_6aae9f2f);
    r := Step(b, 15, r, 0xc19bf174_cf692694, 0x00000000_00000018, 0x0ae07c86_b1181c75, 0xa77b7c03_5dd4c161);
  }

  lemma RoundsFrom16(b: seq<bv8>)
    requires |b| == 128 && Words(b, 16, WORDS_16)
    requires After(b, 16, Regs(0x0ae07c86_b1181c75, 0xfa967eed_85a08028, 0x44249631_255d2ca0, 0x5e412143_88186c14,
                      0xa77b7c03_5dd4c161, 0x874bfe5f_6aae9f2f, 0x860acf9e_ffba6f61, 0xcdf3bff2_883fc9d9))
    ensures After(b, 24, Regs(0x4f6877b5_8fe55484, 0x3e264456_7b709a78, 0xda34d667_3d452dcf, 0x8dc5ae65_569d3855,
                     0xc66005f8_7db55233, 0x0ac2b11d_a8f571c6, 0x8e30ff09_ad488753, 0x4bb9e66d_1145bfdc))
  {
    hide ScheduleWord, Rounds, Schedule, After, RoundConstant;
    ConstantsFrom16();
    var r := Regs(0x0ae07c86_b1181c75, 0xfa967eed_85a08028, 0x44249631_255d2ca0, 0x5e412143_88186c14,
                  0xa77b7c03_5dd4c161, 0x874bfe5f_6aae9f2f, 0x860acf9e_ffba6f61, 0xcdf3bff2_883fc9d9);
    r := Step(b, 16, r, 0xe49b69c1_9ef14ad2, 0x61626380_00000000, 0xcaf81a42_5d800537, 0x2deecc6b_39d64d78);
    r := Step(b, 17, r, 0xefbe4786_384f25e3, 0x00030000_000000c0, 0x4725be24_9ad19e6b, 0xf47e8353_f8047455);
    r := Step(b, 18, r, 0x0fc19dc6_8b8cd5b5, 0x0a9699a2_4c700003, 0x3c4b4104_168e3edb, 0x29695fd8_8d81dbd0);
    r := Step(b, 19, r, 0x240ca1cc_77ac9c65, 0x00000c00_60000603, 0x9a3fb4d3_8ab6cf06, 0xf14998dd_5f70767e);
    r := Step(b, 20, r, 0x2de92c6f_592b0275, 0x549ef626_39858996, 0x8dc5ae65_569d3855, 0x4bb9e66d_1145bfdc);
    r := Step(b, 21, r, 0x4a7484aa_6ea6e483, 0x00c00033_00003c00, 0xda34d667_3d452dcf, 0x8e30ff09_ad488753);
    r := Step(b, 22, r, 0x5cb0a9dc_bd41fbd4, 0x1497007a_8a0e9dbc, 0x3e264456_7b709a78, 0x0ac2b11d_a8f571c6);
    r := Step(b, 23, r, 0x76f988da_831153b5, 0x62e56500_cc0780f0, 0x4f6877b5_8fe55484, 0xc66005f8_7db55233);
  }

  lemma RoundsFrom24(b: seq<bv8>)
    requires |b| == 128 && Words(b, 16, WORDS_16)
    requires After(b, 24, Regs(0x4f6877b5_8fe55484, 0x3e264456_7b709a78, 0xda34d667_3d452dcf, 0x8dc5ae65_569d3855,
                      0xc66005f8_7db55233, 0x0ac2b11d_a8f571c6, 0x8e30ff09_ad488753, 0x4bb9e66d_1145bfdc))
    ensures After(b, 32, Regs(0xff4d3f1f_0d46a736, 0x4c4fbbb7_5f1873a6, 0x74bf40f8_69094c63, 0xe6234909_0f47d30a,
                     0x3cd388e1_19e8162e, 0x73e025d9_1b9efea3, 0xf0aec2fe_1437f085, 0x0fcdf997_10f21584))
  {
    hide ScheduleWord, Rounds, Schedule, After, RoundConstant;
    ConstantsFrom16();
    var r := Regs(0x4f6877b5_8fe55484, 0x3e264456_7b709a78, 0xda34d667_3d452dcf, 0x8dc5ae65_569d3855,
                  0xc66005f8_7db55233, 0x0ac2b11d_a8f571c6, 0x8e30ff09_ad488753, 0x4bb9e66d_1145bfdc);
    r := Step(b, 24, r, 0x983e5152_ee66dfab, 0x7760dd47_5a538797, 0x9aff7116_3fa3a940, 0xd3ecf137_69180e6f);
    r := Step(b, 25, r, 0xa831c66d_2db43210, 0xf1554b71_1c1c0003, 0x0bc5f791_f8e6816b, 0x6ddf1fd7_edcce336);
    r := Step(b, 26, r, 0xb00327c8_98fb213f, 0xca2993a4_345d9ff2, 0x884c3bc2_7bc4f941, 0xe6e48c9a_8e948365);
    r := Step(b, 27, r, 0xbf597fc7_beef0ee4, 0x5e0e66b5_c783dd32, 0xeab4a9e5_771b8d09, 0x09068a4e_255a0dac);
    r := Step(b, 28, r, 0xc6e00bf3_3da88fc2, 0xe25a625d_00494b62, 0xe6234909_0f47d30a, 0x0fcdf997_10f21584);
    r := Step(b, 29, r, 0xd5a79147_930aa725, 0x9f44486f_b1e4fbd2, 0x74bf40f8_69094c63, 0xf0aec2fe_1437f085);
    r := Step(b, 30, r, 0x06ca6351_e003826f, 0xb31b8c2b_06085f2f, 0x4c4fbbb7_5f1873a6, 0x73e025d9_1b9efea3);
    r := Step(b, 31, r, 0x14292967_0a0e6e70, 0x0e987660_934142f6, 0xff4d3f1f_0d46a736, 0x3cd388e1_19e8162e);
  }

  lemma RoundsFrom32(b: seq<bv8>)
    requires |b| == 128 && Words(b, 32, WORDS_32)
    requires After(b, 32, Regs(0xff4d3f1f_0d46a736, 0x4c4fbbb7_5f1873a6, 0x74bf40f8_69094c63, 0xe6234909_0f47d30a,
                      0x3cd388e1_19e8162e, 0x73e025d9_1b9efea3, 0xf0aec2fe_1437f085, 0x0fcdf997_10f21584))
    ensures After(b, 40, Regs(0x8e01e125_b855d225, 0xb3bb8542_b3376de5, 0x002bb8e4_cd989567, 0x88df85b0_bbe77514,
                     0x0c710a47_ba6a567b, 0xb49596c2_0feba7de, 0x66adcfa2_49ac7bbd, 0x8fbfd016_2bbf4675))
  {
    hide ScheduleWord, Rounds, Schedule, After, RoundConstant;
    ConstantsFrom32();
    var r := Regs(0xff4d3f1f_0d46a736, 0x4c4fbbb7_5f1873a6, 0x74bf40f8_69094c63, 0xe6234909_0f47d30a,
                  0x3cd388e1_19e8162e, 0x73e025d9_1b9efea3, 0xf0aec2fe_1437f085, 0x0fcdf997_10f21584);
    r := Step(b, 32, r, 0x27b70a85_46d22ffc, 0xa4af2cfd_09fbb924, 0xa0509015_ca08c8d4, 0xe1034573_654a106f);
    r := Step(b, 33, r, 0x2e1b2138_5c26c926, 0xad289e2e_0bd53186, 0x60d4e699_5ed91fe6, 0xefabbd8b_f47c041a);
    r := Step(b, 34, r, 0x4d2c6dfc_5ac42aed, 0x3c74563a_a2f9673e, 0x2c59ec77_43632621, 0x0fbae670_fa780fd3);
    r := Step(b, 35, r, 0x53380d13_9d95b3df, 0x6ccdcd14_cc14b53f, 0x1a081afc_59fdbc2c, 0xf098082f_502b44cd);
    r := Step(b, 36, r, 0x650a7354_8baf63de, 0xc3f925b3_37f22bde, 0x88df85b0_bbe77514, 0x8fbfd016_2bbf4675);
    r := Step(b, 37, r, 0x766a0abb_3c77b2a8, 0x5bcc77a7_5ad95b54, 0x002bb8e4_cd989567, 0x66adcfa2_49ac7bbd);
    r := Step(b, 38, r, 0x81c2c92e_47edaee6, 0x3ec2257a_dca09a52, 0xb3bb8542_b3376de5, 0xb49596c2_0feba7de);
    r := Step(b, 39, r, 0x92722c85_1482353b, 0x28246960_001fc5eb, 0x8e01e125_b855d225, 0x0c710a47_ba6a567b);
  }

  lemma RoundsFrom40(b: seq<bv8>)
    requires |b| == 128 && Words(b, 32, WORDS_32)
    requires After(b, 40, Regs(0x8e01e125_b855d225, 0xb3bb8542_b3376de5, 0x002bb8e4_cd989567, 0x88df85b0_bbe77514,
                      0x0c710a47_ba6a567b, 0xb49596c2_0feba7de, 0x66adcfa2_49ac7bbd, 0x8fbfd016_2bbf4675))
    ensures After(b, 48, Regs(0x6b69fc1b_b482feac, 0xf61e6726_94de2d67, 0x021fbadb_abab5ac6, 0xc47c9d5c_7ea8a234,
                     0x35264334_c03ac8ad, 0xc6bc3574_0d8daa9a, 0xe95c2a57_572d64d9, 0x858d832a_e0e8911c))
  {
    hide ScheduleWord, Rounds, Schedule, After, RoundConstant;
    ConstantsFrom32();
    var r := Regs(0x8e01e125_b855d225, 0xb3bb8542_b3376de5, 0x002bb8e4_cd989567, 0x88df85b0_bbe77514,
                  0x0c710a47_ba6a567b, 0xb49596c2_0feba7de, 0x66adcfa2_49ac7bbd, 0x8fbfd016_2bbf4675);
    r := Step(b, 40, r, 0xa2bfe8a1_4cf10364, 0x04e33a75_ce2be88a, 0xb01521dd_6a6be12c, 0x169008b3_a4bb170b);
    r := Step(b, 41, r, 0xa81a664b_bc423001, 0x7d5314b3_c359e0e7, 0xe96f89dd_48cbd851, 0xf0996439_e7b50cb1);
    r := Step(b, 42, r, 0xc24b8b70_d0f89791, 0xaef7a285_ff251266, 0xbc05ba8d_e5d3c480, 0x639cb938_e14dc190);
    r := Step(b, 43, r, 0xc76c51a3_0654be30, 0x0b847258_1deea04f, 0x35d7e7f4_1defcbd5, 0xcc510099_7f5710f2);
    r := Step(b, 44, r, 0xd192e819_d6ef5218, 0xb174e26e_ddc7b033, 0xc47c9d5c_7ea8a234, 0x858d832a_e0e8911c);
    r := Step(b, 45, r, 0xd6990624_5565a910, 0x5d63bae5_8ddd88de, 0x021fbadb_abab5ac6, 0xe95c2a57_572d64d9);
    r := Step(b, 46, r, 0xf40e3585_5771202a, 0x4c044007_b744ccbb, 0xf61e6726_94de2d67, 0xc6bc3574_0d8daa9a);
    r := Step(b, 47, r, 0x106aa070_32bbd1b8, 0xe6a9aa4d_74dc7d43, 0x6b69fc1b_b482feac, 0x35264334_c03ac8ad);
  }

  lemma RoundsFrom48(b: seq<bv8>)
    requires |b| == 128 && Words(b, 48, WORDS_48)
    requires After(b, 48, Regs(0x6b69fc1b_b482feac, 0xf61e6726_94de2d67, 0x021fbadb_abab5ac6, 0xc47c9d5c_7ea8a234,
                      0x35264334_c03ac8ad, 0xc6bc3574_0d8daa9a, 0xe95c2a57_572d64d9, 0x858d832a_e0e8911c))
    ensures After(b, 56, Regs(0x63b460e4_2748817e, 0xf650857b_5babda4d, 0xd63f6803_7ddf06aa, 0x03df11b3_2d42e203,
                     0xc6b4dd2a_9931c509, 0x9ccfb31a_86df0f86, 0xa6781efe_1aa1ce02, 0x504f94e4_0591cffa))
  {
    hide ScheduleWord, Rounds, Schedule, After, RoundConstant;
    ConstantsFrom48();
    var r := Regs(0x6b69fc1b_b482feac, 0xf61e6726_94de2d67, 0x021fbadb_abab5ac6, 0xc47c9d5c_7ea8a234,
                  0x35264334_c03ac8ad, 0xc6bc3574_0d8daa9a, 0xe95c2a57_572d64d9, 0x858d832a_e0e8911c);
    r := Step(b, 48, r, 0x19a4c116_b8d2d0c8, 0xebeaf123_7248019c, 0x571f323d_96b3a047, 0x271580ed_6c3e5650);
    r := Step(b, 49, r, 0x1e376c08_5141ab53, 0x361e80b2_d00f3193, 0xca9bd862_c5050918, 0xdfe091da_b182e645);
    r := Step(b, 50, r, 0x2748774c_df8eeb99, 0x2e983912_5df3b175, 0x813a43dd_2c502043, 0x07a0d8ef_821c5e1a);
    r := Step(b, 51, r, 0x34b0bcb5_e19b48a8, 0x33196292_93ad5363, 0xd43f8372_7325dd77, 0x483f80a8_2eaee23e);
    r := Step(b, 52, r, 0x391c0cb3_c5c95a63, 0x9cbc5d89_ac1b89d5, 0x03df11b3_2d42e203, 0x504f94e4_0591cffa);
    r := Step(b, 53, r, 0x4ed8aa4a_e3418acb, 0x275e23ff_eeca50b7, 0xd63f6803_7ddf06aa, 0xa6781efe_1aa1ce02);
    r := Step(b, 54, r, 0x5b9cca4f_7763e373, 0x3b80d680_bf69ef58, 0xf650857b_5babda4d, 0x9ccfb31a_86df0f86);
    r := Step(b, 55, r, 0x682e6ff3_d6b2b8a3, 0x0d069693_3945a125, 0x63b460e4_2748817e, 0xc6b4dd2a_9931c509);
  }

  lemma RoundsFrom56(b: seq<bv8>)
    requires |b| == 128 && Words(b, 48, WORDS_48)
    requires After(b, 56, Regs(0x63b460e4_2748817e, 0xf650857b_5babda4d, 0xd63f6803_7ddf06aa, 0x03df11b3_2d42e203,
                      0xc6b4dd2a_9931c509, 0x9ccfb31a_86df0f86, 0xa6781efe_1aa1ce02, 0x504f94e4_0591cffa))
    ensures After(b, 64, Regs(0xab44e862_76478d85, 0xa81dedbb_9f19e643, 0xcfcd928c_5424e2b6, 0x3857dfd2_fc37d3ba,
                     0xcd881ee5_9ca6bc53, 0x84058865_d60a05fa, 0x09aee5bd_a1644de5, 0xa6af4e9c_9f807e51))
  {
    hide ScheduleWord, Rounds, Schedule, After, RoundConstant;
    ConstantsFrom48();
    var r := Regs(0x63b460e4_2748817e, 0xf650857b_5babda4d, 0xd63f6803_7ddf06aa, 0x03df11b3_2d42e203,
                  0xc6b4dd2a_9931c509, 0x9ccfb31a_86df0f86, 0xa6781efe_1aa1ce02, 0x504f94e4_0591cffa);
    r := Step(b, 56, r, 0x748f82ee_5defb2fc, 0x7533eabc_b786ff00, 0x7a529129_43d52b05, 0xd2e89bbd_91e00be0);
    r := Step(b, 57, r, 0x78a5636f_43172f60, 0xb89826ce_e6fbf0e5, 0x4b81c3ae_c976ea4b, 0x70505988_124351ac);
    r := Step(b, 58, r, 0x84c87814_a1f0ab72, 0x249b4fbc_ad623e9f, 0x581ecb33_55dcd9b8, 0x6a3c9b0f_71c8bf36);
    r := Step(b, 59, r, 0x8cc70208_1a6439ec, 0x4aea9df2_b02d6f1e, 0x2c074484_ef1eac8c, 0x4797cde4_ed370692);
    r := Step(b, 60, r, 0x90befffa_23631e28, 0x2cc57475_a55e8d8f, 0x3857dfd2_fc37d3ba, 0xa6af4e9c_9f807e51);
    r := Step(b, 61, r, 0xa4506ceb_de82bde9, 0xb2574ae9_38d8be89, 0xcfcd928c_5424e2b6, 0x09aee5bd_a1644de5);
    r := Step(b, 62, r, 0xbef9a3f7_b2c67915, 0xc1b35a57_b16d6aea, 0xa81dedbb_9f19e643, 0x84058865_d60a05fa);
    r := Step(b, 63, r, 0xc67178f2_e372532b, 0xcc4918b5_949206bb, 0xab44e862_76478d85, 0xcd881ee5_9ca6bc53);
  }

  lemma RoundsFrom64(b: seq<bv8>)
    requires |b| == 128 && Words(b, 64, WORDS_64)
    requires After(b, 64, Regs(0xab44e862_76478d85, 0xa81dedbb_9f19e643, 0xcfcd928c_5424e2b6, 0x3857dfd2_fc37d3ba,
                      0xcd881ee5_9ca6bc53, 0x84058865_d60a05fa, 0x09aee5bd_a1644de5, 0xa6af4e9c_9f807e51))
    ensures After(b, 72, Regs(0xf15e9664_b2803575, 0x7652c579_cb60f19c, 0xfb6aaae5_d0b6a447, 0x181839d6_09c79748,
                     0x947c3dfa_fee570ef, 0xaff62c96_65ff80fa, 0xe3711cb6_564d112d, 0x0ada78ba_2d446140))
  {
    hide ScheduleWord, Rounds, Schedule, After, RoundConstant;
    ConstantsFrom64();
    var r := Regs(0xab44e862_76478d85, 0xa81dedbb_9f19e643, 0xcfcd928c_5424e2b6, 0x3857dfd2_fc37d3ba,
                  0xcd881ee5_9ca6bc53, 0x84058865_d60a05fa, 0x09aee5bd_a1644de5, 0xa6af4e9c_9f807e51);
    r := Step(b, 64, r, 0xca273ece_ea26619c, 0x5099c3ad_d79f90ec, 0x5a806d7e_9821a501, 0xaa84b086_688a5c45);
    r := Step(b, 65, r, 0xd186b8c7_21c0c207, 0x5ea81d78_e7660bf1, 0xeeb9c21b_b0102598, 0x3b5fed0d_6a1f96e1);
    r := Step(b, 66, r, 0xeada7dd6_cde0eb1e, 0xebee6267_405ac2a9, 0x46c4210a_b2cc155d, 0x29fab5a7_bff53366);
    r := Step(b, 67, r, 0xf57d4f7f_ee6ed178, 0xb01f2192_6108a4ab, 0x54ba35cf_56a0340e, 0x1c66f46d_95690bcf);
    r := Step(b, 68, r, 0x06f067aa_72176fba, 0x786433dd_2fe65556, 0x181839d6_09c79748, 0x0ada78ba_2d446140);
    r := Step(b, 69, r, 0x0a637dc5_a2c898a6, 0xc54a6eaa_24a0552c, 0xfb6aaae5_d0b6a447, 0xe3711cb6_564d112d);
    r := Step(b, 70, r, 0x113f9804_bef90dae, 0xb3c8f153_0bdbaa9e, 0x7652c579_cb60f19c, 0xaff62c96_65ff80fa);
    r := Step(b, 71, r, 0x1b710b35_131c471b, 0xbb8abfe5_6f469338, 0xf15e9664_b2803575, 0x947c3dfa_fee570ef);
  }

  lemma RoundsFrom72(b: seq<bv8>)
    requires |b| == 128 && Words(b, 64, WORDS_64)
    requires After(b, 72, Regs(0xf15e9664_b2803575, 0x7652c579_cb60f19c, 0xfb6aaae5_d0b6a447, 0x181839d6_09c79748,
                      0x947c3dfa_fee570ef, 0xaff62c96_65ff80fa, 0xe3711cb6_564d112d, 0x0ada78ba_2d446140))
    ensures After(b, 80, Regs(0x73a54f39_9fa4b1b2, 0x10d9c4c4_295599f6, 0xd67806db_8b148677, 0x654ef9ab_ec389ca9,
                     0xd08446aa_79693ed7, 0x9bb4d397_78c07f9e, 0x25c96a77_68fb2aa3, 0xceb9fc36_91ce8326))
  {
    hide ScheduleWord, Rounds, Schedule, After, RoundConstant;
    ConstantsFrom64();
    var r := Regs(0xf15e9664_b2803575, 0x7652c579_cb60f19c, 0xfb6aaae5_d0b6a447, 0x181839d6_09c79748,
                  0x947c3dfa_fee570ef, 0xaff62c96_65ff80fa, 0xe3711cb6_564d112d, 0x0ada78ba_2d446140);
    r := Step(b, 72, r, 0x28db77f5_23047d84, 0xf63d4265_cc1c5a78, 0x358406d1_65aee9ab, 0x8c7b5fd9_1a794ca0);
    r := Step(b, 73, r, 0x32caab7b_40c72493, 0xbe8355ea_73129afb, 0x20878dcd_29cdfaf5, 0x054d3536_539948d0);
    r := Step(b, 74, r, 0x3c9ebe0a_15c9bebc, 0x49e2db8e_bdcfbeb5, 0x33d48dab_b5521de2, 0x2ba18245_b50de4cf);
    r := Step(b, 75, r, 0x431d67c4_9c100d4c, 0x82269d4a_883a3d99, 0xc8960e6b_e864b916, 0x995019a6_ff3ba3de);
    r := Step(b, 76, r, 0x4cc5d4be_cb3e42b6, 0xfdf53df3_011f362b, 0x654ef9ab_ec389ca9, 0xceb9fc36_91ce8326);
    r := Step(b, 77, r, 0x597f299c_fc657e2a, 0x464af567_1d71c12e, 0xd67806db_8b148677, 0x25c96a77_68fb2aa3);
    r := Step(b, 78, r, 0x5fcb6fab_3ad6faec, 0xe449b681_98ec611c, 0x10d9c4c4_295599f6, 0x9bb4d397_78c07f9e);
    r := Step(b, 79, r, 0x6c44198c_4a475817, 0x92aeeed1_a7bcf7d2, 0x73a54f39_9fa4b1b2, 0xd08446aa_79693ed7);
  }

  // ---- the digest ----

  function AbcValue(): Regs {
    Regs(0xddaf35a1_93617aba, 0xcc417349_ae204131, 0x12e6fa4e_89a97ea2, 0x0a9eeee6_4b55d39a,
         0x2192992a_274fc1a8, 0x36ba3c23_a3feebbd, 0x454d4423_643ce80e, 0x2a9ac94f_a54ca49f)
  }

  lemma AbcFolded()
    ensures Compress(INITIAL_VALUE, Block()) == AbcValue()
  {
    hide ScheduleWord, Rounds, Schedule, Block;
    var b := Block();
    FirstWords();
    assert Words(b, 0, WORDS_0);
    WordsFrom16(b);
    WordsFrom32(b);
    WordsFrom48(b);
    WordsFrom64(b);
    RoundsFrom0(b);
    RoundsFrom8(b);
    RoundsFrom16(b);
    RoundsFrom24(b);
    RoundsFrom32(b);
    RoundsFrom40(b);
    RoundsFrom48(b);
    RoundsFrom56(b);
    RoundsFrom64(b);
    RoundsFrom72(b);
  }

  /** The published digest of "abc". */
  function AbcDigest(): seq<bv8> {
    [0xdd, 0xaf, 0x35, 0xa1, 0x93, 0x61, 0x7a, 0xba]
    + [0xcc, 0x41, 0x73, 0x49, 0xae, 0x20, 0x41, 0x31]
    + [0x12, 0xe6, 0xfa, 0x4e, 0x89, 0xa9, 0x7e, 0xa2]
    + [0x0a, 0x9e, 0xee, 0xe6, 0x4b, 0x55, 0xd3, 0x9a]
    + [0x21, 0x92, 0x99, 0x2a, 0x27, 0x4f, 0xc1, 0xa8]
    + [0x36, 0xba, 0x3c, 0x23, 0xa3, 0xfe, 0xeb, 0xbd]
    + [0x45, 0x4d, 0x44, 0x23, 0x64, 0x3c, 0xe8, 0x0e]
    + [0x2a, 0x9a, 0xc9, 0x4f, 0xa5, 0x4c, 0xa4, 0x9f]
  }

  lemma FoldNothing()
    ensures Fold([]) == INITIAL_VALUE
  {
  }

  lemma AbcBytes()
    ensures Store64(0xddaf35a1_93617aba) == [0xdd, 0xaf, 0x35, 0xa1, 0x93, 0x61, 0x7a, 0xba]
    ensures Store64(0xcc417349_ae204131) == [0xcc, 0x41, 0x73, 0x49, 0xae, 0x20, 0x41, 0x31]
    ensures Store64(0x12e6fa4e_89a97ea2) == [0x12, 0xe6, 0xfa, 0x4e, 0x89, 0xa9, 0x7e, 0xa2]
    ensures Store64(0x0a9eeee6_4b55d39a) == [0x0a, 0x9e, 0xee, 0xe6, 0x4b, 0x55, 0xd3, 0x9a]
    ensures Store64(0x2192992a_274fc1a8) == [0x21, 0x92, 0x99, 0x2a, 0x27, 0x4f, 0xc1, 0xa8]
    ensures Store64(0x36ba3c23_a3feebbd) == [0x36, 0xba, 0x3c, 0x23, 0xa3, 0xfe, 0xeb, 0xbd]
    ensures Store64(0x454d4423_643ce80e) == [0x45, 0x4d, 0x44, 0x23, 0x64, 0x3c, 0xe8, 0x0e]
    ensures Store64(0x2a9ac94f_a54ca49f) == [0x2a, 0x9a, 0xc9, 0x4f, 0xa5, 0x4c, 0xa4, 0x9f]
  {
  }

  lemma DigestOfAbc(m: seq<bv8>)
    requires |m| == 3 && m[0] == 0x61 && m[1] == 0x62 && m[2] == 0x63
    ensures Digest(m) == AbcDigest()
  {
    hide Compress, Fold, Pad, Block, Store64;
    assert m == ABC;
    PaddedAbc();
    AbcFolded();
    FoldBlock([], Block());
    FoldNothing();
    assert [] + Block() == Block();
    AbcBytes();
  }

  /** The code on that message, however it is cut into pieces. */
  method HashAbc(pieces: seq<seq<bv8>>) returns (out: seq<bv8>)
    requires Joined(pieces, |pieces|) == ABC
    ensures out == AbcDigest()
  {
    hide Digest, Joined;
    DigestOfAbc(Joined(pieces, |pieces|));
    out := HashPieces(pieces);
  }
}
