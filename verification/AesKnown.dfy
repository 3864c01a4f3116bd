/**
 * What pins the elementary functions of AES down. The products by constants are products of polynomials modulo
 * x^8 + x^4 + x^3 + x + 1; the S-box of the standard is the affine image of the inverse; and with it the example of
 * appendix C.1 of FIPS 197 comes out.
 */
module AesKnown {
  import opened AesField
  import opened AesSpec
  import opened Aes

  // ---- products, section 4.2 of FIPS 197 ----

  /** Twice a byte in sixteen bits, with the modulus taken off when it has nine. */
  lemma XTimeIsDouble(b: bv8)
    ensures XTime(b) as bv16 == if b as bv16 << 1 >= 0x100 then (b as bv16 << 1) ^ 0x11b else b as bv16 << 1
  {
  }

  function Term(a: bv8, b: bv8, i: bv8): bv16
    requires i < 8
  {
    if (a >> i) & 1 == 1 then b as bv16 << i else 0
  }

  /** The product of two polynomials over GF(2). */
  function Carryless(a: bv8, b: bv8): bv16 {
    Term(a, b, 0) ^ Term(a, b, 1) ^ Term(a, b, 2) ^ Term(a, b, 3)
    ^ Term(a, b, 4) ^ Term(a, b, 5) ^ Term(a, b, 6) ^ Term(a, b, 7)
  }

  function ReducedAt(p: bv16, i: bv16): bv16
    requires 8 <= i < 16
  {
    if (p >> i) & 1 == 1 then p ^ (0x11b << (i - 8)) else p
  }

  /** The remainder of a polynomial of degree 14 at most modulo x^8 + x^4 + x^3 + x + 1. */
  function Reduced(p: bv16): bv16 {
    var q := ReducedAt(ReducedAt(ReducedAt(p, 14), 13), 12);
    ReducedAt(ReducedAt(ReducedAt(ReducedAt(q, 11), 10), 9), 8)
  }

  function Product(a: bv8, b: bv8): bv16 { Reduced(Carryless(a, b)) }

  /** The factors of the two matrices, for every byte. */
  lemma Factor2(b: bv8)
    ensures XTime(b) as bv16 == Product(0x02, b)
  {
  }

  lemma Factor3(b: bv8)
    ensures Mul3(b) as bv16 == Product(0x03, b)
  {
  }

  lemma Factor9(b: bv8)
    ensures Mul9(b) as bv16 == Product(0x09, b)
  {
  }

  lemma FactorB(b: bv8)
    ensures MulB(b) as bv16 == Product(0x0b, b)
  {
  }

  lemma FactorD(b: bv8)
    ensures MulD(b) as bv16 == Product(0x0d, b)
  {
  }

  lemma FactorE(b: bv8)
    ensures MulE(b) as bv16 == Product(0x0e, b)
  {
  }

  /** One column in numbers. */
  lemma MixedColumn()
    ensures MixColumn(Word(0xdb, 0x13, 0x53, 0x45)) == Word(0x8e, 0x4d, 0xa1, 0xbc)
  {
  }

  // ---- the S-box, section 5.1.1 ----

  /** One of sixteen. */
  function Row(x: bv8, a: bv8, b: bv8, c: bv8, d: bv8, e: bv8, f: bv8, g: bv8, h: bv8,
               i: bv8, j: bv8, k: bv8, l: bv8, m: bv8, n: bv8, o: bv8, p: bv8): bv8
  {
    if x < 8 then
      if x < 4 then if x < 2 then if x == 0 then a else b else if x == 2 then c else d
      else if x < 6 then if x == 4 then e else f else if x == 6 then g else h
    else
      if x < 12 then if x < 10 then if x == 8 then i else j else if x == 10 then k else l
      else if x < 14 then if x == 12 then m else n else if x == 14 then o else p
  }

  function Sub(x: bv8): bv8 {
    if x < 0x80 then
      if x < 0x40 then
        if x < 0x20 then
          if x < 0x10 then Row(x & 15, 0x63, 0x7c, 0x77, 0x7b, 0xf2, 0x6b, 0x6f, 0xc5, 0x30, 0x01, 0x67, 0x2b, 0xfe, 0xd7, 0xab, 0x76)
           else Row(x & 15, 0xca, 0x82, 0xc9, 0x7d, 0xfa, 0x59, 0x47, 0xf0, 0xad, 0xd4, 0xa2, 0xaf, 0x9c, 0xa4, 0x72, 0xc0)
        else
          if x < 0x30 then Row(x & 15, 0xb7, 0xfd, 0x93, 0x26, 0x36, 0x3f, 0xf7, 0xcc, 0x34, 0xa5, 0xe5, 0xf1, 0x71, 0xd8, 0x31, 0x15)
           else Row(x & 15, 0x04, 0xc7, 0x23, 0xc3, 0x18, 0x96, 0x05, 0x9a, 0x07, 0x12, 0x80, 0xe2, 0xeb, 0x27, 0xb2, 0x75)
      else
        if x < 0x60 then
          if x < 0x50 then Row(x & 15, 0x09, 0x83, 0x2c, 0x1a, 0x1b, 0x6e, 0x5a, 0xa0, 0x52, 0x3b, 0xd6, 0xb3, 0x29, 0xe3, 0x2f, 0x84)
           else Row(x & 15, 0x53, 0xd1, 0x00, 0xed, 0x20, 0xfc, 0xb1, 0x5b, 0x6a, 0xcb, 0xbe, 0x39, 0x4a, 0x4c, 0x58, 0xcf)
        else
          if x < 0x70 then Row(x & 15, 0xd0, 0xef, 0xaa, 0xfb, 0x43, 0x4d, 0x33, 0x85, 0x45, 0xf9, 0x02, 0x7f, 0x50, 0x3c, 0x9f, 0xa8)
           else Row(x & 15, 0x51, 0xa3, 0x40, 0x8f, 0x92, 0x9d, 0x38, 0xf5, 0xbc, 0xb6, 0xda, 0x21, 0x10, 0xff, 0xf3, 0xd2)
    else
      if x < 0xc0 then
        if x < 0xa0 then
          if x < 0x90 then Row(x & 15, 0xcd, 0x0c, 0x13, 0xec, 0x5f, 0x97, 0x44, 0x17, 0xc4, 0xa7, 0x7e, 0x3d, 0x64, 0x5d, 0x19, 0x73)
           else Row(x & 15, 0x60, 0x81, 0x4f, 0xdc, 0x22, 0x2a, 0x90, 0x88, 0x46, 0xee, 0xb8, 0x14, 0xde, 0x5e, 0x0b, 0xdb)
        else
          if x < 0xb0 then Row(x & 15, 0xe0, 0x32, 0x3a, 0x0a, 0x49, 0x06, 0x24, 0x5c, 0xc2, 0xd3, 0xac, 0x62, 0x91, 0x95, 0xe4, 0x79)
           else Row(x & 15, 0xe7, 0xc8, 0x37, 0x6d, 0x8d, 0xd5, 0x4e, 0xa9, 0x6c, 0x56, 0xf4, 0xea, 0x65, 0x7a, 0xae, 0x08)
      else
        if x < 0xe0 then
          if x < 0xd0 then Row(x & 15, 0xba, 0x78, 0x25, 0x2e, 0x1c, 0xa6, 0xb4, 0xc6, 0xe8, 0xdd, 0x74, 0x1f, 0x4b, 0xbd, 0x8b, 0x8a)
           else Row(x & 15, 0x70, 0x3e, 0xb5, 0x66, 0x48, 0x03, 0xf6, 0x0e, 0x61, 0x35, 0x57, 0xb9, 0x86, 0xc1, 0x1d, 0x9e)
        else
          if x < 0xf0 then Row(x & 15, 0xe1, 0xf8, 0x98, 0x11, 0x69, 0xd9, 0x8e, 0x94, 0x9b, 0x1e, 0x87, 0xe9, 0xce, 0x55, 0x28, 0xdf)
           else Row(x & 15, 0x8c, 0xa1, 0x89, 0x0d, 0xbf, 0xe6, 0x42, 0x68, 0x41, 0x99, 0x2d, 0x0f, 0xb0, 0x54, 0xbb, 0x16)
  }

  function InvSub(x: bv8): bv8 {
    if x < 0x80 then
      if x < 0x40 then
        if x < 0x20 then
          if x < 0x10 then Row(x & 15, 0x52, 0x09, 0x6a, 0xd5, 0x30, 0x36, 0xa5, 0x38, 0xbf, 0x40, 0xa3, 0x9e, 0x81, 0xf3, 0xd7, 0xfb)
           else Row(x & 15, 0x7c, 0xe3, 0x39, 0x82, 0x9b, 0x2f, 0xff, 0x87, 0x34, 0x8e, 0x43, 0x44, 0xc4, 0xde, 0xe9, 0xcb)
        else
          if x < 0x30 then Row(x & 15, 0x54, 0x7b, 0x94, 0x32, 0xa6, 0xc2, 0x23, 0x3d, 0xee, 0x4c, 0x95, 0x0b, 0x42, 0xfa, 0xc3, 0x4e)
           else Row(x & 15, 0x08, 0x2e, 0xa1, 0x66, 0x28, 0xd9, 0x24, 0xb2, 0x76, 0x5b, 0xa2, 0x49, 0x6d, 0x8b, 0xd1, 0x25)
      else
        if x < 0x60 then
          if x < 0x50 then Row(x & 15, 0x72, 0xf8, 0xf6, 0x64, 0x86, 0x68, 0x98, 0x16, 0xd4, 0xa4, 0x5c, 0xcc, 0x5d, 0x65, 0xb6, 0x92)
           else Row(x & 15, 0x6c, 0x70, 0x48, 0x50, 0xfd, 0xed, 0xb9, 0xda, 0x5e, 0x15, 0x46, 0x57, 0xa7, 0x8d, 0x9d, 0x84)
        else
          if x < 0x70 then Row(x & 15, 0x90, 0xd8, 0xab, 0x00, 0x8c, 0xbc, 0xd3, 0x0a, 0xf7, 0xe4, 0x58, 0x05, 0xb8, 0xb3, 0x45, 0x06)
           else Row(x & 15, 0xd0, 0x2c, 0x1e, 0x8f, 0xca, 0x3f, 0x0f, 0x02, 0xc1, 0xaf, 0xbd, 0x03, 0x01, 0x13, 0x8a, 0x6b)
    else
      if x < 0xc0 then
        if x < 0xa0 then
          if x < 0x90 then Row(x & 15, 0x3a, 0x91, 0x11, 0x41, 0x4f, 0x67, 0xdc, 0xea, 0x97, 0xf2, 0xcf, 0xce, 0xf0, 0xb4, 0xe6, 0x73)
           else Row(x & 15, 0x96, 0xac, 0x74, 0x22, 0xe7, 0xad, 0x35, 0x85, 0xe2, 0xf9, 0x37, 0xe8, 0x1c, 0x75, 0xdf, 0x6e)
        else
          if x < 0xb0 then Row(x & 15, 0x47, 0xf1, 0x1a, 0x71, 0x1d, 0x29, 0xc5, 0x89, 0x6f, 0xb7, 0x62, 0x0e, 0xaa, 0x18, 0xbe, 0x1b)
           else Row(x & 15, 0xfc, 0x56, 0x3e, 0x4b, 0xc6, 0xd2, 0x79, 0x20, 0x9a, 0xdb, 0xc0, 0xfe, 0x78, 0xcd, 0x5a, 0xf4)
      else
        if x < 0xe0 then
          if x < 0xd0 then Row(x & 15, 0x1f, 0xdd, 0xa8, 0x33, 0x88, 0x07, 0xc7, 0x31, 0xb1, 0x12, 0x10, 0x59, 0x27, 0x80, 0xec, 0x5f)
           else Row(x & 15, 0x60, 0x51, 0x7f, 0xa9, 0x19, 0xb5, 0x4a, 0x0d, 0x2d, 0xe5, 0x7a, 0x9f, 0x93, 0xc9, 0x9c, 0xef)
        else
          if x < 0xf0 then Row(x & 15, 0xa0, 0xe0, 0x3b, 0x4d, 0xae, 0x2a, 0xf5, 0xb0, 0xc8, 0xeb, 0xbb, 0x3c, 0x83, 0x53, 0x99, 0x61)
           else Row(x & 15, 0x17, 0x2b, 0x04, 0x7e, 0xba, 0x77, 0xd6, 0x26, 0xe1, 0x69, 0x14, 0x63, 0x55, 0x21, 0x0c, 0x7d)
  }

  function Rol(b: bv8, n: bv8): bv8
    requires 0 < n < 8
  {
    (b << n) | (b >> (8 - n))
  }

  /** The affine transformation of the standard, and the one that undoes it. */
  function Affine(b: bv8): bv8 { b ^ Rol(b, 1) ^ Rol(b, 2) ^ Rol(b, 3) ^ Rol(b, 4) ^ 0x63 }
  function InvAffine(b: bv8): bv8 { Rol(b, 1) ^ Rol(b, 3) ^ Rol(b, 6) ^ 0x05 }

  lemma AffineUndone(b: bv8)
    ensures Affine(InvAffine(b)) == b
  {
  }

  lemma InverseBelow(x: bv8)
    requires 0 < x < 0x55
    ensures Product(x, InvAffine(Sub(x))) == 1
  {
  }

  lemma InverseMiddle(x: bv8)
    requires 0x55 <= x < 0xaa
    ensures Product(x, InvAffine(Sub(x))) == 1
  {
  }

  lemma InverseAbove(x: bv8)
    requires 0xaa <= x
    ensures Product(x, InvAffine(Sub(x))) == 1
  {
  }

  /** The S-box takes a byte to the affine image of its inverse in the field, and zero to the image of zero. */
  lemma SubIsAffineInverse(x: bv8)
    ensures Sub(x) == Affine(InvAffine(Sub(x)))
    ensures if x == 0 then InvAffine(Sub(x)) == 0 else Product(x, InvAffine(Sub(x))) == 1
  {
    hide Product, Sub, Affine, InvAffine;
    AffineUndone(Sub(x));
    if x == 0 { ZeroSubstituted(); }
    else if x < 0x55 { InverseBelow(x); } else if x < 0xaa { InverseMiddle(x); } else { InverseAbove(x); }
  }

  lemma ZeroSubstituted()
    ensures InvAffine(Sub(0)) == 0
  {
  }

  lemma Undone0(x: bv8)
    requires x < 0x40
    ensures InvSub(Sub(x)) == x
  {
  }

  lemma Undone1(x: bv8)
    requires 0x40 <= x < 0x80
    ensures InvSub(Sub(x)) == x
  {
  }

  lemma Undone2(x: bv8)
    requires 0x80 <= x < 0xc0
    ensures InvSub(Sub(x)) == x
  {
  }

  lemma Undone3(x: bv8)
    requires 0xc0 <= x
    ensures InvSub(Sub(x)) == x
  {
  }

  function StandardBox(): Box { Box(x => Sub(x), x => InvSub(x)) }

  lemma StandardInverse()
    ensures Inverse(StandardBox())
  {
    hide Sub, InvSub;
    forall x: bv8 ensures StandardBox().si(StandardBox().s(x)) == x {
      if x < 0x40 { Undone0(x); } else if x < 0x80 { Undone1(x); } else if x < 0xc0 { Undone2(x); } else { Undone3(x); }
    }
  }

  // ---- the example ----

  const KEY: seq<bv8> := [0x00, 0x01, 0x02, 0x03, 0x04, 0x05, 0x06, 0x07,
                          0x08, 0x09, 0x0a, 0x0b, 0x0c, 0x0d, 0x0e, 0x0f]

  const PLAINTEXT: seq<bv8> := [0x00, 0x11, 0x22, 0x33, 0x44, 0x55, 0x66, 0x77,
                                0x88, 0x99, 0xaa, 0xbb, 0xcc, 0xdd, 0xee, 0xff]

  const CIPHERTEXT: seq<bv8> := [0x69, 0xc4, 0xe0, 0xd8, 0x6a, 0x7b, 0x04, 0x30,
                                 0xd8, 0xcd, 0xb7, 0x80, 0x70, 0xb4, 0xc5, 0x5a]

  /** A word of the expanded key from the one before and the one four places before. */
  lemma Plain(key: seq<bv8>, i: nat, back: Word, temp: Word, w: Word)
    requires |key| == 16 && 4 <= i && i % 4 != 0 && Xor(back, temp) == w
    requires KeyWord(StandardBox(), key, 4, i - 4) == back && KeyWord(StandardBox(), key, 4, i - 1) == temp
    ensures KeyWord(StandardBox(), key, 4, i) == w
  {
    hide Xor;
  }

  lemma Turned(key: seq<bv8>, i: nat, back: Word, temp: Word, w: Word)
    requires |key| == 16 && 4 <= i && i % 4 == 0
    requires Xor(back, Xor(SubWord(StandardBox(), RotWord(temp)), Word(RconByte(i / 4), 0, 0, 0))) == w
    requires KeyWord(StandardBox(), key, 4, i - 4) == back && KeyWord(StandardBox(), key, 4, i - 1) == temp
    ensures KeyWord(StandardBox(), key, 4, i) == w
  {
    hide Xor, SubWord, RotWord, RconByte;
  }

  /** Round key r of the key. */
  predicate KeyIs(key: seq<bv8>, r: nat, k: State)
    requires |key| == 16
  {
    && KeyWord(StandardBox(), key, 4, 4 * r) == k.c0 && KeyWord(StandardBox(), key, 4, 4 * r + 1) == k.c1
    && KeyWord(StandardBox(), key, 4, 4 * r + 2) == k.c2 && KeyWord(StandardBox(), key, 4, 4 * r + 3) == k.c3
  }

  /** The next round key, from its four words. */
  lemma NextKey(key: seq<bv8>, r: nat, k: State, n: State)
    requires |key| == 16 && r < 10 && KeyIs(key, r, k)
    requires Xor(k.c0, Xor(SubWord(StandardBox(), RotWord(k.c3)), Rcon(r))) == n.c0
    requires Xor(k.c1, n.c0) == n.c1 && Xor(k.c2, n.c1) == n.c2 && Xor(k.c3, n.c2) == n.c3
    ensures KeyIs(key, r + 1, n)
  {
    hide Xor, SubWord, RotWord, Rcon, RconByte, KeyWord;
    RconIsPower(r);
    var i := 4 * r + 4;
    Turned(key, i, k.c0, k.c3, n.c0);
    Plain(key, i + 1, k.c1, n.c0, n.c1);
    Plain(key, i + 2, k.c2, n.c1, n.c2);
    Plain(key, i + 3, k.c3, n.c2, n.c3);
  }

  function Key0(): State {
    State(Word(0x00, 0x01, 0x02, 0x03), Word(0x04, 0x05, 0x06, 0x07),
          Word(0x08, 0x09, 0x0a, 0x0b), Word(0x0c, 0x0d, 0x0e, 0x0f))
  }

  function Key1(): State {
    State(Word(0xd6, 0xaa, 0x74, 0xfd), Word(0xd2, 0xaf, 0x72, 0xfa),
          Word(0xda, 0xa6, 0x78, 0xf1), Word(0xd6, 0xab, 0x76, 0xfe))
  }

  function Key2(): State {
    State(Word(0xb6, 0x92, 0xcf, 0x0b), Word(0x64, 0x3d, 0xbd, 0xf1),
          Word(0xbe, 0x9b, 0xc5, 0x00), Word(0x68, 0x30, 0xb3, 0xfe))
  }

  function Key3(): State {
    State(Word(0xb6, 0xff, 0x74, 0x4e), Word(0xd2, 0xc2, 0xc9, 0xbf),
          Word(0x6c, 0x59, 0x0c, 0xbf), Word(0x04, 0x69, 0xbf, 0x41))
  }

  function Key4(): State {
    State(Word(0x47, 0xf7, 0xf7, 0xbc), Word(0x95, 0x35, 0x3e, 0x03),
          Word(0xf9, 0x6c, 0x32, 0xbc), Word(0xfd, 0x05, 0x8d, 0xfd))
  }

  function Key5(): State {
    State(Word(0x3c, 0xaa, 0xa3, 0xe8), Word(0xa9, 0x9f, 0x9d, 0xeb),
          Word(0x50, 0xf3, 0xaf, 0x57), Word(0xad, 0xf6, 0x22, 0xaa))
  }

  function Key6(): State {
    State(Word(0x5e, 0x39, 0x0f, 0x7d), Word(0xf7, 0xa6, 0x92, 0x96),
          Word(0xa7, 0x55, 0x3d, 0xc1), Word(0x0a, 0xa3, 0x1f, 0x6b))
  }

  function Key7(): State {
    State(Word(0x14, 0xf9, 0x70, 0x1a), Word(0xe3, 0x5f, 0xe2, 0x8c),
          Word(0x44, 0x0a, 0xdf, 0x4d), Word(0x4e, 0xa9, 0xc0, 0x26))
  }

  function Key8(): State {
    State(Word(0x47, 0x43, 0x87, 0x35), Word(0xa4, 0x1c, 0x65, 0xb9),
          Word(0xe0, 0x16, 0xba, 0xf4), Word(0xae, 0xbf, 0x7a, 0xd2))
  }

  function Key9(): State {
    State(Word(0x54, 0x99, 0x32, 0xd1), Word(0xf0, 0x85, 0x57, 0x68),
          Word(0x10, 0x93, 0xed, 0x9c), Word(0xbe, 0x2c, 0x97, 0x4e))
  }

  function Key10(): State {
    State(Word(0x13, 0x11, 0x1d, 0x7f), Word(0xe3, 0x94, 0x4a, 0x17),
          Word(0xf3, 0x07, 0xa7, 0x8b), Word(0x4d, 0x2b, 0x30, 0xc5))
  }

  /** The states before the first round and after each of the first nine. */
  function State0(): State {
    State(Word(0x00, 0x10, 0x20, 0x30), Word(0x40, 0x50, 0x60, 0x70),
          Word(0x80, 0x90, 0xa0, 0xb0), Word(0xc0, 0xd0, 0xe0, 0xf0))
  }

  function State1(): State {
    State(Word(0x89, 0xd8, 0x10, 0xe8), Word(0x85, 0x5a, 0xce, 0x68),
          Word(0x2d, 0x18, 0x43, 0xd8), Word(0xcb, 0x12, 0x8f, 0xe4))
  }

  function State2(): State {
    State(Word(0x49, 0x15, 0x59, 0x8f), Word(0x55, 0xe5, 0xd7, 0xa0),
          Word(0xda, 0xca, 0x94, 0xfa), Word(0x1f, 0x0a, 0x63, 0xf7))
  }

  function State3(): State {
    State(Word(0xfa, 0x63, 0x6a, 0x28), Word(0x25, 0xb3, 0x39, 0xc9),
          Word(0x40, 0x66, 0x8a, 0x31), Word(0x57, 0x24, 0x4d, 0x17))
  }

  function State4(): State {
    State(Word(0x24, 0x72, 0x40, 0x23), Word(0x69, 0x66, 0xb3, 0xfa),
          Word(0x6e, 0xd2, 0x75, 0x32), Word(0x88, 0x42, 0x5b, 0x6c))
  }

  function State5(): State {
    State(Word(0xc8, 0x16, 0x77, 0xbc), Word(0x9b, 0x7a, 0xc9, 0x3b),
          Word(0x25, 0x02, 0x79, 0x92), Word(0xb0, 0x26, 0x19, 0x96))
  }

  function State6(): State {
    State(Word(0xc6, 0x2f, 0xe1, 0x09), Word(0xf7, 0x5e, 0xed, 0xc3),
          Word(0xcc, 0x79, 0x39, 0x5d), Word(0x84, 0xf9, 0xcf, 0x5d))
  }

  function State7(): State {
    State(Word(0xd1, 0x87, 0x6c, 0x0f), Word(0x79, 0xc4, 0x30, 0x0a),
          Word(0xb4, 0x55, 0x94, 0xad), Word(0xd6, 0x6f, 0xf4, 0x1f))
  }

  function State8(): State {
    State(Word(0xfd, 0xe3, 0xba, 0xd2), Word(0x05, 0xe5, 0xd0, 0xd7),
          Word(0x35, 0x47, 0x96, 0x4e), Word(0xf1, 0xfe, 0x37, 0xf1))
  }

  function State9(): State {
    State(Word(0xbd, 0x6e, 0x7c, 0x3d), Word(0xf2, 0xb5, 0x77, 0x9e),
          Word(0x0b, 0x61, 0x21, 0x6e), Word(0x8b, 0x10, 0xb6, 0x89))
  }

  lemma FirstKey()
    ensures KeyIs(KEY, 0, Key0())
  {
  }

  lemma KeyFrom1(key: seq<bv8>)
    requires |key| == 16 && KeyIs(key, 0, Key0())
    ensures KeyIs(key, 1, Key1())
  {
    hide KeyIs;
    NextKey(key, 0, Key0(), Key1());
  }

  lemma KeyFrom2(key: seq<bv8>)
    requires |key| == 16 && KeyIs(key, 1, Key1())
    ensures KeyIs(key, 2, Key2())
  {
    hide KeyIs;
    NextKey(key, 1, Key1(), Key2());
  }

  lemma KeyFrom3(key: seq<bv8>)
    requires |key| == 16 && KeyIs(key, 2, Key2())
    ensures KeyIs(key, 3, Key3())
  {
    hide KeyIs;
    NextKey(key, 2, Key2(), Key3());
  }

  lemma KeyFrom4(key: seq<bv8>)
    requires |key| == 16 && KeyIs(key, 3, Key3())
    ensures KeyIs(key, 4, Key4())
  {
    hide KeyIs;
    NextKey(key, 3, Key3(), Key4());
  }

  lemma KeyFrom5(key: seq<bv8>)
    requires |key| == 16 && KeyIs(key, 4, Key4())
    ensures KeyIs(key, 5, Key5())
  {
    hide KeyIs;
    NextKey(key, 4, Key4(), Key5());
  }

  lemma KeyFrom6(key: seq<bv8>)
    requires |key| == 16 && KeyIs(key, 5, Key5())
    ensures KeyIs(key, 6, Key6())
  {
    hide KeyIs;
    NextKey(key, 5, Key5(), Key6());
  }

  lemma KeyFrom7(key: seq<bv8>)
    requires |key| == 16 && KeyIs(key, 6, Key6())
    ensures KeyIs(key, 7, Key7())
  {
    hide KeyIs;
    NextKey(key, 6, Key6(), Key7());
  }

  lemma KeyFrom8(key: seq<bv8>)
    requires |key| == 16 && KeyIs(key, 7, Key7())
    ensures KeyIs(key, 8, Key8())
  {
    hide KeyIs;
    NextKey(key, 7, Key7(), Key8());
  }

  lemma KeyFrom9(key: seq<bv8>)
    requires |key| == 16 && KeyIs(key, 8, Key8())
    ensures KeyIs(key, 9, Key9())
  {
    hide KeyIs;
    NextKey(key, 8, Key8(), Key9());
  }

  lemma KeyFrom10(key: seq<bv8>)
    requires |key| == 16 && KeyIs(key, 9, Key9())
    ensures KeyIs(key, 10, Key10())
  {
    hide KeyIs;
    NextKey(key, 9, Key9(), Key10());
  }

  function Sub1(): State {
    State(Word(0x63, 0xca, 0xb7, 0x04), Word(0x09, 0x53, 0xd0, 0x51),
          Word(0xcd, 0x60, 0xe0, 0xe7), Word(0xba, 0x70, 0xe1, 0x8c))
  }

  lemma Substituted1()
    ensures SubBytes(StandardBox(), State0()) == Sub1()
  {
  }

  lemma Mixed1()
    ensures AddKey(MixColumns(ShiftRows(Sub1())), Key1()) == State1()
  {
  }

  function Sub2(): State {
    State(Word(0xa7, 0x61, 0xca, 0x9b), Word(0x97, 0xbe, 0x8b, 0x45),
          Word(0xd8, 0xad, 0x1a, 0x61), Word(0x1f, 0xc9, 0x73, 0x69))
  }

  lemma Substituted2()
    ensures SubBytes(StandardBox(), State1()) == Sub2()
  {
  }

  lemma Mixed2()
    ensures AddKey(MixColumns(ShiftRows(Sub2())), Key2()) == State2()
  {
  }

  function Sub3(): State {
    State(Word(0x3b, 0x59, 0xcb, 0x73), Word(0xfc, 0xd9, 0x0e, 0xe0),
          Word(0x57, 0x74, 0x22, 0x2d), Word(0xc0, 0x67, 0xfb, 0x68))
  }

  lemma Substituted3()
    ensures SubBytes(StandardBox(), State2()) == Sub3()
  {
  }

  lemma Mixed3()
    ensures AddKey(MixColumns(ShiftRows(Sub3())), Key3()) == State3()
  {
  }

  function Sub4(): State {
    State(Word(0x2d, 0xfb, 0x02, 0x34), Word(0x3f, 0x6d, 0x12, 0xdd),
          Word(0x09, 0x33, 0x7e, 0xc7), Word(0x5b, 0x36, 0xe3, 0xf0))
  }

  lemma Substituted4()
    ensures SubBytes(StandardBox(), State3()) == Sub4()
  {
  }

  lemma Mixed4()
    ensures AddKey(MixColumns(ShiftRows(Sub4())), Key4()) == State4()
  {
  }

  function Sub5(): State {
    State(Word(0x36, 0x40, 0x09, 0x26), Word(0xf9, 0x33, 0x6d, 0x2d),
          Word(0x9f, 0xb5, 0x9d, 0x23), Word(0xc4, 0x2c, 0x39, 0x50))
  }

  lemma Substituted5()
    ensures SubBytes(StandardBox(), State4()) == Sub5()
  {
  }

  lemma Mixed5()
    ensures AddKey(MixColumns(ShiftRows(Sub5())), Key5()) == State5()
  {
  }

  function Sub6(): State {
    State(Word(0xe8, 0x47, 0xf5, 0x65), Word(0x14, 0xda, 0xdd, 0xe2),
          Word(0x3f, 0x77, 0xb6, 0x4f), Word(0xe7, 0xf7, 0xd4, 0x90))
  }

  lemma Substituted6()
    ensures SubBytes(StandardBox(), State5()) == Sub6()
  {
  }

  lemma Mixed6()
    ensures AddKey(MixColumns(ShiftRows(Sub6())), Key6()) == State6()
  {
  }

  function Sub7(): State {
    State(Word(0xb4, 0x15, 0xf8, 0x01), Word(0x68, 0x58, 0x55, 0x2e),
          Word(0x4b, 0xb6, 0x12, 0x4c), Word(0x5f, 0x99, 0x8a, 0x4c))
  }

  lemma Substituted7()
    ensures SubBytes(StandardBox(), State6()) == Sub7()
  {
  }

  lemma Mixed7()
    ensures AddKey(MixColumns(ShiftRows(Sub7())), Key7()) == State7()
  {
  }

  function Sub8(): State {
    State(Word(0x3e, 0x17, 0x50, 0x76), Word(0xb6, 0x1c, 0x04, 0x67),
          Word(0x8d, 0xfc, 0x22, 0x95), Word(0xf6, 0xa8, 0xbf, 0xc0))
  }

  lemma Substituted8()
    ensures SubBytes(StandardBox(), State7()) == Sub8()
  {
  }

  lemma Mixed8()
    ensures AddKey(MixColumns(ShiftRows(Sub8())), Key8()) == State8()
  {
  }

  function Sub9(): State {
    State(Word(0x54, 0x11, 0xf4, 0xb5), Word(0x6b, 0xd9, 0x70, 0x0e),
          Word(0x96, 0xa0, 0x90, 0x2f), Word(0xa1, 0xbb, 0x9a, 0xa1))
  }

  lemma Substituted9()
    ensures SubBytes(StandardBox(), State8()) == Sub9()
  {
  }

  lemma Mixed9()
    ensures AddKey(MixColumns(ShiftRows(Sub9())), Key9()) == State9()
  {
  }

  /** The nine full rounds. */
  lemma FullRounds()
    ensures Round(StandardBox(), State0(), Key1()) == State1()
    ensures Round(StandardBox(), State1(), Key2()) == State2()
    ensures Round(StandardBox(), State2(), Key3()) == State3()
    ensures Round(StandardBox(), State3(), Key4()) == State4()
    ensures Round(StandardBox(), State4(), Key5()) == State5()
    ensures Round(StandardBox(), State5(), Key6()) == State6()
    ensures Round(StandardBox(), State6(), Key7()) == State7()
    ensures Round(StandardBox(), State7(), Key8()) == State8()
    ensures Round(StandardBox(), State8(), Key9()) == State9()
  {
    hide SubBytes, ShiftRows, MixColumns, AddKey, StandardBox, State1, Key1, Sub1, State2, Key2, Sub2, State3, Key3, Sub3, State4, Key4, Sub4, State5, Key5, Sub5, State6, Key6, Sub6, State7, Key7, Sub7, State8, Key8, Sub8, State9, Key9, Sub9, State0;
    Substituted1();
    Mixed1();
    Substituted2();
    Mixed2();
    Substituted3();
    Mixed3();
    Substituted4();
    Mixed4();
    Substituted5();
    Mixed5();
    Substituted6();
    Mixed6();
    Substituted7();
    Mixed7();
    Substituted8();
    Mixed8();
    Substituted9();
    Mixed9();
  }

  /** The schedule of the key in a row of words. */
  predicate IsSchedule(w: seq<Word>) {
    |w| >= 44 && forall i :: 0 <= i < 44 ==> w[i] == KeyWord(StandardBox(), KEY, 4, i)
  }

  lemma RoundKeyIs(w: seq<Word>, r: nat, k: State)
    requires IsSchedule(w) && r <= 10 && KeyIs(KEY, r, k)
    ensures RoundKey(w, r) == k
  {
    hide KeyWord;
  }

  lemma RoundDone(w: seq<Word>, r: nat, s: State, k: State, n: State)
    requires IsSchedule(w) && 0 < r <= 10 && KeyIs(KEY, r, k) && Round(StandardBox(), s, k) == n
    requires Rounds(StandardBox(), w, r - 1, Load(PLAINTEXT)) == s
    ensures Rounds(StandardBox(), w, r, Load(PLAINTEXT)) == n
  {
    hide KeyWord, Round, Load;
    RoundKeyIs(w, r, k);
  }

  lemma AllKeys()
    ensures KeyIs(KEY, 0, Key0()) && KeyIs(KEY, 1, Key1()) && KeyIs(KEY, 2, Key2()) && KeyIs(KEY, 3, Key3())
    ensures KeyIs(KEY, 4, Key4()) && KeyIs(KEY, 5, Key5()) && KeyIs(KEY, 6, Key6()) && KeyIs(KEY, 7, Key7())
    ensures KeyIs(KEY, 8, Key8()) && KeyIs(KEY, 9, Key9()) && KeyIs(KEY, 10, Key10())
  {
    hide KeyIs;
    FirstKey();
    KeyFrom1(KEY);
    KeyFrom2(KEY);
    KeyFrom3(KEY);
    KeyFrom4(KEY);
    KeyFrom5(KEY);
    KeyFrom6(KEY);
    KeyFrom7(KEY);
    KeyFrom8(KEY);
    KeyFrom9(KEY);
    KeyFrom10(KEY);
  }

  lemma Start()
    ensures AddKey(Load(PLAINTEXT), Key0()) == State0()
  {
  }

  lemma Finish()
    ensures Store(LastRound(StandardBox(), State9(), Key10())) == CIPHERTEXT
  {
  }

  /** The cipher on the example of appendix C.1. */
  lemma ExampleCipher(w: seq<Word>, rounds: nat)
    requires IsSchedule(w) && rounds == |KEY| / 4 + 6
    ensures Store(Cipher(StandardBox(), w, rounds, Load(PLAINTEXT))) == CIPHERTEXT
  {
    hide KeyIs, KeyWord, Round, LastRound, Load, Store, AddKey, IsSchedule;
    AllKeys();
    Start();
    RoundKeyIs(w, 0, Key0());
    FullRounds();
    RoundDone(w, 1, State0(), Key1(), State1());
    RoundDone(w, 2, State1(), Key2(), State2());
    RoundDone(w, 3, State2(), Key3(), State3());
    RoundDone(w, 4, State3(), Key4(), State4());
    RoundDone(w, 5, State4(), Key5(), State5());
    RoundDone(w, 6, State5(), Key6(), State6());
    RoundDone(w, 7, State6(), Key7(), State7());
    RoundDone(w, 8, State7(), Key8(), State8());
    RoundDone(w, 9, State8(), Key9(), State9());
    RoundKeyIs(w, 10, Key10());
    Finish();
  }

  /** The code on the example: set-up, encryption and decryption. */
  method Example() returns (err: Status, ct: seq<bv8>, back: seq<bv8>)
    ensures err == CryptOk && ct == CIPHERTEXT && back == PLAINTEXT
  {
    hide Cipher, Load, Store, KeyWord;
    var k := new SymmetricKey(StandardBox());
    err := k.Setup(KEY, 0);
    StandardInverse();
    assert |KEY| == 16 && |PLAINTEXT| == 16;
    assert k.Scheduled(KEY);
    ct, back := k.EncryptThenDecrypt(KEY, PLAINTEXT);
    ExampleCipher(k.eK[..], |KEY| / 4 + 6);
  }
}
