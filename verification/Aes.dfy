/**
 * The table-driven implementation: key set-up with a derived decryption schedule, and encryption and
 * decryption with two rounds per pass of the loop, against the standard's own words.
 */
module Aes {
  import opened Arith
  import opened AesField
  import opened AesSpec

  // ---- tables, by what their entries mean ----

  function Te0(box: Box, x: bv8): Word { var s := box.s(x); Word(XTime(s), s, s, Mul3(s)) }
  function Te1(box: Box, x: bv8): Word { var s := box.s(x); Word(Mul3(s), XTime(s), s, s) }
  function Te2(box: Box, x: bv8): Word { var s := box.s(x); Word(s, Mul3(s), XTime(s), s) }
  function Te3(box: Box, x: bv8): Word { var s := box.s(x); Word(s, s, Mul3(s), XTime(s)) }

  function Te4_3(box: Box, x: bv8): Word { Word(box.s(x), 0, 0, 0) }
  function Te4_2(box: Box, x: bv8): Word { Word(0, box.s(x), 0, 0) }
  function Te4_1(box: Box, x: bv8): Word { Word(0, 0, box.s(x), 0) }
  function Te4_0(box: Box, x: bv8): Word { Word(0, 0, 0, box.s(x)) }

  function Tks0(x: bv8): Word { Word(MulE(x), Mul9(x), MulD(x), MulB(x)) }
  function Tks1(x: bv8): Word { Word(MulB(x), MulE(x), Mul9(x), MulD(x)) }
  function Tks2(x: bv8): Word { Word(MulD(x), MulB(x), MulE(x), Mul9(x)) }
  function Tks3(x: bv8): Word { Word(Mul9(x), MulD(x), MulB(x), MulE(x)) }

  function Td0(box: Box, x: bv8): Word { Tks0(box.si(x)) }
  function Td1(box: Box, x: bv8): Word { Tks1(box.si(x)) }
  function Td2(box: Box, x: bv8): Word { Tks2(box.si(x)) }
  function Td3(box: Box, x: bv8): Word { Tks3(box.si(x)) }

  function Td4_3(box: Box, x: bv8): Word { Word(box.si(x), 0, 0, 0) }
  function Td4_2(box: Box, x: bv8): Word { Word(0, box.si(x), 0, 0) }
  function Td4_1(box: Box, x: bv8): Word { Word(0, 0, box.si(x), 0) }
  function Td4_0(box: Box, x: bv8): Word { Word(0, 0, 0, box.si(x)) }

  function Rcon(i: nat): Word
    requires i < 10
  {
    Word(match i
         case 0 => 0x01 case 1 => 0x02 case 2 => 0x04 case 3 => 0x08 case 4 => 0x10
         case 5 => 0x20 case 6 => 0x40 case 7 => 0x80 case 8 => 0x1B case 9 => 0x36, 0, 0, 0)
  }

  lemma RconIsPower(i: nat)
    requires i < 10
    ensures Rcon(i) == Word(RconByte(i + 1), 0, 0, 0)
  {
    assert RconByte(1) == 0x01;
    assert RconByte(2) == 0x02;
    assert RconByte(3) == 0x04;
    assert RconByte(4) == 0x08;
    assert RconByte(5) == 0x10;
    assert RconByte(6) == 0x20;
    assert RconByte(7) == 0x40;
    assert RconByte(8) == 0x80;
    assert RconByte(9) == 0x1B;
    assert RconByte(10) == 0x36;
  }

  // ---- sums of four table entries ----

  function Sum(t: Word, u: Word, w: Word, x: Word): Word { Xor(Xor(Xor(t, u), w), x) }

  lemma LeftSum(a: bv8, b: bv8, c: bv8, d: bv8)
    ensures Add(Add(Add(a, b), c), d) == Sum4(a, b, c, d)
  {
    hide Add;
    AddAssociates(Add(a, b), c, d);
  }

  lemma LeftSums(t: Word, u: Word, w: Word, x: Word)
    ensures Sum(t, u, w, x) == Word(Sum4(t.b3, u.b3, w.b3, x.b3), Sum4(t.b2, u.b2, w.b2, x.b2),
                                    Sum4(t.b1, u.b1, w.b1, x.b1), Sum4(t.b0, u.b0, w.b0, x.b0))
  {
    hide Add, Sum4;
    LeftSum(t.b3, u.b3, w.b3, x.b3);
    LeftSum(t.b2, u.b2, w.b2, x.b2);
    LeftSum(t.b1, u.b1, w.b1, x.b1);
    LeftSum(t.b0, u.b0, w.b0, x.b0);
  }

  /** A column of a full round: substitution and mixing in one look-up per byte. */
  lemma TeColumn(box: Box, a: bv8, b: bv8, c: bv8, d: bv8)
    ensures Sum(Te0(box, a), Te1(box, b), Te2(box, c), Te3(box, d)) == MixColumn(SubWord(box, Word(a, b, c, d)))
  {
    hide Add, XTime, Mul3, Sum4;
    var p, q, r, s := box.s(a), box.s(b), box.s(c), box.s(d);
    LeftSums(Te0(box, a), Te1(box, b), Te2(box, c), Te3(box, d));
    Rotate(XTime(q), Mul3(r), s, p);
    Rotate(XTime(r), Mul3(s), p, q);
    Rotate(XTime(s), Mul3(p), q, r);
  }

  lemma TksColumn(a: bv8, b: bv8, c: bv8, d: bv8)
    ensures Sum(Tks0(a), Tks1(b), Tks2(c), Tks3(d)) == InvMixColumn(Word(a, b, c, d))
  {
    hide Add, Mul9, MulB, MulD, MulE, Sum4;
    LeftSums(Tks0(a), Tks1(b), Tks2(c), Tks3(d));
    Rotate(MulE(b), MulB(c), MulD(d), Mul9(a));
    Rotate(MulE(c), MulB(d), MulD(a), Mul9(b));
    Rotate(MulE(d), MulB(a), MulD(b), Mul9(c));
  }

  /** Four bytes in their own places put together. */
  lemma Places(a: bv8, b: bv8, c: bv8, d: bv8)
    ensures Sum(Word(a, 0, 0, 0), Word(0, b, 0, 0), Word(0, 0, c, 0), Word(0, 0, 0, d)) == Word(a, b, c, d)
  {
    hide Add;
    Zero(0);
    Zero(a);
    Zero(b);
    Zero(c);
    Zero(d);
  }

  function SetupMix(box: Box, temp: Word): Word {
    Sum(Te4_3(box, temp.b2), Te4_2(box, temp.b1), Te4_1(box, temp.b0), Te4_0(box, temp.b3))
  }

  lemma SetupMixIs(box: Box, temp: Word)
    ensures SetupMix(box, temp) == SubWord(box, RotWord(temp))
  {
    Places(box.s(temp.b2), box.s(temp.b1), box.s(temp.b0), box.s(temp.b3));
  }

  /** Rotation to the right by eight bits. */
  function Ror8(w: Word): Word { Word(w.b0, w.b3, w.b2, w.b1) }

  lemma XorAssociates(u: Word, w: Word, x: Word)
    ensures Xor(Xor(u, w), x) == Xor(u, Xor(w, x))
  {
    hide Add;
    AddAssociates(u.b3, w.b3, x.b3);
    AddAssociates(u.b2, w.b2, x.b2);
    AddAssociates(u.b1, w.b1, x.b1);
    AddAssociates(u.b0, w.b0, x.b0);
  }

  /** The small-code set-up goes through the S-box and back; with an inverse S-box that is the same. */
  lemma SetupMix2Is(box: Box, temp: Word)
    requires Inverse(box)
    ensures Sum(Td0(box, box.s(temp.b3)), Td1(box, box.s(temp.b2)), Td2(box, box.s(temp.b1)), Td3(box, box.s(temp.b0)))
            == Sum(Tks0(temp.b3), Tks1(temp.b2), Tks2(temp.b1), Tks3(temp.b0))
            == InvMixColumn(temp)
  {
    TksColumn(temp.b3, temp.b2, temp.b1, temp.b0);
  }

  // ---- rounds by columns ----

  function TeWord(box: Box, a: Word, b: Word, c: Word, d: Word, k: Word): Word {
    Xor(Sum(Te0(box, a.b3), Te1(box, b.b2), Te2(box, c.b1), Te3(box, d.b0)), k)
  }

  function TeLast(box: Box, a: Word, b: Word, c: Word, d: Word, k: Word): Word {
    Xor(Sum(Te4_3(box, a.b3), Te4_2(box, b.b2), Te4_1(box, c.b1), Te4_0(box, d.b0)), k)
  }

  function TdWord(box: Box, a: Word, b: Word, c: Word, d: Word, k: Word): Word {
    Xor(Sum(Td0(box, a.b3), Td1(box, b.b2), Td2(box, c.b1), Td3(box, d.b0)), k)
  }

  function TdLast(box: Box, a: Word, b: Word, c: Word, d: Word, k: Word): Word {
    Xor(Sum(Td4_3(box, a.b3), Td4_2(box, b.b2), Td4_1(box, c.b1), Td4_0(box, d.b0)), k)
  }

  /** The look-ups for the four columns make a full round. */
  lemma TeRound(box: Box, s: State, k: State)
    ensures Round(box, s, k) == State(TeWord(box, s.c0, s.c1, s.c2, s.c3, k.c0), TeWord(box, s.c1, s.c2, s.c3, s.c0, k.c1),
                                      TeWord(box, s.c2, s.c3, s.c0, s.c1, k.c2), TeWord(box, s.c3, s.c0, s.c1, s.c2, k.c3))
  {
    hide Xor, Sum, MixColumn, Te0, Te1, Te2, Te3;
    TeColumn(box, s.c0.b3, s.c1.b2, s.c2.b1, s.c3.b0);
    TeColumn(box, s.c1.b3, s.c2.b2, s.c3.b1, s.c0.b0);
    TeColumn(box, s.c2.b3, s.c3.b2, s.c0.b1, s.c1.b0);
    TeColumn(box, s.c3.b3, s.c0.b2, s.c1.b1, s.c2.b0);
  }

  lemma TeLastRound(box: Box, s: State, k: State)
    ensures LastRound(box, s, k) == State(TeLast(box, s.c0, s.c1, s.c2, s.c3, k.c0), TeLast(box, s.c1, s.c2, s.c3, s.c0, k.c1),
                                          TeLast(box, s.c2, s.c3, s.c0, s.c1, k.c2), TeLast(box, s.c3, s.c0, s.c1, s.c2, k.c3))
  {
    hide Xor, Sum;
    Places(box.s(s.c0.b3), box.s(s.c1.b2), box.s(s.c2.b1), box.s(s.c3.b0));
    Places(box.s(s.c1.b3), box.s(s.c2.b2), box.s(s.c3.b1), box.s(s.c0.b0));
    Places(box.s(s.c2.b3), box.s(s.c3.b2), box.s(s.c0.b1), box.s(s.c1.b0));
    Places(box.s(s.c3.b3), box.s(s.c0.b2), box.s(s.c1.b1), box.s(s.c2.b0));
  }

  lemma TdRound(box: Box, s: State, k: State)
    ensures InvRound(box, s, k) == State(TdWord(box, s.c0, s.c3, s.c2, s.c1, k.c0), TdWord(box, s.c1, s.c0, s.c3, s.c2, k.c1),
                                         TdWord(box, s.c2, s.c1, s.c0, s.c3, k.c2), TdWord(box, s.c3, s.c2, s.c1, s.c0, k.c3))
  {
    hide Xor, Sum, InvMixColumn, Tks0, Tks1, Tks2, Tks3;
    TksColumn(box.si(s.c0.b3), box.si(s.c3.b2), box.si(s.c2.b1), box.si(s.c1.b0));
    TksColumn(box.si(s.c1.b3), box.si(s.c0.b2), box.si(s.c3.b1), box.si(s.c2.b0));
    TksColumn(box.si(s.c2.b3), box.si(s.c1.b2), box.si(s.c0.b1), box.si(s.c3.b0));
    TksColumn(box.si(s.c3.b3), box.si(s.c2.b2), box.si(s.c1.b1), box.si(s.c0.b0));
  }

  lemma TdLastRound(box: Box, s: State, k: State)
    ensures InvLastRound(box, s, k) == State(TdLast(box, s.c0, s.c3, s.c2, s.c1, k.c0), TdLast(box, s.c1, s.c0, s.c3, s.c2, k.c1),
                                             TdLast(box, s.c2, s.c1, s.c0, s.c3, k.c2), TdLast(box, s.c3, s.c2, s.c1, s.c0, k.c3))
  {
    hide Xor, Sum;
    Places(box.si(s.c0.b3), box.si(s.c3.b2), box.si(s.c2.b1), box.si(s.c1.b0));
    Places(box.si(s.c1.b3), box.si(s.c0.b2), box.si(s.c3.b1), box.si(s.c2.b0));
    Places(box.si(s.c2.b3), box.si(s.c1.b2), box.si(s.c0.b1), box.si(s.c3.b0));
    Places(box.si(s.c3.b3), box.si(s.c2.b2), box.si(s.c1.b1), box.si(s.c0.b0));
  }

  // ---- blocks ----

  function Load(b: seq<bv8>): State
    requires |b| == 16
  {
    State(KeyBytes(b, 0), KeyBytes(b, 1), KeyBytes(b, 2), KeyBytes(b, 3))
  }

  function StoreWord(w: Word): seq<bv8> { [w.b3, w.b2, w.b1, w.b0] }

  function Store(s: State): (b: seq<bv8>)
    ensures |b| == 16
  {
    StoreWord(s.c0) + StoreWord(s.c1) + StoreWord(s.c2) + StoreWord(s.c3)
  }

  lemma LoadStored(s: State)
    ensures Load(Store(s)) == s
  {
  }

  lemma StoreLoaded(b: seq<bv8>)
    requires |b| == 16
    ensures Store(Load(b)) == b
  {
  }

  // ---- key set-up ----

  datatype Status = CryptOk | InvalidKeysize | InvalidRounds

  /** The words of the schedule so far are those of the standard. */
  predicate Expanded(box: Box, key: seq<bv8>, nk: nat, w: seq<Word>, n: nat) {
    0 < nk && |key| == 4 * nk && n <= |w| && forall i :: 0 <= i < n ==> w[i] == KeyWord(box, key, nk, i)
  }

  /** The first word of a group. */
  lemma GroupStart(box: Box, key: seq<bv8>, nk: nat, i: nat)
    requires 4 <= nk <= 8 && |key| == 4 * nk && i < 10
    ensures KeyWord(box, key, nk, nk * i + nk)
            == Xor(Xor(KeyWord(box, key, nk, nk * i), SetupMix(box, KeyWord(box, key, nk, nk * i + nk - 1))), Rcon(i))
  {
    hide Xor, SetupMix, SubWord, RotWord, RconByte;
    var j := nk * i + nk;
    GroupIndex(nk, i, 0);
    var temp := KeyWord(box, key, nk, j - 1);
    SetupMixIs(box, temp);
    RconIsPower(i);
    XorAssociates(KeyWord(box, key, nk, nk * i), SetupMix(box, temp), Rcon(i));
  }

  lemma GroupIndex(nk: nat, i: nat, d: nat)
    requires 0 < nk && d < nk
    ensures (nk * i + nk + d) % nk == d && (nk * i + nk + d) / nk == i + 1
  {
    assert nk * i + nk == (i + 1) * nk;
    DivMod(nk * i + nk + d, nk, i + 1, d);
  }

  /** The other words of a group. */
  lemma GroupRest(box: Box, key: seq<bv8>, nk: nat, i: nat, d: nat)
    requires 4 <= nk <= 8 && |key| == 4 * nk && 0 < d < nk
    ensures KeyWord(box, key, nk, nk * i + nk + d)
            == Xor(KeyWord(box, key, nk, nk * i + d),
                   if nk > 6 && d == 4 then SetupMix(box, Ror8(KeyWord(box, key, nk, nk * i + nk + d - 1)))
                   else KeyWord(box, key, nk, nk * i + nk + d - 1))
  {
    hide Xor, SetupMix, SubWord, RconByte;
    GroupIndex(nk, i, d);
    SetupMixIs(box, Ror8(KeyWord(box, key, nk, nk * i + nk + d - 1)));
  }

  /** A scheduled key: both schedules and the number of rounds. */
  lemma InverseKey(e: seq<Word>, d: seq<Word>, m: nat, r: nat)
    requires 4 * m + 4 <= |e| && 4 * r + 4 <= |d|
    requires d[4 * r] == InvMixColumn(e[4 * m]) && d[4 * r + 1] == InvMixColumn(e[4 * m + 1])
    requires d[4 * r + 2] == InvMixColumn(e[4 * m + 2]) && d[4 * r + 3] == InvMixColumn(e[4 * m + 3])
    ensures RoundKey(d, r) == InvMixColumns(RoundKey(e, m))
  {
    hide InvMixColumn;
  }

  class SymmetricKey {
    const box: Box
    const eK: array<Word>
    const dK: array<Word>
    var Nr: nat

    constructor (b: Box)
      ensures Valid() && box == b && fresh(eK) && fresh(dK)
    {
      box := b;
      eK := new Word[60](_ => Word(0, 0, 0, 0));
      dK := new Word[60](_ => Word(0, 0, 0, 0));
      Nr := 0;
    }

    ghost predicate Valid()
      reads this
    {
      eK != dK && eK.Length == dK.Length == 60
    }

    /** Both schedules are those of a key. */
    ghost predicate Scheduled(key: seq<bv8>)
      reads this, eK, dK
    {
      && Valid() && |key| in {16, 24, 32} && Nr == 10 + (|key| / 8 - 2) * 2
      && Expanded(box, key, |key| / 4, eK[..], 4 * Nr + 4)
      && DerivedSchedule(eK[..], dK[..], Nr)
    }

    /** One group of four words of the schedule; the group's other words, if any, are left to the caller. */
    method FourWords(key: seq<bv8>, nk: nat, i: nat)
      requires Valid() && 4 <= nk <= 8 && i < 10 && nk * i + nk + 4 <= 60 && Expanded(box, key, nk, eK[..], nk * i + nk)
      modifies eK
      ensures Expanded(box, key, nk, eK[..], nk * i + nk + 4)
    {
      hide Xor, SetupMix, KeyWord, Rcon;
      GroupStart(box, key, nk, i);
      GroupRest(box, key, nk, i, 1);
      GroupRest(box, key, nk, i, 2);
      GroupRest(box, key, nk, i, 3);
      var rk := nk * i;
      var temp := eK[rk + nk - 1];
      eK[rk + nk] := Xor(Xor(eK[rk], SetupMix(box, temp)), Rcon(i));
      assert Expanded(box, key, nk, eK[..], rk + nk + 1);
      eK[rk + nk + 1] := Xor(eK[rk + 1], eK[rk + nk]);
      assert Expanded(box, key, nk, eK[..], rk + nk + 2);
      eK[rk + nk + 2] := Xor(eK[rk + 2], eK[rk + nk + 1]);
      assert Expanded(box, key, nk, eK[..], rk + nk + 3);
      eK[rk + nk + 3] := Xor(eK[rk + 3], eK[rk + nk + 2]);
    }

    method Expand128(key: seq<bv8>)
      requires Valid() && Expanded(box, key, 4, eK[..], 4)
      modifies eK
      ensures Expanded(box, key, 4, eK[..], 44)
    {
      var i := 0;
      while true
        invariant 0 <= i < 10 && Expanded(box, key, 4, eK[..], 4 * i + 4)
        decreases 10 - i
      {
        FourWords(key, 4, i);
        i := i + 1;
        if i == 10 {
          break;
        }
      }
    }

    method Expand192(key: seq<bv8>)
      requires Valid() && Expanded(box, key, 6, eK[..], 6)
      modifies eK
      ensures Expanded(box, key, 6, eK[..], 52)
    {
      hide Xor, SetupMix, KeyWord;
      var i := 0;
      while true
        invariant 0 <= i < 8 && Expanded(box, key, 6, eK[..], 6 * i + 6)
        decreases 8 - i
      {
        FourWords(key, 6, i);
        i := i + 1;
        if i == 8 {
          break;
        }
        GroupRest(box, key, 6, i - 1, 4);
        GroupRest(box, key, 6, i - 1, 5);
        var rk := 6 * (i - 1);
        eK[rk + 10] := Xor(eK[rk + 4], eK[rk + 9]);
        eK[rk + 11] := Xor(eK[rk + 5], eK[rk + 10]);
      }
    }

    method Expand256(key: seq<bv8>)
      requires Valid() && Expanded(box, key, 8, eK[..], 8)
      modifies eK
      ensures Expanded(box, key, 8, eK[..], 60)
    {
      hide Xor, SetupMix, KeyWord;
      var i := 0;
      while true
        invariant 0 <= i < 7 && Expanded(box, key, 8, eK[..], 8 * i + 8)
        decreases 7 - i
      {
        FourWords(key, 8, i);
        i := i + 1;
        if i == 7 {
          break;
        }
        SecondHalf(key, i - 1);
      }
    }

    method SecondHalf(key: seq<bv8>, i: nat)
      requires Valid() && i < 6 && Expanded(box, key, 8, eK[..], 8 * i + 12)
      modifies eK
      ensures Expanded(box, key, 8, eK[..], 8 * i + 16)
    {
      hide Xor, SetupMix, KeyWord, Ror8;
      GroupRest(box, key, 8, i, 4);
      GroupRest(box, key, 8, i, 5);
      GroupRest(box, key, 8, i, 6);
      GroupRest(box, key, 8, i, 7);
      var rk := 8 * i;
      var temp := eK[rk + 11];
      eK[rk + 12] := Xor(eK[rk + 4], SetupMix(box, Ror8(temp)));
      assert Expanded(box, key, 8, eK[..], rk + 13);
      eK[rk + 13] := Xor(eK[rk + 5], eK[rk + 12]);
      assert Expanded(box, key, 8, eK[..], rk + 14);
      eK[rk + 14] := Xor(eK[rk + 6], eK[rk + 13]);
      assert Expanded(box, key, 8, eK[..], rk + 15);
      eK[rk + 15] := Xor(eK[rk + 7], eK[rk + 14]);
    }

    /** The words of the key itself. */
    method LoadKey(key: seq<bv8>)
      requires Valid() && |key| in {16, 24, 32}
      modifies eK
      ensures Expanded(box, key, |key| / 4, eK[..], |key| / 4)
    {
      for i := 0 to |key| / 4
        invariant Expanded(box, key, |key| / 4, eK[..], i)
      {
        eK[i] := Word(key[4 * i], key[4 * i + 1], key[4 * i + 2], key[4 * i + 3]);
      }
    }

    /** Four words of the decryption schedule from four words of the other. */
    method InverseWords(r: nat)
      requires Valid() && r <= Nr <= 14
      modifies dK
      ensures forall k :: 0 <= k < 60 && !(4 * r <= k < 4 * r + 4) ==> dK[k] == old(dK[k])
      ensures RoundKey(dK[..], r) == if r == 0 || r == Nr then RoundKey(eK[..], Nr - r) else InvMixColumns(RoundKey(eK[..], Nr - r))
    {
      if r == 0 || r == Nr {
        CopyWords(r);
      } else {
        UnmixWords(r);
      }
    }

    method CopyWords(r: nat)
      requires Valid() && r <= Nr <= 14
      modifies dK
      ensures forall k :: 0 <= k < 60 && !(4 * r <= k < 4 * r + 4) ==> dK[k] == old(dK[k])
      ensures RoundKey(dK[..], r) == RoundKey(eK[..], Nr - r)
    {
      var rk, rrk := 4 * r, 4 * (Nr - r);
      dK[rk], dK[rk + 1], dK[rk + 2], dK[rk + 3] := eK[rrk], eK[rrk + 1], eK[rrk + 2], eK[rrk + 3];
    }

    method UnmixWords(r: nat)
      requires Valid() && r <= Nr <= 14
      modifies dK
      ensures forall k :: 0 <= k < 60 && !(4 * r <= k < 4 * r + 4) ==> dK[k] == old(dK[k])
      ensures RoundKey(dK[..], r) == InvMixColumns(RoundKey(eK[..], Nr - r))
    {
      hide UnmixWord, InvMixColumn, InvMixColumns, RoundKey;
      var rk, rrk := 4 * r, 4 * (Nr - r);
      var temp := eK[rrk];
      dK[rk] := UnmixWord(temp);
      temp := eK[rrk + 1];
      dK[rk + 1] := UnmixWord(temp);
      temp := eK[rrk + 2];
      dK[rk + 2] := UnmixWord(temp);
      temp := eK[rrk + 3];
      dK[rk + 3] := UnmixWord(temp);
      InverseKey(eK[..], dK[..], Nr - r, r);
    }

    function UnmixWord(temp: Word): (r: Word)
      ensures r == InvMixColumn(temp)
    {
      TksColumn(temp.b3, temp.b2, temp.b1, temp.b0);
      Sum(Tks0(temp.b3), Tks1(temp.b2), Tks2(temp.b1), Tks3(temp.b0))
    }

    /** The decryption schedule: first, middle and last round keys. */
    method InverseSchedule()
      requires Valid() && 0 < Nr <= 14
      modifies dK
      ensures DerivedSchedule(eK[..], dK[..], Nr)
    {
      hide InvMixColumns;
      InverseWords(0);
      var i := 1;
      while i < Nr
        invariant 1 <= i <= Nr && Inverted(i)
      {
        InverseNext(i);
        i := i + 1;
      }
      InverseNext(Nr);
    }

    method InverseNext(r: nat)
      requires Valid() && 0 < r <= Nr <= 14 && Inverted(r)
      modifies dK
      ensures Inverted(r + 1)
    {
      hide InvMixColumns;
      ghost var before := dK[..];
      InverseWords(r);
      forall q | 0 <= q < r ensures RoundKey(dK[..], q) == RoundKey(before, q) {
        assert dK[4 * q] == before[4 * q] && dK[4 * q + 1] == before[4 * q + 1];
        assert dK[4 * q + 2] == before[4 * q + 2] && dK[4 * q + 3] == before[4 * q + 3];
      }
    }

    ghost predicate Inverted(n: nat)
      requires Valid() && n <= Nr + 1 && Nr <= 14
      reads this, eK, dK
    {
      forall r :: 0 <= r < n ==>
        RoundKey(dK[..], r) == if r == 0 || r == Nr then RoundKey(eK[..], Nr - r) else InvMixColumns(RoundKey(eK[..], Nr - r))
    }

    /** Key set-up; the key length must be 16, 24 or 32 bytes and the number of rounds 0 or the one that goes with it. */
    method Setup(key: seq<bv8>, numRounds: int) returns (err: Status)
      requires Valid()
      modifies this, eK, dK
      ensures err == InvalidKeysize <==> |key| !in {16, 24, 32}
      ensures err == InvalidRounds <==> |key| in {16, 24, 32} && numRounds != 0 && numRounds != 10 + (|key| / 8 - 2) * 2
      ensures err == CryptOk ==> Scheduled(key)
    {
      if |key| != 16 && |key| != 24 && |key| != 32 {
        return InvalidKeysize;
      }
      if numRounds != 0 && numRounds != 10 + (|key| / 8 - 2) * 2 {
        return InvalidRounds;
      }
      Nr := 10 + (|key| / 8 - 2) * 2;
      LoadKey(key);
      if |key| == 16 {
        Expand128(key);
      } else if |key| == 24 {
        Expand192(key);
      } else {
        Expand256(key);
      }
      InverseSchedule();
      return CryptOk;
    }

    /** The four words as sixteen bytes. */
    method PutWords(s0: Word, s1: Word, s2: Word, s3: Word) returns (b: seq<bv8>)
      ensures b == Store(State(s0, s1, s2, s3))
    {
      b := StoreWord(s0) + StoreWord(s1) + StoreWord(s2) + StoreWord(s3);
    }

    /** Encrypts a block of 16 bytes, two rounds per pass. */
    method EcbEncrypt(pt: seq<bv8>) returns (ct: seq<bv8>)
      requires Valid() && |pt| == 16 && Nr % 2 == 0 && 2 <= Nr <= 14
      ensures ct == Store(Cipher(box, eK[..], Nr, Load(pt)))
    {
      hide TeWord, TeLast, Round, LastRound, Xor, KeyBytes, Store, StoreWord;
      ghost var w, input := eK[..], Load(pt);
      var s0 := Xor(KeyBytes(pt, 0), eK[0]);
      var s1 := Xor(KeyBytes(pt, 1), eK[1]);
      var s2 := Xor(KeyBytes(pt, 2), eK[2]);
      var s3 := Xor(KeyBytes(pt, 3), eK[3]);
      var rk, r := 0, Nr / 2;
      var t0, t1, t2, t3;
      while true
        invariant 0 < r <= Nr / 2 && rk == 4 * (Nr - 2 * r)
        invariant State(s0, s1, s2, s3) == Rounds(box, w, Nr - 2 * r, input)
        decreases r
      {
        ghost var n := Nr - 2 * r;
        TeRound(box, State(s0, s1, s2, s3), RoundKey(w, n + 1));
        t0 := TeWord(box, s0, s1, s2, s3, eK[rk + 4]);
        t1 := TeWord(box, s1, s2, s3, s0, eK[rk + 5]);
        t2 := TeWord(box, s2, s3, s0, s1, eK[rk + 6]);
        t3 := TeWord(box, s3, s0, s1, s2, eK[rk + 7]);
        assert State(t0, t1, t2, t3) == Rounds(box, w, n + 1, input);
        rk := rk + 8;
        r := r - 1;
        if r == 0 {
          break;
        }
        TeRound(box, State(t0, t1, t2, t3), RoundKey(w, n + 2));
        s0 := TeWord(box, t0, t1, t2, t3, eK[rk]);
        s1 := TeWord(box, t1, t2, t3, t0, eK[rk + 1]);
        s2 := TeWord(box, t2, t3, t0, t1, eK[rk + 2]);
        s3 := TeWord(box, t3, t0, t1, t2, eK[rk + 3]);
      }
      TeLastRound(box, State(t0, t1, t2, t3), RoundKey(w, Nr));
      s0 := TeLast(box, t0, t1, t2, t3, eK[rk]);
      s1 := TeLast(box, t1, t2, t3, t0, eK[rk + 1]);
      s2 := TeLast(box, t2, t3, t0, t1, eK[rk + 2]);
      s3 := TeLast(box, t3, t0, t1, t2, eK[rk + 3]);
      assert State(s0, s1, s2, s3) == Cipher(box, w, Nr, input);
      ct := PutWords(s0, s1, s2, s3);
    }

    /** Decrypts a block of 16 bytes, two rounds per pass. */
    method EcbDecrypt(ct: seq<bv8>) returns (pt: seq<bv8>)
      requires Valid() && |ct| == 16 && Nr % 2 == 0 && 2 <= Nr <= 14
      ensures pt == Store(EqInvCipher(box, dK[..], Nr, Load(ct)))
    {
      hide TdWord, TdLast, InvRound, InvLastRound, Xor, KeyBytes, Store, StoreWord;
      ghost var w, input := dK[..], Load(ct);
      var s0 := Xor(KeyBytes(ct, 0), dK[0]);
      var s1 := Xor(KeyBytes(ct, 1), dK[1]);
      var s2 := Xor(KeyBytes(ct, 2), dK[2]);
      var s3 := Xor(KeyBytes(ct, 3), dK[3]);
      var rk, r := 0, Nr / 2;
      var t0, t1, t2, t3;
      while true
        invariant 0 < r <= Nr / 2 && rk == 4 * (Nr - 2 * r)
        invariant State(s0, s1, s2, s3) == InvRounds(box, w, Nr - 2 * r, input)
        decreases r
      {
        ghost var n := Nr - 2 * r;
        TdRound(box, State(s0, s1, s2, s3), RoundKey(w, n + 1));
        t0 := TdWord(box, s0, s3, s2, s1, dK[rk + 4]);
        t1 := TdWord(box, s1, s0, s3, s2, dK[rk + 5]);
        t2 := TdWord(box, s2, s1, s0, s3, dK[rk + 6]);
        t3 := TdWord(box, s3, s2, s1, s0, dK[rk + 7]);
        assert State(t0, t1, t2, t3) == InvRounds(box, w, n + 1, input);
        rk := rk + 8;
        r := r - 1;
        if r == 0 {
          break;
        }
        TdRound(box, State(t0, t1, t2, t3), RoundKey(w, n + 2));
        s0 := TdWord(box, t0, t3, t2, t1, dK[rk]);
        s1 := TdWord(box, t1, t0, t3, t2, dK[rk + 1]);
        s2 := TdWord(box, t2, t1, t0, t3, dK[rk + 2]);
        s3 := TdWord(box, t3, t2, t1, t0, dK[rk + 3]);
      }
      TdLastRound(box, State(t0, t1, t2, t3), RoundKey(w, Nr));
      s0 := TdLast(box, t0, t3, t2, t1, dK[rk]);
      s1 := TdLast(box, t1, t0, t3, t2, dK[rk + 1]);
      s2 := TdLast(box, t2, t1, t0, t3, dK[rk + 2]);
      s3 := TdLast(box, t3, t2, t1, t0, dK[rk + 3]);
      assert State(s0, s1, s2, s3) == EqInvCipher(box, w, Nr, input);
      pt := PutWords(s0, s1, s2, s3);
    }

    /** With a scheduled key, decryption gives back every block that was encrypted. */
    method EncryptThenDecrypt(key: seq<bv8>, pt: seq<bv8>) returns (ct: seq<bv8>, back: seq<bv8>)
      requires Scheduled(key) && Inverse(box) && |pt| == 16
      ensures ct == Store(Cipher(box, eK[..], Nr, Load(pt))) && back == pt
    {
      hide Cipher, EqInvCipher, Load, Store;
      ct := EcbEncrypt(pt);
      back := EcbDecrypt(ct);
      LoadStored(Cipher(box, eK[..], Nr, Load(pt)));
      CipherUndone(box, eK[..], dK[..], Nr, Load(pt));
      StoreLoaded(pt);
    }
  }
}
