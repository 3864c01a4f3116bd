/**
 * The cipher of FIPS 197 in the words of the standard: key expansion, cipher and equivalent inverse cipher
 * (sections 5.1, 5.2 and 5.3.5), for any S-box with an inverse.
 */
module AesSpec {
  import opened AesField

  /** The substitution table and its inverse. */
  datatype Box = Box(s: bv8 -> bv8, si: bv8 -> bv8)

  ghost predicate Inverse(box: Box) {
    forall x: bv8 :: box.si(box.s(x)) == x
  }

  function SubWord(box: Box, w: Word): Word {
    Word(box.s(w.b3), box.s(w.b2), box.s(w.b1), box.s(w.b0))
  }

  function InvSubWord(box: Box, w: Word): Word {
    Word(box.si(w.b3), box.si(w.b2), box.si(w.b1), box.si(w.b0))
  }

  // ---- the state ----

  /** The state as its four columns. */
  datatype State = State(c0: Word, c1: Word, c2: Word, c3: Word)

  function AddKey(s: State, k: State): State {
    State(Xor(s.c0, k.c0), Xor(s.c1, k.c1), Xor(s.c2, k.c2), Xor(s.c3, k.c3))
  }

  function SubBytes(box: Box, s: State): State {
    State(SubWord(box, s.c0), SubWord(box, s.c1), SubWord(box, s.c2), SubWord(box, s.c3))
  }

  function InvSubBytes(box: Box, s: State): State {
    State(InvSubWord(box, s.c0), InvSubWord(box, s.c1), InvSubWord(box, s.c2), InvSubWord(box, s.c3))
  }

  /** Row r moves r places to the left. */
  function ShiftRows(s: State): State {
    State(Word(s.c0.b3, s.c1.b2, s.c2.b1, s.c3.b0), Word(s.c1.b3, s.c2.b2, s.c3.b1, s.c0.b0),
          Word(s.c2.b3, s.c3.b2, s.c0.b1, s.c1.b0), Word(s.c3.b3, s.c0.b2, s.c1.b1, s.c2.b0))
  }

  /** Row r moves r places to the right. */
  function InvShiftRows(s: State): State {
    State(Word(s.c0.b3, s.c3.b2, s.c2.b1, s.c1.b0), Word(s.c1.b3, s.c0.b2, s.c3.b1, s.c2.b0),
          Word(s.c2.b3, s.c1.b2, s.c0.b1, s.c3.b0), Word(s.c3.b3, s.c2.b2, s.c1.b1, s.c0.b0))
  }

  function MixColumns(s: State): State {
    State(MixColumn(s.c0), MixColumn(s.c1), MixColumn(s.c2), MixColumn(s.c3))
  }

  function InvMixColumns(s: State): State {
    State(InvMixColumn(s.c0), InvMixColumn(s.c1), InvMixColumn(s.c2), InvMixColumn(s.c3))
  }

  lemma ShiftUndone(s: State)
    ensures InvShiftRows(ShiftRows(s)) == s
  {
  }

  lemma SubUndone(box: Box, s: State)
    requires Inverse(box)
    ensures InvSubBytes(box, SubBytes(box, s)) == s
  {
  }

  lemma SubShiftCommute(box: Box, s: State)
    ensures InvShiftRows(InvSubBytes(box, s)) == InvSubBytes(box, InvShiftRows(s))
  {
  }

  lemma MixColumnsUndone(s: State, k: State)
    ensures InvMixColumns(AddKey(MixColumns(s), k)) == AddKey(s, InvMixColumns(k))
  {
    hide Xor, MixColumn, InvMixColumn;
    InvMixLinear(MixColumn(s.c0), k.c0);
    InvMixLinear(MixColumn(s.c1), k.c1);
    InvMixLinear(MixColumn(s.c2), k.c2);
    InvMixLinear(MixColumn(s.c3), k.c3);
    MixUndone(s.c0);
    MixUndone(s.c1);
    MixUndone(s.c2);
    MixUndone(s.c3);
  }

  lemma AddKeyTwice(s: State, k: State)
    ensures AddKey(AddKey(s, k), k) == s
  {
    hide Xor;
    XorCancel(s.c0, k.c0);
    XorCancel(s.c1, k.c1);
    XorCancel(s.c2, k.c2);
    XorCancel(s.c3, k.c3);
  }

  // ---- the cipher ----

  /** The round keys in a row of words. */
  function RoundKey(w: seq<Word>, r: nat): State
    requires 4 * r + 4 <= |w|
  {
    State(w[4 * r], w[4 * r + 1], w[4 * r + 2], w[4 * r + 3])
  }

  function Round(box: Box, s: State, k: State): State {
    AddKey(MixColumns(ShiftRows(SubBytes(box, s))), k)
  }

  function LastRound(box: Box, s: State, k: State): State {
    AddKey(ShiftRows(SubBytes(box, s)), k)
  }

  /** The state after the initial key and n full rounds. */
  function Rounds(box: Box, w: seq<Word>, n: nat, input: State): State
    requires 4 * n + 4 <= |w|
  {
    if n == 0 then AddKey(input, RoundKey(w, 0)) else Round(box, Rounds(box, w, n - 1, input), RoundKey(w, n))
  }

  function Cipher(box: Box, w: seq<Word>, nr: nat, input: State): State
    requires nr > 0 && 4 * nr + 4 <= |w|
  {
    LastRound(box, Rounds(box, w, nr - 1, input), RoundKey(w, nr))
  }

  // ---- the equivalent inverse cipher ----

  function InvRound(box: Box, s: State, k: State): State {
    AddKey(InvMixColumns(InvShiftRows(InvSubBytes(box, s))), k)
  }

  function InvLastRound(box: Box, s: State, k: State): State {
    AddKey(InvShiftRows(InvSubBytes(box, s)), k)
  }

  function InvRounds(box: Box, dw: seq<Word>, n: nat, input: State): State
    requires 4 * n + 4 <= |dw|
  {
    if n == 0 then AddKey(input, RoundKey(dw, 0)) else InvRound(box, InvRounds(box, dw, n - 1, input), RoundKey(dw, n))
  }

  function EqInvCipher(box: Box, dw: seq<Word>, nr: nat, input: State): State
    requires nr > 0 && 4 * nr + 4 <= |dw|
  {
    InvLastRound(box, InvRounds(box, dw, nr - 1, input), RoundKey(dw, nr))
  }

  /** The decryption schedule: the round keys in reverse order, all but the first and the last unmixed. */
  predicate DerivedSchedule(w: seq<Word>, dw: seq<Word>, nr: nat) {
    && 4 * nr + 4 <= |w| && 4 * nr + 4 <= |dw|
    && forall r :: 0 <= r <= nr ==>
         RoundKey(dw, r) == if r == 0 || r == nr then RoundKey(w, nr - r) else InvMixColumns(RoundKey(w, nr - r))
  }

  /** After n inverse rounds the state is that of the cipher before its last n + 1 rounds, with substitution and shift done. */
  lemma {:induction false} RoundsUndone(box: Box, w: seq<Word>, dw: seq<Word>, nr: nat, input: State, n: nat)
    requires Inverse(box) && 0 < nr && DerivedSchedule(w, dw, nr) && n < nr
    ensures InvRounds(box, dw, n, Cipher(box, w, nr, input))
            == ShiftRows(SubBytes(box, Rounds(box, w, nr - 1 - n, input)))
  {
    hide AddKey, SubBytes, InvSubBytes, ShiftRows, InvShiftRows, MixColumns, InvMixColumns, RoundKey;
    if n == 0 {
      AddKeyTwice(ShiftRows(SubBytes(box, Rounds(box, w, nr - 1, input))), RoundKey(w, nr));
    } else {
      RoundsUndone(box, w, dw, nr, input, n - 1);
      var m := nr - n;
      var s := ShiftRows(SubBytes(box, Rounds(box, w, m - 1, input)));
      StepUndone(box, s, RoundKey(w, m));
      assert RoundKey(dw, n) == InvMixColumns(RoundKey(w, m));
    }
  }

  lemma StepUndone(box: Box, s: State, k: State)
    requires Inverse(box)
    ensures InvRound(box, ShiftRows(SubBytes(box, AddKey(MixColumns(s), k))), InvMixColumns(k)) == s
  {
    hide AddKey, SubBytes, InvSubBytes, ShiftRows, InvShiftRows, MixColumns, InvMixColumns;
    SubShiftUndone(box, AddKey(MixColumns(s), k));
    MixColumnsUndone(s, k);
    AddKeyTwice(s, InvMixColumns(k));
  }

  lemma SubShiftUndone(box: Box, s: State)
    requires Inverse(box)
    ensures InvShiftRows(InvSubBytes(box, ShiftRows(SubBytes(box, s)))) == s
  {
    hide SubBytes, InvSubBytes, ShiftRows, InvShiftRows;
    SubShiftCommute(box, ShiftRows(SubBytes(box, s)));
    ShiftUndone(SubBytes(box, s));
    SubUndone(box, s);
  }

  /** Decryption undoes encryption, for every schedule and every number of rounds. */
  lemma CipherUndone(box: Box, w: seq<Word>, dw: seq<Word>, nr: nat, input: State)
    requires Inverse(box) && 0 < nr && DerivedSchedule(w, dw, nr)
    ensures EqInvCipher(box, dw, nr, Cipher(box, w, nr, input)) == input
  {
    hide AddKey, SubBytes, InvSubBytes, ShiftRows, InvShiftRows, RoundKey;
    RoundsUndone(box, w, dw, nr, input, nr - 1);
    SubShiftUndone(box, Rounds(box, w, 0, input));
    assert RoundKey(dw, nr) == RoundKey(w, 0);
    AddKeyTwice(input, RoundKey(w, 0));
  }

  // ---- key expansion ----

  function RotWord(w: Word): Word { Word(w.b2, w.b1, w.b0, w.b3) }

  /** The round constant: a power of x. */
  function RconByte(j: nat): bv8
    requires j > 0
  {
    if j == 1 then 1 else XTime(RconByte(j - 1))
  }

  function KeyBytes(key: seq<bv8>, i: nat): Word
    requires 4 * i + 4 <= |key|
  {
    Word(key[4 * i], key[4 * i + 1], key[4 * i + 2], key[4 * i + 3])
  }

  /** Word i of the expanded key; nk is the key length in words. */
  function KeyWord(box: Box, key: seq<bv8>, nk: nat, i: nat): Word
    requires nk > 0 && |key| == 4 * nk
  {
    if i < nk then KeyBytes(key, i)
    else
      var temp := KeyWord(box, key, nk, i - 1);
      Xor(KeyWord(box, key, nk, i - nk),
          if i % nk == 0 then Xor(SubWord(box, RotWord(temp)), Word(RconByte(i / nk), 0, 0, 0))
          else if nk > 6 && i % nk == 4 then SubWord(box, temp)
          else temp)
  }
}
