/** Bytes as elements of GF(2^8) and the mixing of columns, sections 4 and 5 of FIPS 197. */
module AesField {

  function Add(a: bv8, b: bv8): bv8 { a ^ b }

  function Reduction(top: bv8): bv8 { if top != 0 then 0x1b else 0 }

  /** Multiplication by x. */
  function XTime(b: bv8): bv8 {
    Add(b << 1, Reduction(b & 0x80))
  }

  function X2(b: bv8): bv8 { XTime(XTime(b)) }
  function X3(b: bv8): bv8 { XTime(XTime(XTime(b))) }

  function Mul3(b: bv8): bv8 { Add(XTime(b), b) }
  function Mul9(b: bv8): bv8 { Add(X3(b), b) }
  function MulB(b: bv8): bv8 { Add(Add(X3(b), XTime(b)), b) }
  function MulD(b: bv8): bv8 { Add(Add(X3(b), X2(b)), b) }
  function MulE(b: bv8): bv8 { Add(Add(X3(b), X2(b)), XTime(b)) }

  // ---- laws of addition ----

  lemma AddCommutes(a: bv8, b: bv8)
    ensures Add(a, b) == Add(b, a)
  {
  }

  lemma AddAssociates(a: bv8, b: bv8, c: bv8)
    ensures Add(Add(a, b), c) == Add(a, Add(b, c))
  {
  }

  lemma Swap(a: bv8, b: bv8, c: bv8, d: bv8)
    ensures Add(Add(a, b), Add(c, d)) == Add(Add(a, c), Add(b, d))
  {
    hide Add;
    AddAssociates(Add(a, b), c, d);
    AddAssociates(a, b, c);
    AddCommutes(b, c);
    AddAssociates(a, c, b);
    AddAssociates(Add(a, c), b, d);
  }

  lemma Cancel(a: bv8, b: bv8)
    ensures Add(Add(a, b), b) == a && Add(a, a) == 0 && Add(a, 0) == a && Add(0, a) == a
  {
  }

  function Sum4(a: bv8, b: bv8, c: bv8, d: bv8): bv8 { Add(Add(a, b), Add(c, d)) }

  lemma SwapSum4(a: bv8, b: bv8, c: bv8, d: bv8, e: bv8, f: bv8, g: bv8, h: bv8)
    ensures Sum4(Add(a, b), Add(c, d), Add(e, f), Add(g, h)) == Add(Sum4(a, c, e, g), Sum4(b, d, f, h))
  {
    hide Add;
    Swap(a, b, c, d);
    Swap(e, f, g, h);
    Swap(Add(a, c), Add(b, d), Add(e, g), Add(f, h));
  }

  lemma Rotate(a: bv8, b: bv8, c: bv8, d: bv8)
    ensures Sum4(a, b, c, d) == Sum4(d, a, b, c) == Sum4(c, d, a, b) == Sum4(b, c, d, a)
  {
    hide Add;
    AddCommutes(a, b);
    AddCommutes(a, d);
    Swap(b, a, c, d);
    AddCommutes(Add(b, c), Add(a, d));
    AddCommutes(Add(a, b), Add(c, d));
  }

  // ---- multiplication is linear ----

  lemma ShiftLinear(a: bv8, b: bv8)
    ensures Add(a, b) << 1 == Add(a << 1, b << 1)
    ensures Add(a, b) & 0x80 == Add(a & 0x80, b & 0x80)
    ensures (a & 0x80 == 0 || a & 0x80 == 0x80) && (b & 0x80 == 0 || b & 0x80 == 0x80)
  {
  }

  lemma ReductionLinear(a: bv8, b: bv8)
    requires (a == 0 || a == 0x80) && (b == 0 || b == 0x80)
    ensures Reduction(Add(a, b)) == Add(Reduction(a), Reduction(b))
  {
  }

  lemma XTimeLinear(a: bv8, b: bv8)
    ensures XTime(Add(a, b)) == Add(XTime(a), XTime(b))
  {
    hide Add, Reduction;
    ShiftLinear(a, b);
    ReductionLinear(a & 0x80, b & 0x80);
    Swap(a << 1, b << 1, Reduction(a & 0x80), Reduction(b & 0x80));
  }

  lemma PowersLinear(a: bv8, b: bv8)
    ensures X2(Add(a, b)) == Add(X2(a), X2(b)) && X3(Add(a, b)) == Add(X3(a), X3(b))
  {
    hide Add, XTime;
    XTimeLinear(a, b);
    XTimeLinear(XTime(a), XTime(b));
    XTimeLinear(X2(a), X2(b));
  }

  lemma MulLinear(a: bv8, b: bv8)
    ensures Mul9(Add(a, b)) == Add(Mul9(a), Mul9(b)) && MulB(Add(a, b)) == Add(MulB(a), MulB(b))
    ensures MulD(Add(a, b)) == Add(MulD(a), MulD(b)) && MulE(Add(a, b)) == Add(MulE(a), MulE(b))
  {
    hide Add, XTime, X2, X3;
    XTimeLinear(a, b);
    PowersLinear(a, b);
    Swap(X3(a), X3(b), a, b);
    Swap(X3(a), X3(b), XTime(a), XTime(b));
    Swap(Add(X3(a), XTime(a)), Add(X3(b), XTime(b)), a, b);
    Swap(X3(a), X3(b), X2(a), X2(b));
    Swap(Add(X3(a), X2(a)), Add(X3(b), X2(b)), a, b);
    Swap(Add(X3(a), X2(a)), Add(X3(b), X2(b)), XTime(a), XTime(b));
  }

  // ---- columns ----

  /** A 32-bit word as its four bytes, the most significant first; a column of the state, top to bottom. */
  datatype Word = Word(b3: bv8, b2: bv8, b1: bv8, b0: bv8)

  function Xor(u: Word, w: Word): Word {
    Word(Add(u.b3, w.b3), Add(u.b2, w.b2), Add(u.b1, w.b1), Add(u.b0, w.b0))
  }

  lemma XorCancel(u: Word, w: Word)
    ensures Xor(Xor(u, w), w) == u
  {
    hide Add;
    Cancel(u.b3, w.b3);
    Cancel(u.b2, w.b2);
    Cancel(u.b1, w.b1);
    Cancel(u.b0, w.b0);
  }

  /** Rows of the two matrices; every row has the factors of the first one, rotated. */
  function MixRow(a: bv8, b: bv8, c: bv8, d: bv8): bv8 { Sum4(XTime(a), Mul3(b), c, d) }
  function InvRow(a: bv8, b: bv8, c: bv8, d: bv8): bv8 { Sum4(MulE(a), MulB(b), MulD(c), Mul9(d)) }

  function MixColumn(w: Word): Word {
    Word(MixRow(w.b3, w.b2, w.b1, w.b0), MixRow(w.b2, w.b1, w.b0, w.b3),
         MixRow(w.b1, w.b0, w.b3, w.b2), MixRow(w.b0, w.b3, w.b2, w.b1))
  }

  function InvMixColumn(w: Word): Word {
    Word(InvRow(w.b3, w.b2, w.b1, w.b0), InvRow(w.b2, w.b1, w.b0, w.b3),
         InvRow(w.b1, w.b0, w.b3, w.b2), InvRow(w.b0, w.b3, w.b2, w.b1))
  }

  lemma InvRowLinear(a: bv8, b: bv8, c: bv8, d: bv8, e: bv8, f: bv8, g: bv8, h: bv8)
    ensures InvRow(Add(a, b), Add(c, d), Add(e, f), Add(g, h)) == Add(InvRow(a, c, e, g), InvRow(b, d, f, h))
  {
    hide Add, Mul9, MulB, MulD, MulE, Sum4;
    MulLinear(a, b);
    MulLinear(c, d);
    MulLinear(e, f);
    MulLinear(g, h);
    SwapSum4(MulE(a), MulE(b), MulB(c), MulB(d), MulD(e), MulD(f), Mul9(g), Mul9(h));
  }

  lemma InvMixLinear(u: Word, w: Word)
    ensures InvMixColumn(Xor(u, w)) == Xor(InvMixColumn(u), InvMixColumn(w))
  {
    hide Add, InvRow;
    InvRowLinear(u.b3, w.b3, u.b2, w.b2, u.b1, w.b1, u.b0, w.b0);
    InvRowLinear(u.b2, w.b2, u.b1, w.b1, u.b0, w.b0, u.b3, w.b3);
    InvRowLinear(u.b1, w.b1, u.b0, w.b0, u.b3, w.b3, u.b2, w.b2);
    InvRowLinear(u.b0, w.b0, u.b3, w.b3, u.b2, w.b2, u.b1, w.b1);
  }

  // ---- the two mixings undo each other ----

  /** A sum of chosen ones among five bytes: the powers of x, times one byte, that turn up in the product. */
  function Chosen(p: bool, v: bv8): bv8 { if p then v else 0 }

  function Choice(p: bool, q: bool, r: bool, s: bool, t: bool, d: bv8, c: bv8, b: bv8, x: bv8, a: bv8): bv8 {
    Add(Add(Add(Add(Chosen(p, d), Chosen(q, c)), Chosen(r, b)), Chosen(s, x)), Chosen(t, a))
  }

  lemma ChosenTwice(p: bool, q: bool, v: bv8)
    ensures Add(Chosen(p, v), Chosen(q, v)) == Chosen(p != q, v)
  {
    hide Add;
    Cancel(v, v);
    Cancel(0, 0);
  }

  /** Adding two choices: what is chosen twice cancels. */
  lemma ChoiceAdd(p: bool, q: bool, r: bool, s: bool, t: bool, p': bool, q': bool, r': bool, s': bool, t': bool,
                  d: bv8, c: bv8, b: bv8, x: bv8, a: bv8)
    ensures Add(Choice(p, q, r, s, t, d, c, b, x, a), Choice(p', q', r', s', t', d, c, b, x, a))
            == Choice(p != p', q != q', r != r', s != s', t != t', d, c, b, x, a)
  {
    hide Add, Chosen;
    ChosenTwice(p, p', d);
    ChosenTwice(q, q', c);
    ChosenTwice(r, r', b);
    ChosenTwice(s, s', x);
    ChosenTwice(t, t', a);
    var u1, v1 := Add(Chosen(p, d), Chosen(q, c)), Add(Chosen(p', d), Chosen(q', c));
    var u2, v2 := Add(u1, Chosen(r, b)), Add(v1, Chosen(r', b));
    var u3, v3 := Add(u2, Chosen(s, x)), Add(v2, Chosen(s', x));
    Swap(Chosen(p, d), Chosen(q, c), Chosen(p', d), Chosen(q', c));
    Swap(u1, Chosen(r, b), v1, Chosen(r', b));
    Swap(u2, Chosen(s, x), v2, Chosen(s', x));
    Swap(u3, Chosen(t, a), v3, Chosen(t', a));
  }

  lemma Zero(a: bv8)
    ensures Add(a, 0) == a && Add(0, a) == a
  {
  }

  /** The eight products that turn up, as choices among x^4 a, x^3 a, x^2 a, x a and a. */
  lemma Products(a: bv8)
    ensures var d, c, b, x := X3(XTime(a)), X3(a), X2(a), XTime(a);
      && MulE(x) == Choice(true, true, true, false, false, d, c, b, x, a)
      && MulE(a) == Choice(false, true, true, true, false, d, c, b, x, a)
      && MulB(x) == Choice(true, false, true, true, false, d, c, b, x, a)
      && MulB(a) == Choice(false, true, false, true, true, d, c, b, x, a)
      && MulD(x) == Choice(true, true, false, true, false, d, c, b, x, a)
      && MulD(a) == Choice(false, true, true, false, true, d, c, b, x, a)
      && Mul9(x) == Choice(true, false, false, true, false, d, c, b, x, a)
      && Mul9(a) == Choice(false, true, false, false, true, d, c, b, x, a)
  {
    hide Add, XTime;
    var d, c, b, x := X3(XTime(a)), X3(a), X2(a), XTime(a);
    Zero(d);
    Zero(c);
    Zero(0);
    Zero(Add(d, c));
    Zero(Add(Add(d, c), b));
    Zero(Add(Add(d, c), x));
    Zero(Add(Add(c, b), x));
    Zero(Add(Add(d, b), x));
    Zero(Add(d, x));
    Zero(Add(c, b));
  }

  /**
   * What one byte contributes to the first row of the product of the two matrices: itself in its own place,
   * nothing elsewhere. The powers of x cancel in pairs, so the reduction plays no part.
   */
  lemma OwnCoefficient(a: bv8)
    ensures Sum4(MulE(XTime(a)), MulB(a), MulD(a), Mul9(Mul3(a))) == a
  {
    hide Add, XTime, X2, X3, Choice, MulE, MulB, MulD, Mul9;
    var d, c, b, x := X3(XTime(a)), X3(a), X2(a), XTime(a);
    Products(a);
    MulLinear(x, a);
    ChoiceAdd(true, true, true, false, false, false, true, false, true, true, d, c, b, x, a);
    ChoiceAdd(true, false, false, true, false, false, true, false, false, true, d, c, b, x, a);
    ChoiceAdd(false, true, true, false, true, true, true, false, true, true, d, c, b, x, a);
    ChoiceAdd(true, false, true, true, true, true, false, true, true, false, d, c, b, x, a);
    Alone(d, c, b, x, a);
  }

  lemma Alone(d: bv8, c: bv8, b: bv8, x: bv8, a: bv8)
    ensures Choice(false, false, false, false, true, d, c, b, x, a) == a
    ensures Choice(false, false, false, false, false, d, c, b, x, a) == 0
  {
    hide Add;
    Zero(0);
    Zero(a);
  }

  lemma SecondCoefficient(a: bv8)
    ensures Sum4(MulE(Mul3(a)), MulB(XTime(a)), MulD(a), Mul9(a)) == 0
  {
    hide Add, XTime, X2, X3, Choice, MulE, MulB, MulD, Mul9;
    var d, c, b, x := X3(XTime(a)), X3(a), X2(a), XTime(a);
    Products(a);
    MulLinear(x, a);
    ChoiceAdd(true, true, true, false, false, false, true, true, true, false, d, c, b, x, a);
    ChoiceAdd(true, false, false, true, false, true, false, true, true, false, d, c, b, x, a);
    ChoiceAdd(false, true, true, false, true, false, true, false, false, true, d, c, b, x, a);
    ChoiceAdd(false, false, true, false, false, false, false, true, false, false, d, c, b, x, a);
    Alone(d, c, b, x, a);
  }

  lemma ThirdCoefficient(a: bv8)
    ensures Sum4(MulE(a), MulB(Mul3(a)), MulD(XTime(a)), Mul9(a)) == 0
  {
    hide Add, XTime, X2, X3, Choice, MulE, MulB, MulD, Mul9;
    var d, c, b, x := X3(XTime(a)), X3(a), X2(a), XTime(a);
    Products(a);
    MulLinear(x, a);
    ChoiceAdd(true, false, true, true, false, false, true, false, true, true, d, c, b, x, a);
    ChoiceAdd(false, true, true, true, false, true, true, true, false, true, d, c, b, x, a);
    ChoiceAdd(true, true, false, true, false, false, true, false, false, true, d, c, b, x, a);
    ChoiceAdd(true, false, false, true, true, true, false, false, true, true, d, c, b, x, a);
    Alone(d, c, b, x, a);
  }

  lemma FourthCoefficient(a: bv8)
    ensures Sum4(MulE(a), MulB(a), MulD(Mul3(a)), Mul9(XTime(a))) == 0
  {
    hide Add, XTime, X2, X3, Choice, MulE, MulB, MulD, Mul9;
    var d, c, b, x := X3(XTime(a)), X3(a), X2(a), XTime(a);
    Products(a);
    MulLinear(x, a);
    ChoiceAdd(false, true, true, true, false, false, true, false, true, true, d, c, b, x, a);
    ChoiceAdd(true, true, false, true, false, false, true, true, false, true, d, c, b, x, a);
    ChoiceAdd(true, false, true, true, true, true, false, false, true, false, d, c, b, x, a);
    ChoiceAdd(false, false, true, false, true, false, false, true, false, true, d, c, b, x, a);
    Alone(d, c, b, x, a);
  }

  lemma MulSum4(a: bv8, b: bv8, c: bv8, d: bv8)
    ensures MulE(Sum4(a, b, c, d)) == Sum4(MulE(a), MulE(b), MulE(c), MulE(d))
    ensures MulB(Sum4(a, b, c, d)) == Sum4(MulB(a), MulB(b), MulB(c), MulB(d))
    ensures MulD(Sum4(a, b, c, d)) == Sum4(MulD(a), MulD(b), MulD(c), MulD(d))
    ensures Mul9(Sum4(a, b, c, d)) == Sum4(Mul9(a), Mul9(b), Mul9(c), Mul9(d))
  {
    hide Add, Mul9, MulB, MulD, MulE;
    MulLinear(a, b);
    MulLinear(c, d);
    MulLinear(Add(a, b), Add(c, d));
  }

  /** A sum of four sums of four, by rows and by columns. */
  lemma Transpose(a: bv8, b: bv8, c: bv8, d: bv8, e: bv8, f: bv8, g: bv8, h: bv8,
                  i: bv8, j: bv8, k: bv8, l: bv8, m: bv8, n: bv8, o: bv8, p: bv8)
    ensures Sum4(Sum4(a, b, c, d), Sum4(e, f, g, h), Sum4(i, j, k, l), Sum4(m, n, o, p))
            == Sum4(Sum4(a, e, i, m), Sum4(b, f, j, n), Sum4(c, g, k, o), Sum4(d, h, l, p))
  {
    hide Add;
    SwapSum4(Add(a, b), Add(c, d), Add(e, f), Add(g, h), Add(i, j), Add(k, l), Add(m, n), Add(o, p));
    SwapSum4(a, b, e, f, i, j, m, n);
    SwapSum4(c, d, g, h, k, l, o, p);
  }

  lemma RowUndone(a: bv8, b: bv8, c: bv8, d: bv8)
    ensures InvRow(MixRow(a, b, c, d), MixRow(b, c, d, a), MixRow(c, d, a, b), MixRow(d, a, b, c)) == a
  {
    hide Add, Sum4, XTime, Mul3, Mul9, MulB, MulD, MulE;
    Rotate(XTime(b), Mul3(c), d, a);
    Rotate(XTime(c), Mul3(d), a, b);
    Rotate(XTime(d), Mul3(a), b, c);
    MulSum4(XTime(a), Mul3(b), c, d);
    MulSum4(a, XTime(b), Mul3(c), d);
    MulSum4(a, b, XTime(c), Mul3(d));
    MulSum4(Mul3(a), b, c, XTime(d));
    Transpose(MulE(XTime(a)), MulE(Mul3(b)), MulE(c), MulE(d),
              MulB(a), MulB(XTime(b)), MulB(Mul3(c)), MulB(d),
              MulD(a), MulD(b), MulD(XTime(c)), MulD(Mul3(d)),
              Mul9(Mul3(a)), Mul9(b), Mul9(c), Mul9(XTime(d)));
    OwnCoefficient(a);
    SecondCoefficient(b);
    ThirdCoefficient(c);
    FourthCoefficient(d);
    OnlyFirst(a);
  }

  lemma OnlyFirst(a: bv8)
    ensures Sum4(a, 0, 0, 0) == a
  {
  }

  lemma MixUndone(w: Word)
    ensures InvMixColumn(MixColumn(w)) == w
  {
    hide InvRow, MixRow;
    RowUndone(w.b3, w.b2, w.b1, w.b0);
    RowUndone(w.b2, w.b1, w.b0, w.b3);
    RowUndone(w.b1, w.b0, w.b3, w.b2);
    RowUndone(w.b0, w.b3, w.b2, w.b1);
  }
}
