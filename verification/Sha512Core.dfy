/**
 * The compression function of SHA-512, sections 4.1.3, 4.2.3, 5.2.2 and 6.4.2 of FIPS 180-4, and the two loops
 * that compute it: one round at a time with shifting registers, and eight rounds with rotated names.
 */
module Sha512Core {

  /** One of eight. */
  function Pick(i: nat, a: bv64, b: bv64, c: bv64, d: bv64, e: bv64, f: bv64, g: bv64, h: bv64): bv64
    requires i < 8
  {
    if i < 4 then if i < 2 then if i == 0 then a else b else if i == 2 then c else d
    else if i < 6 then if i == 4 then e else f else if i == 6 then g else h
  }

  /** The eighty constants of section 4.2.3. */
  function RoundConstant(i: nat): bv64
    requires i < 80
  {
    match i / 8
    case 0 => Pick(i % 8,
        0x428a2f98_d728ae22, 0x71374491_23ef65cd, 0xb5c0fbcf_ec4d3b2f, 0xe9b5dba5_8189dbbc,
        0x3956c25b_f348b538, 0x59f111f1_b605d019, 0x923f82a4_af194f9b, 0xab1c5ed5_da6d8118)
    case 1 => Pick(i % 8,
        0xd807aa98_a3030242, 0x12835b01_45706fbe, 0x243185be_4ee4b28c, 0x550c7dc3_d5ffb4e2,
        0x72be5d74_f27b896f, 0x80deb1fe_3b1696b1, 0x9bdc06a7_25c71235, 0xc19bf174_cf692694)
    case 2 => Pick(i % 8,
        0xe49b69c1_9ef14ad2, 0xefbe4786_384f25e3, 0x0fc19dc6_8b8cd5b5, 0x240ca1cc_77ac9c65,
        0x2de92c6f_592b0275, 0x4a7484aa_6ea6e483, 0x5cb0a9dc_bd41fbd4, 0x76f988da_831153b5)
    case 3 => Pick(i % 8,
        0x983e5152_ee66dfab, 0xa831c66d_2db43210, 0xb00327c8_98fb213f, 0xbf597fc7_beef0ee4,
        0xc6e00bf3_3da88fc2, 0xd5a79147_930aa725, 0x06ca6351_e003826f, 0x14292967_0a0e6e70)
    case 4 => Pick(i % 8,
        0x27b70a85_46d22ffc, 0x2e1b2138_5c26c926, 0x4d2c6dfc_5ac42aed, 0x53380d13_9d95b3df,
        0x650a7354_8baf63de, 0x766a0abb_3c77b2a8, 0x81c2c92e_47edaee6, 0x92722c85_1482353b)
    case 5 => Pick(i % 8,
        0xa2bfe8a1_4cf10364, 0xa81a664b_bc423001, 0xc24b8b70_d0f89791, 0xc76c51a3_0654be30,
        0xd192e819_d6ef5218, 0xd6990624_5565a910, 0xf40e3585_5771202a, 0x106aa070_32bbd1b8)
    case 6 => Pick(i % 8,
        0x19a4c116_b8d2d0c8, 0x1e376c08_5141ab53, 0x2748774c_df8eeb99, 0x34b0bcb5_e19b48a8,
        0x391c0cb3_c5c95a63, 0x4ed8aa4a_e3418acb, 0x5b9cca4f_7763e373, 0x682e6ff3_d6b2b8a3)
    case 7 => Pick(i % 8,
        0x748f82ee_5defb2fc, 0x78a5636f_43172f60, 0x84c87814_a1f0ab72, 0x8cc70208_1a6439ec,
        0x90befffa_23631e28, 0xa4506ceb_de82bde9, 0xbef9a3f7_b2c67915, 0xc67178f2_e372532b)
    case 8 => Pick(i % 8,
        0xca273ece_ea26619c, 0xd186b8c7_21c0c207, 0xeada7dd6_cde0eb1e, 0xf57d4f7f_ee6ed178,
        0x06f067aa_72176fba, 0x0a637dc5_a2c898a6, 0x113f9804_bef90dae, 0x1b710b35_131c471b)
    case _ => Pick(i % 8,
        0x28db77f5_23047d84, 0x32caab7b_40c72493, 0x3c9ebe0a_15c9bebc, 0x431d67c4_9c100d4c,
        0x4cc5d4be_cb3e42b6, 0x597f299c_fc657e2a, 0x5fcb6fab_3ad6faec, 0x6c44198c_4a475817)
  }

  /** Rotation to the right. */
  function Ror(x: bv64, n: bv7): bv64
    requires 0 < n < 64
  {
    (x >> n) | (x << (64 - n))
  }

  /** The choice and the majority as sections 4.1.3 and 6.4.2 define them. */
  function Choice(x: bv64, y: bv64, z: bv64): bv64 { (x & y) ^ (!x & z) }
  function Majority(x: bv64, y: bv64, z: bv64): bv64 { (x & y) ^ (x & z) ^ (y & z) }

  /** The choice and the majority as the code computes them. */
  function Ch(x: bv64, y: bv64, z: bv64): bv64 { z ^ (x & (y ^ z)) }
  function Maj(x: bv64, y: bv64, z: bv64): bv64 { ((x | y) & z) | (x & y) }

  function Sigma0(x: bv64): bv64 { Ror(x, 28) ^ Ror(x, 34) ^ Ror(x, 39) }
  function Sigma1(x: bv64): bv64 { Ror(x, 14) ^ Ror(x, 18) ^ Ror(x, 41) }
  function Gamma0(x: bv64): bv64 { Ror(x, 1) ^ Ror(x, 8) ^ (x >> 7) }
  function Gamma1(x: bv64): bv64 { Ror(x, 19) ^ Ror(x, 61) ^ (x >> 6) }

  /** Addition modulo 2^64. */
  function Plus(x: bv64, y: bv64): bv64 { x + y }

  lemma ChBits(x: bv64, y: bv64, z: bv64)
    ensures z ^ (x & (y ^ z)) == (x & y) ^ (!x & z)
  {
  }

  lemma MajBits(x: bv64, y: bv64, z: bv64)
    ensures ((x | y) & z) | (x & y) == (x & y) ^ (x & z) ^ (y & z)
  {
  }

  /** The forms of choice and majority with fewer operations are those of the standard. */
  lemma ChIsChoice(x: bv64, y: bv64, z: bv64)
    ensures Ch(x, y, z) == Choice(x, y, z)
  {
    ChBits(x, y, z);
    assert Ch(x, y, z) == z ^ (x & (y ^ z));
  }

  lemma MajIsMajority(x: bv64, y: bv64, z: bv64)
    ensures Maj(x, y, z) == Majority(x, y, z)
  {
    MajBits(x, y, z);
    assert Maj(x, y, z) == ((x | y) & z) | (x & y);
  }

  /** The eight working variables. */
  datatype Regs = Regs(a: bv64, b: bv64, c: bv64, d: bv64, e: bv64, f: bv64, g: bv64, h: bv64)

  function T0(r: Regs, k: bv64, w: bv64): bv64 {
    Plus(Plus(Plus(Plus(r.h, Sigma1(r.e)), Choice(r.e, r.f, r.g)), k), w)
  }

  function T1(r: Regs): bv64 { Plus(Sigma0(r.a), Majority(r.a, r.b, r.c)) }

  /** One round: every variable takes its neighbour's value, two of them with a sum. */
  function Round(r: Regs, k: bv64, w: bv64): Regs {
    Regs(Plus(T0(r, k, w), T1(r)), r.a, r.b, r.c, Plus(r.d, T0(r, k, w)), r.e, r.f, r.g)
  }

  function Rounds(r: Regs, w: seq<bv64>, n: nat): Regs
    requires n <= 80 && |w| == 80
  {
    if n == 0 then r else Round(Rounds(r, w, n - 1), RoundConstant(n - 1), w[n - 1])
  }

  function Load64(b: seq<bv8>): bv64
    requires |b| == 8
  {
    (b[0] as bv64 << 56) | (b[1] as bv64 << 48) | (b[2] as bv64 << 40) | (b[3] as bv64 << 32)
    | (b[4] as bv64 << 24) | (b[5] as bv64 << 16) | (b[6] as bv64 << 8) | (b[7] as bv64)
  }

  function Store64(x: bv64): (b: seq<bv8>)
    ensures |b| == 8
  {
    [((x >> 56) & 255) as bv8, ((x >> 48) & 255) as bv8, ((x >> 40) & 255) as bv8, ((x >> 32) & 255) as bv8,
     ((x >> 24) & 255) as bv8, ((x >> 16) & 255) as bv8, ((x >> 8) & 255) as bv8, (x & 255) as bv8]
  }

  lemma LoadStored(x: bv64)
    ensures Load64(Store64(x)) == x
  {
  }

  function ScheduleNext(w2: bv64, w7: bv64, w15: bv64, w16: bv64): bv64 {
    Plus(Plus(Plus(Gamma1(w2), w7), Gamma0(w15)), w16)
  }

  /** Word i of the message schedule. */
  function ScheduleWord(block: seq<bv8>, i: nat): bv64
    requires |block| == 128 && i < 80
  {
    if i < 16 then Load64(block[8 * i..8 * i + 8])
    else
      ScheduleNext(ScheduleWord(block, i - 2), ScheduleWord(block, i - 7),
                   ScheduleWord(block, i - 15), ScheduleWord(block, i - 16))
  }

  function Schedule(block: seq<bv8>): (w: seq<bv64>)
    requires |block| == 128
    ensures |w| == 80
  {
    seq(80, i requires 0 <= i < 80 => ScheduleWord(block, i))
  }

  function AddRegs(r: Regs, s: Regs): Regs {
    Regs(Plus(r.a, s.a), Plus(r.b, s.b), Plus(r.c, s.c), Plus(r.d, s.d),
         Plus(r.e, s.e), Plus(r.f, s.f), Plus(r.g, s.g), Plus(r.h, s.h))
  }

  function Compress(state: Regs, block: seq<bv8>): Regs
    requires |block| == 128
  {
    AddRegs(state, Rounds(state, Schedule(block), 80))
  }

  // ---- the code ----

  /** The two sums of a round as the code forms them. */
  function T0Code(e: bv64, f: bv64, g: bv64, h: bv64, k: bv64, w: bv64): bv64 {
    Plus(Plus(Plus(Plus(h, Sigma1(e)), Ch(e, f, g)), k), w)
  }

  function T1Code(a: bv64, b: bv64, c: bv64): bv64 { Plus(Sigma0(a), Maj(a, b, c)) }

  lemma SumsAre(r: Regs, k: bv64, w: bv64)
    ensures T0Code(r.e, r.f, r.g, r.h, k, w) == T0(r, k, w) && T1Code(r.a, r.b, r.c) == T1(r)
  {
    hide Plus, Ch, Maj, Choice, Majority, Sigma0, Sigma1;
    ChIsChoice(r.e, r.f, r.g);
    MajIsMajority(r.a, r.b, r.c);
  }

  /** Fills the message schedule. */
  method FillSchedule(block: seq<bv8>) returns (w: array<bv64>)
    requires |block| == 128
    ensures w.Length == 80 && w[..] == Schedule(block) && fresh(w)
  {
    hide Load64, Gamma0, Gamma1, Plus, ScheduleNext;
    w := new bv64[80](_ => 0);
    for i := 0 to 16
      invariant forall k :: 0 <= k < i ==> w[k] == ScheduleWord(block, k)
    {
      w[i] := Load64(block[8 * i..8 * i + 8]);
    }
    for i := 16 to 80
      invariant forall k :: 0 <= k < i ==> w[k] == ScheduleWord(block, k)
    {
      w[i] := ScheduleNext(w[i - 2], w[i - 7], w[i - 15], w[i - 16]);
    }
  }

  function Turn(i: nat): (j: nat)
    requires i < 16
    ensures j < 8
  {
    if i < 8 then i else i - 8
  }

  /** The working variables in an array, the first of them at place `at`. */
  function RegsAt(s: seq<bv64>, at: nat): Regs
    requires |s| == 8 && at < 8
  {
    Regs(s[at], s[Turn(at + 1)], s[Turn(at + 2)], s[Turn(at + 3)],
         s[Turn(at + 4)], s[Turn(at + 5)], s[Turn(at + 6)], s[Turn(at + 7)])
  }

  /** The shifting loop. */
  method RoundsShifting(s: array<bv64>, w: array<bv64>)
    requires s.Length == 8 && w.Length == 80 && s != w
    modifies s
    ensures RegsAt(s[..], 0) == Rounds(old(RegsAt(s[..], 0)), w[..], 80)
  {
    hide T0, T1, T0Code, T1Code, Plus, RoundConstant;
    ghost var start := RegsAt(s[..], 0);
    for i := 0 to 80
      invariant RegsAt(s[..], 0) == Rounds(start, w[..], i)
    {
      SumsAre(RegsAt(s[..], 0), RoundConstant(i), w[i]);
      var t0 := T0Code(s[4], s[5], s[6], s[7], RoundConstant(i), w[i]);
      var t1 := T1Code(s[0], s[1], s[2]);
      s[7] := s[6];
      s[6] := s[5];
      s[5] := s[4];
      s[4] := Plus(s[3], t0);
      s[3] := s[2];
      s[2] := s[1];
      s[1] := s[0];
      s[0] := Plus(t0, t1);
    }
  }

  /** Writing two places of the array is a round, when the first register is then read one place earlier. */
  lemma RoundInPlace(s: seq<bv64>, t: seq<bv64>, a: nat, x: bv64, y: bv64)
    requires |s| == |t| == 8 && a < 8
    requires t == s[Turn(a + 3) := x][Turn(a + 7) := y]
    ensures var r := RegsAt(s, a);
      RegsAt(t, Turn(a + 7)) == Regs(y, r.a, r.b, r.c, x, r.e, r.f, r.g)
  {
    hide Turn;
    OnePlaceEarlier(a);
  }

  predicate Spared(k: nat, a: nat)
    requires a < 8
  {
    k != Turn(a + 3) && k != Turn(a + 7)
  }

  /** Read one place earlier, every register but the first is its neighbour; the two places written are none of the others. */
  lemma OnePlaceEarlier(a: nat)
    requires a < 8
    ensures var h := Turn(a + 7);
      && Turn(h + 1) == a && Turn(h + 2) == Turn(a + 1) && Turn(h + 3) == Turn(a + 2) && Turn(h + 4) == Turn(a + 3)
      && Turn(h + 5) == Turn(a + 4) && Turn(h + 6) == Turn(a + 5) && Turn(h + 7) == Turn(a + 6)
    ensures Spared(a, a) && Spared(Turn(a + 1), a) && Spared(Turn(a + 2), a)
    ensures Spared(Turn(a + 4), a) && Spared(Turn(a + 5), a) && Spared(Turn(a + 6), a)
    ensures Turn(a + 3) != Turn(a + 7)
  {
  }

  /** One round in place: only two variables are written, and the names move on by one. */
  method Rnd(s: array<bv64>, w: array<bv64>, a: nat, b: nat, c: nat, d: nat, e: nat, f: nat, g: nat, h: nat,
             i: nat, ghost start: Regs, ghost ws: seq<bv64>)
    requires s.Length == 8 && w.Length == 80 && s != w && w[..] == ws && i < 80
    requires a < 8 && b == Turn(a + 1) && c == Turn(a + 2) && d == Turn(a + 3)
    requires e == Turn(a + 4) && f == Turn(a + 5) && g == Turn(a + 6) && h == Turn(a + 7)
    requires RegsAt(s[..], a) == Rounds(start, ws, i)
    modifies s
    ensures w[..] == ws && RegsAt(s[..], h) == Rounds(start, ws, i + 1)
  {
    hide T0, T1, T0Code, T1Code, Plus, RoundConstant, Rounds, RegsAt;
    ghost var was, r := s[..], RegsAt(s[..], a);
    assert r == Regs(was[a], was[b], was[c], was[d], was[e], was[f], was[g], was[h]) by { Places(was, a); }
    SumsAre(r, RoundConstant(i), w[i]);
    var t0 := T0Code(s[e], s[f], s[g], s[h], RoundConstant(i), w[i]);
    var t1 := T1Code(s[a], s[b], s[c]);
    s[d] := Plus(s[d], t0);
    s[h] := Plus(t0, t1);
    RoundInPlace(was, s[..], a, s[d], s[h]);
    NextRound(start, ws, i);
  }

  lemma Places(s: seq<bv64>, a: nat)
    requires |s| == 8 && a < 8
    ensures RegsAt(s, a) == Regs(s[a], s[Turn(a + 1)], s[Turn(a + 2)], s[Turn(a + 3)],
                                 s[Turn(a + 4)], s[Turn(a + 5)], s[Turn(a + 6)], s[Turn(a + 7)])
  {
  }

  /** The unrolled loop. */
  method RoundsUnrolled(s: array<bv64>, w: array<bv64>)
    requires s.Length == 8 && w.Length == 80 && s != w
    modifies s
    ensures RegsAt(s[..], 0) == Rounds(old(RegsAt(s[..], 0)), w[..], 80)
  {
    hide RegsAt, Rounds;
    ghost var start, ws := RegsAt(s[..], 0), w[..];
    RoundsFrom(start, ws);
    var i := 0;
    while i < 80
      invariant 0 <= i <= 80 && i % 8 == 0
      invariant w[..] == ws && RegsAt(s[..], 0) == Rounds(start, ws, i)
    {
      Rnd(s, w, 0, 1, 2, 3, 4, 5, 6, 7, i, start, ws);
      Rnd(s, w, 7, 0, 1, 2, 3, 4, 5, 6, i + 1, start, ws);
      Rnd(s, w, 6, 7, 0, 1, 2, 3, 4, 5, i + 2, start, ws);
      Rnd(s, w, 5, 6, 7, 0, 1, 2, 3, 4, i + 3, start, ws);
      Rnd(s, w, 4, 5, 6, 7, 0, 1, 2, 3, i + 4, start, ws);
      Rnd(s, w, 3, 4, 5, 6, 7, 0, 1, 2, i + 5, start, ws);
      Rnd(s, w, 2, 3, 4, 5, 6, 7, 0, 1, i + 6, start, ws);
      Rnd(s, w, 1, 2, 3, 4, 5, 6, 7, 0, i + 7, start, ws);
      i := i + 8;
    }
  }

  lemma NextRound(r: Regs, w: seq<bv64>, i: nat)
    requires |w| == 80 && i < 80
    ensures Rounds(r, w, i + 1) == Round(Rounds(r, w, i), RoundConstant(i), w[i])
  {
  }

  lemma RoundsFrom(r: Regs, w: seq<bv64>)
    requires |w| == 80
    ensures Rounds(r, w, 0) == r
  {
  }

  lemma AddedRegs(was: seq<bv64>, s: seq<bv64>, t: seq<bv64>)
    requires |was| == |s| == |t| == 8 && forall k :: 0 <= k < 8 ==> t[k] == Plus(was[k], s[k])
    ensures RegsAt(t, 0) == AddRegs(RegsAt(was, 0), RegsAt(s, 0))
  {
    hide Plus;
  }

  /** The compression of one block, in the unrolled form or, when `small` is set, in the shifting one. */
  method CompressBlock(state: array<bv64>, block: seq<bv8>, small: bool)
    requires state.Length == 8 && |block| == 128
    modifies state
    ensures RegsAt(state[..], 0) == Compress(old(RegsAt(state[..], 0)), block)
  {
    hide Plus, Rounds, Schedule, RegsAt, AddRegs;
    var s := new bv64[8](i requires 0 <= i < 8 reads state => state[i]);
    assert s[..] == state[..];
    var w := FillSchedule(block);
    if small {
      RoundsShifting(s, w);
    } else {
      RoundsUnrolled(s, w);
    }
    ghost var was, end := state[..], s[..];
    assert RegsAt(end, 0) == Rounds(RegsAt(was, 0), Schedule(block), 80);
    for i := 0 to 8
      invariant s[..] == end
      invariant forall k :: 0 <= k < 8 ==> state[k] == if k < i then Plus(was[k], s[k]) else was[k]
    {
      state[i] := Plus(state[i], s[i]);
    }
    AddedRegs(was, end, state[..]);
  }
}
