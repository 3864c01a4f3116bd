/**
 * Streaming SHA-512: a message arrives in pieces, whole blocks are compressed as soon as they are complete, and the
 * last piece is padded in place. The specification is the fold of the compression function over the padded message,
 * sections 5.1.2, 5.3.5 and 6.4 of FIPS 180-4.
 */
module Sha512Stream {
  import opened Sha512Core
  import opened Bytes

  const LENGTH_RANGE: nat := 0x1_0000_0000_0000_0000

  const INITIAL_VALUE: Regs :=
    Regs(0x6a09e667_f3bcc908, 0xbb67ae85_84caa73b, 0x3c6ef372_fe94f82b, 0xa54ff53a_5f1d36f1,
         0x510e527f_ade682d1, 0x9b05688c_2b3e6c1f, 0x1f83d9ab_fb41bd6b, 0x5be0cd19_137e2179)

  // ---- the specification ----

  /** The chaining value after a whole number of blocks. */
  function Fold(m: seq<bv8>): Regs
    requires |m| % 128 == 0
    decreases |m|
  {
    if |m| == 0 then INITIAL_VALUE else Compress(Fold(m[..|m| - 128]), m[|m| - 128..])
  }

  function Blank(n: nat): (z: seq<bv8>)
    ensures |z| == n
  {
    seq(n, _ => 0)
  }

  /** The low byte of a number. */
  function Low(n: nat): bv8 { (n % 256) as bv8 }

  /** n in k bytes, the high byte first. */
  function BigEndian(n: nat, k: nat): (b: seq<bv8>)
    ensures |b| == k
    decreases k
  {
    if k == 0 then [] else BigEndian(n / 256, k - 1) + [Low(n)]
  }

  function ZeroCount(n: nat): (z: nat)
    ensures z < 128 && (n + z + 17) % 128 == 0
  {
    var q, r := n / 128, n % 128;
    assert n == 128 * q + r;
    if r < 112 then assert n + (111 - r) + 17 == 128 * (q + 1); 111 - r
    else assert n + (239 - r) + 17 == 128 * (q + 2); 239 - r
  }

  /** Section 5.1.2: a one bit, the fewest zeros that leave room, and the length in bits in sixteen bytes. */
  function Pad(m: seq<bv8>): (p: seq<bv8>)
    ensures |p| % 128 == 0
  {
    m + [0x80] + Blank(ZeroCount(|m|)) + BigEndian(8 * |m|, 16)
  }

  function Output(r: Regs): (b: seq<bv8>)
    ensures |b| == 64
  {
    Store64(r.a) + Store64(r.b) + Store64(r.c) + Store64(r.d) + Store64(r.e) + Store64(r.f) + Store64(r.g) + Store64(r.h)
  }

  function Digest(m: seq<bv8>): seq<bv8> { Output(Fold(Pad(m))) }

  /** The number of zeros is the least that makes the padded length a multiple of the block. */
  lemma FewestZeros(n: nat, z: nat)
    requires (n + z + 17) % 128 == 0
    ensures ZeroCount(n) <= z
  {
    var q, k := n / 128, (n + z + 17) / 128;
    assert n + z + 17 == 128 * k;
    var j := (n + ZeroCount(n) + 17) / 128;
    assert n + ZeroCount(n) + 17 == 128 * j;
    assert ZeroCount(n) - z == 128 * (j - k);
  }

  // ---- padding as the code does it ----

  /** The length field after n bytes. */
  function Bits(n: nat): (b: nat)
    ensures b < LENGTH_RANGE
  {
    8 * n % LENGTH_RANGE
  }

  /** The padding with a length field of which only the low eight bytes are ever set. */
  function StoredPad(m: seq<bv8>): (p: seq<bv8>)
    ensures |p| % 128 == 0
  {
    m + [0x80] + Blank(ZeroCount(|m|)) + Blank(8) + BigEndian(Bits(|m|), 8)
  }

  /** The eight bytes of a length as they are stored one by one. */
  function StoreLength(n: nat): (b: seq<bv8>)
    ensures |b| == 8
  {
    [Low(n / 0x100_0000_0000_0000), Low(n / 0x1_0000_0000_0000),
     Low(n / 0x100_0000_0000), Low(n / 0x1_0000_0000),
     Low(n / 0x100_0000), Low(n / 0x1_0000), Low(n / 256), Low(n)]
  }

  lemma TwoBytes(n: nat, k: nat)
    ensures BigEndian(n, k + 2) == BigEndian(n / 0x1_0000, k) + [Low(n / 256), Low(n)]
  {
    assert n / 256 / 256 == n / 0x1_0000;
    assert BigEndian(n, k + 2) == BigEndian(n / 256, k + 1) + [Low(n)];
    assert BigEndian(n / 256, k + 1) == BigEndian(n / 0x1_0000, k) + [Low(n / 256)];
  }

  lemma EightBytes(n: nat, k: nat)
    ensures BigEndian(n, k + 8) == BigEndian(n / LENGTH_RANGE, k) + StoreLength(n)
  {
    hide BigEndian, Low;
    var b, d, f := n / 0x1_0000, n / 0x1_0000_0000, n / 0x1_0000_0000_0000;
    TwoBytes(n, k + 6);
    TwoBytes(b, k + 4);
    TwoBytes(d, k + 2);
    TwoBytes(f, k);
    Quotients(n);
  }

  lemma Quotients(n: nat)
    ensures n / 0x1_0000 / 0x1_0000 == n / 0x1_0000_0000 && n / 0x1_0000_0000 / 0x1_0000 == n / 0x1_0000_0000_0000
    ensures n / 0x1_0000_0000_0000 / 0x1_0000 == n / LENGTH_RANGE
    ensures n / 0x1_0000 / 256 == n / 0x100_0000 && n / 0x1_0000_0000 / 256 == n / 0x100_0000_0000
    ensures n / 0x1_0000_0000_0000 / 256 == n / 0x100_0000_0000_0000
  {
  }

  /** What lies above the first k bytes of a number is not written. */
  lemma {:induction false} HighIgnored(q: nat, r: nat, k: nat)
    ensures BigEndian(Pow256(k) * q + r, k) == BigEndian(r, k)
    decreases k
  {
    if k > 0 {
      var p := Pow256(k - 1) * q;
      assert Pow256(k) * q == 256 * p;
      ByteOff(p, r);
      HighIgnored(q, r / 256, k - 1);
    }
  }

  lemma ByteOff(p: nat, r: nat)
    ensures (256 * p + r) / 256 == p + r / 256 && Low(256 * p + r) == Low(r)
  {
    assert (256 * p + r) % 256 == r % 256;
  }

  lemma LengthRange()
    ensures Pow256(8) == LENGTH_RANGE
  {
    assert Pow256(2) == 0x1_0000 && Pow256(4) == 256 * (256 * Pow256(2));
    assert Pow256(6) == 256 * (256 * Pow256(4)) && Pow256(8) == 256 * (256 * Pow256(6));
  }

  lemma LowBytesOnly(n: nat)
    ensures StoreLength(n) == StoreLength(n % LENGTH_RANGE)
  {
    hide BigEndian, StoreLength, Pow256;
    LengthRange();
    StoredIsBigEndian(n);
    StoredIsBigEndian(n % LENGTH_RANGE);
    HighIgnored(n / LENGTH_RANGE, n % LENGTH_RANGE, 8);
  }

  lemma StoredIsBigEndian(n: nat)
    ensures StoreLength(n) == BigEndian(n, 8)
  {
    hide StoreLength;
    EightBytes(n, 0);
  }

  /** A field splits into its high bytes and its low eight. */
  lemma BigEndianSplit(n: nat, k: nat)
    ensures BigEndian(n, k + 8) == BigEndian(n / LENGTH_RANGE, k) + BigEndian(n % LENGTH_RANGE, 8)
  {
    hide BigEndian, StoreLength;
    EightBytes(n, k);
    LowBytesOnly(n);
    StoredIsBigEndian(n % LENGTH_RANGE);
  }

  function Pow256(k: nat): (p: nat)
    ensures p > 0
  {
    if k == 0 then 1 else 256 * Pow256(k - 1)
  }

  lemma {:induction false} BlankIffZero(n: nat, k: nat)
    requires n < Pow256(k)
    ensures BigEndian(n, k) == Blank(k) <==> n == 0
    decreases k
  {
    if k > 0 {
      BlankIffZero(n / 256, k - 1);
      var b := BigEndian(n, k);
      assert b[..k - 1] == BigEndian(n / 256, k - 1) && b[k - 1] == Low(n);
      assert Blank(k)[..k - 1] == Blank(k - 1) && Blank(k)[k - 1] == 0;
      if n == 0 {
        assert b == b[..k - 1] + [b[k - 1]];
        assert Blank(k) == Blank(k - 1) + [0];
      }
    }
  }

  /** The padding of the code is that of the standard exactly for messages of fewer than 2^64 bits. */
  lemma StoredPadIsPad(m: seq<bv8>)
    requires 8 * |m| < LENGTH_RANGE * LENGTH_RANGE
    ensures StoredPad(m) == Pad(m) <==> 8 * |m| < LENGTH_RANGE
  {
    hide BigEndian;
    var n := 8 * |m|;
    BigEndianSplit(n, 8);
    assert Pow256(8) == LENGTH_RANGE;
    assert n / LENGTH_RANGE < LENGTH_RANGE;
    BlankIffZero(n / LENGTH_RANGE, 8);
    var head, low := m + [0x80] + Blank(ZeroCount(|m|)), BigEndian(n % LENGTH_RANGE, 8);
    assert Pad(m) == head + (BigEndian(n / LENGTH_RANGE, 8) + low);
    assert StoredPad(m) == head + (Blank(8) + low);
    assert Pad(m)[|head|..][..8] == BigEndian(n / LENGTH_RANGE, 8);
    assert StoredPad(m)[|head|..][..8] == Blank(8);
  }

  // ---- what the stream holds ----

  lemma BitsAdd(n: nat, k: nat)
    ensures (Bits(n) + 8 * k) % LENGTH_RANGE == Bits(n + k)
  {
    var q := 8 * n / LENGTH_RANGE;
    assert 8 * (n + k) == LENGTH_RANGE * q + (Bits(n) + 8 * k);
    Multiples(q, Bits(n) + 8 * k);
  }

  lemma Multiples(q: nat, r: nat)
    ensures (LENGTH_RANGE * q + r) % LENGTH_RANGE == r % LENGTH_RANGE
  {
    var a, b := r / LENGTH_RANGE, r % LENGTH_RANGE;
    assert r == LENGTH_RANGE * a + b;
    assert LENGTH_RANGE * q + r == LENGTH_RANGE * (q + a) + b;
  }

  /** How many zeros follow, from what is waiting. */
  lemma ZerosFromTail(n: nat, t: nat)
    requires t < 128 && t <= n && (n - t) % 128 == 0
    ensures ZeroCount(n) == if t < 112 then 111 - t else 239 - t
  {
    var q := (n - t) / 128;
    assert n == 128 * q + t;
  }

  /** The chaining value covers the whole blocks of the message, the length counts their bits, and the rest waits. */
  ghost predicate Absorbed(r: Regs, length: nat, tail: seq<bv8>, m: seq<bv8>) {
    |tail| <= 128 && |tail| <= |m| && (|m| - |tail|) % 128 == 0 && tail == m[|m| - |tail|..]
    && r == Fold(m[..|m| - |tail|]) && length == Bits(|m| - |tail|)
  }

  lemma AbsorbTail(r: Regs, length: nat, tail: seq<bv8>, m: seq<bv8>, d: seq<bv8>)
    requires Absorbed(r, length, tail, m) && |tail| + |d| <= 128
    ensures Absorbed(r, length, tail + d, m + d)
  {
    hide Fold, Bits;
    assert (m + d)[..|m| - |tail|] == m[..|m| - |tail|];
    assert (m + d)[|m| - |tail|..] == m[|m| - |tail|..] + d;
  }

  lemma FoldBlock(m: seq<bv8>, block: seq<bv8>)
    requires |m| % 128 == 0 && |block| == 128
    ensures Fold(m + block) == Compress(Fold(m), block)
  {
    hide Compress;
    assert (m + block)[..|m|] == m && (m + block)[|m|..] == block;
  }

  lemma AbsorbBlock(r: Regs, length: nat, tail: seq<bv8>, m: seq<bv8>, d: seq<bv8>)
    requires Absorbed(r, length, tail, m) && |tail| + |d| == 128
    ensures Absorbed(Compress(r, tail + d), (length + 1024) % LENGTH_RANGE, [], m + d)
  {
    hide Fold, Compress, Bits;
    var whole := m[..|m| - |tail|];
    BitsAdd(|whole|, 128);
    FoldBlock(whole, tail + d);
    assert (m + d)[..|m + d|] == m + d == whole + (tail + d);
  }

  /** The last block or two, from what is still waiting. */
  function LastBlocks(tail: seq<bv8>, length: nat): (b: seq<bv8>)
    requires |tail| < 128
    ensures |b| == if |tail| < 112 then 128 else 256
  {
    if |tail| < 112 then tail + [0x80] + Blank(119 - |tail|) + StoreLength(length)
    else tail + [0x80] + Blank(127 - |tail|) + Blank(120) + StoreLength(length)
  }

  lemma LastBlocksPad(length: nat, tail: seq<bv8>, m: seq<bv8>)
    requires |tail| < 128 && |tail| <= |m| && (|m| - |tail|) % 128 == 0 && tail == m[|m| - |tail|..]
    requires length == Bits(|m|)
    ensures StoredPad(m) == m[..|m| - |tail|] + LastBlocks(tail, length)
  {
    hide BigEndian, StoreLength, Bits, ZeroCount;
    var whole := m[..|m| - |tail|];
    StoredIsBigEndian(length);
    ZerosFromTail(|m|, |tail|);
    assert m == whole + tail;
    if |tail| < 112 {
      assert Blank(119 - |tail|) == Blank(111 - |tail|) + Blank(8);
    } else {
      assert Blank(127 - |tail|) + Blank(120) == Blank(239 - |tail|) + Blank(8);
      assert LastBlocks(tail, length) == tail + [0x80] + (Blank(127 - |tail|) + Blank(120)) + StoreLength(length);
    }
  }

  /** Compressing the last block or two completes the fold over the padded message. */
  lemma LastBlocksFold(r: Regs, length: nat, tail: seq<bv8>, m: seq<bv8>)
    requires Absorbed(r, length, tail, m) && |tail| < 128
    ensures var b := LastBlocks(tail, (length + 8 * |tail|) % LENGTH_RANGE);
      Fold(StoredPad(m)) == if |tail| < 112 then Compress(r, b) else Compress(Compress(r, b[..128]), b[128..])
  {
    hide Fold, Compress, Bits, LastBlocks, StoredPad;
    var whole, b := m[..|m| - |tail|], LastBlocks(tail, Bits(|m|));
    BitsAdd(|whole|, |tail|);
    LastBlocksPad(Bits(|m|), tail, m);
    if |tail| < 112 {
      FoldBlock(whole, b);
    } else {
      FoldBlock(whole, b[..128]);
      FoldBlock(whole + b[..128], b[128..]);
      assert whole + b == whole + b[..128] + b[128..];
    }
  }

  /** The same, in the shape in which the last blocks are built up. */
  lemma PaddedFold(r: Regs, length: nat, tail: seq<bv8>, m: seq<bv8>)
    requires Absorbed(r, length, tail, m) && |tail| < 128
    ensures var f := StoreLength((length + 8 * |tail|) % LENGTH_RANGE); var t := tail + [0x80];
      Fold(StoredPad(m)) == if |tail| < 112 then Compress(r, t + Blank(120 - |t|) + f)
                            else Compress(Compress(r, t + Blank(128 - |t|)), Blank(120) + f)
  {
    hide Fold, Compress, StoredPad, StoreLength, Absorbed;
    var l := (length + 8 * |tail|) % LENGTH_RANGE;
    var f, t, b := StoreLength(l), tail + [0x80], LastBlocks(tail, l);
    LastBlocksFold(r, length, tail, m);
    if |tail| < 112 {
      assert b == t + Blank(120 - |t|) + f;
    } else {
      var x, y := t + Blank(128 - |t|), Blank(120) + f;
      assert b == x + y;
      assert b[..128] == x && b[128..] == y;
    }
  }

  // ---- the stream ----

  class Sha512 {
    const state: array<bv64>
    const buf: array<bv8>
    var length: nat
    var curlen: nat
    /** Everything processed since the stream was started. */
    ghost var message: seq<bv8>

    ghost predicate Shape() {
      state.Length == 8 && buf.Length == 128
    }

    ghost predicate Valid()
      reads this, state, buf
    {
      Shape() && curlen <= 128 && Absorbed(RegsAt(state[..], 0), length, buf[..curlen], message)
    }

    constructor ()
      ensures Valid() && curlen == 0 && message == [] && fresh(state) && fresh(buf)
    {
      state := new bv64[8](_ => 0);
      buf := new bv8[128](_ => 0);
      new;
      Init();
    }

    method Init()
      requires Shape()
      modifies this, state
      ensures Valid() && curlen == 0 && message == []
    {
      curlen := 0;
      length := 0;
      state[0] := INITIAL_VALUE.a;
      state[1] := INITIAL_VALUE.b;
      state[2] := INITIAL_VALUE.c;
      state[3] := INITIAL_VALUE.d;
      state[4] := INITIAL_VALUE.e;
      state[5] := INITIAL_VALUE.f;
      state[6] := INITIAL_VALUE.g;
      state[7] := INITIAL_VALUE.h;
      message := [];
      assert message[..0] == [] && buf[..0] == [];
      assert RegsAt(state[..], 0) == INITIAL_VALUE;
    }

    /** Takes the next piece of the message, of any length. */
    method Process(input: seq<bv8>) returns (ok: bool)
      requires Shape() && (curlen <= 128 ==> Valid())
      modifies this, state, buf
      ensures ok == (old(curlen) <= 128)
      ensures ok ==> Valid() && message == old(message) + input
      ensures ok && (old(curlen) < 128 || input != []) ==> curlen < 128
      ensures !ok ==> unchanged(this, state, buf)
    {
      hide Absorbed, RegsAt;
      if curlen > 128 {
        return false;
      }
      var pos := 0;
      while pos < |input|
        invariant pos <= |input| && Valid() && message == old(message) + input[..pos]
        invariant old(curlen) < 128 || pos > 0 ==> curlen < 128
        invariant pos == 0 ==> curlen == old(curlen) || curlen == 0
        decreases |input| - pos, curlen
      {
        var n;
        if curlen == 0 && |input| - pos >= 128 {
          n := 128;
          TakeBlock(input[pos..pos + n]);
        } else {
          n := if |input| - pos < 128 - curlen then |input| - pos else 128 - curlen;
          TakePart(input[pos..pos + n]);
        }
        TakeMore(input, pos, pos + n);
        pos := pos + n;
      }
      assert input[..pos] == input;
      ok := true;
    }

    /** Compresses a whole block where it lies. */
    method TakeBlock(block: seq<bv8>)
      requires Valid() && curlen == 0 && |block| == 128
      modifies this`length, this`message, state
      ensures Valid() && message == old(message) + block
    {
      hide Absorbed, Compress, RegsAt;
      ghost var tail, r := buf[..curlen], RegsAt(state[..], 0);
      assert tail + block == block;
      CompressBlock(state, block, false);
      AbsorbBlock(r, length, tail, message, block);
      length := (length + 128 * 8) % LENGTH_RANGE;
      message := message + block;
      assert buf[..curlen] == [];
    }

    /** Collects part of a block, and compresses the block when it is complete. */
    method TakePart(part: seq<bv8>)
      requires Valid() && |part| <= 128 - curlen
      modifies this, state, buf
      ensures Valid() && message == old(message) + part
      ensures curlen == if old(curlen) + |part| == 128 then 0 else old(curlen) + |part|
    {
      hide Absorbed, Compress, RegsAt;
      ghost var regs, tail, was := state[..], buf[..curlen], message;
      forall k | 0 <= k < |part| {
        buf[curlen + k] := part[k];
      }
      assert state[..] == regs;
      message := message + part;
      curlen := curlen + |part|;
      assert buf[..curlen] == tail + part;
      if curlen == 128 {
        assert buf[..] == buf[..128];
        AbsorbBlock(RegsAt(regs, 0), length, tail, was, part);
        CompressBlock(state, buf[..], false);
        length := (length + 8 * 128) % LENGTH_RANGE;
        curlen := 0;
        assert buf[..0] == [];
      } else {
        AbsorbTail(RegsAt(regs, 0), length, tail, was, part);
      }
    }

    /** Pads what is waiting and gives the digest; the stream must be started again before it takes another piece. */
    method Done() returns (ok: bool, out: seq<bv8>)
      requires Shape() && (curlen < 128 ==> Valid())
      modifies this, state, buf
      ensures ok == (old(curlen) < 128)
      ensures ok ==> out == Output(Fold(StoredPad(old(message))))
      ensures ok && 8 * |old(message)| < LENGTH_RANGE ==> out == Digest(old(message))
      ensures !ok ==> unchanged(this, state, buf)
    {
      hide Absorbed, Compress, RegsAt, StoreLength, Store64, Fold, StoredPad, Pad, LastBlocks, Output, OutputUpTo;
      if curlen >= 128 {
        return false, [];
      }
      ghost var tail, m := buf[..curlen], message;
      PaddedFold(RegsAt(state[..], 0), length, tail, m);
      length := (length + curlen * 8) % LENGTH_RANGE;
      buf[curlen] := 0x80;
      curlen := curlen + 1;
      ghost var t := tail + [0x80];
      assert buf[..curlen] == t;
      if curlen > 112 {
        ClearAndCompress();
        assert buf[..0] == [];
        t := [];
      }
      FinishBlock();
      assert [] + Blank(120) == Blank(120);
      out := PutState();
      ok := true;
      if 8 * |m| < LENGTH_RANGE { StoredPadIsPad(m); }
    }

    /** Fills the block with zeros, compresses it and starts another. */
    method ClearAndCompress()
      requires Shape() && curlen <= 128
      modifies this`curlen, state, buf
      ensures curlen == 0
      ensures RegsAt(state[..], 0) == Compress(old(RegsAt(state[..], 0)), old(buf[..curlen]) + Blank(128 - old(curlen)))
    {
      hide Compress, RegsAt;
      Clear(128);
      assert buf[..] == buf[..128];
      CompressBlock(state, buf[..], false);
      curlen := 0;
    }

    /** Fills the block with zeros and the length, and compresses it. */
    method FinishBlock()
      requires Shape() && curlen <= 120
      modifies this`curlen, state, buf
      ensures RegsAt(state[..], 0) ==
              Compress(old(RegsAt(state[..], 0)), old(buf[..curlen]) + Blank(120 - old(curlen)) + StoreLength(length))
    {
      hide Compress, RegsAt, StoreLength;
      Clear(120);
      Store(length);
      CompressBlock(state, buf[..], false);
    }

    /** Zero bytes up to place `stop`. */
    method Clear(stop: nat)
      requires Shape() && curlen <= stop <= 128
      modifies this`curlen, buf
      ensures curlen == stop && buf[..stop] == old(buf[..curlen]) + Blank(stop - old(curlen))
    {
      ghost var start := curlen;
      assert buf[..start] + Blank(0) == buf[..start];
      while curlen < stop
        invariant start <= curlen <= stop && buf[..curlen] == old(buf[..start]) + Blank(curlen - start)
      {
        buf[curlen] := 0;
        curlen := curlen + 1;
        assert Blank(curlen - start) == Blank(curlen - 1 - start) + [0];
      }
    }

    /** The length, high byte first, in the last eight places. */
    method Store(n: nat)
      requires Shape()
      modifies buf
      ensures buf[..] == old(buf[..120]) + StoreLength(n)
    {
      hide StoreLength;
      ghost var was := buf[..120];
      buf[120], buf[121] := Low(n / 0x100_0000_0000_0000), Low(n / 0x1_0000_0000_0000);
      buf[122], buf[123] := Low(n / 0x100_0000_0000), Low(n / 0x1_0000_0000);
      buf[124], buf[125] := Low(n / 0x100_0000), Low(n / 0x1_0000);
      buf[126], buf[127] := Low(n / 256), Low(n);
      assert buf[..120] == was;
      StoredBytes(n, buf[120..]);
      assert buf[..] == buf[..120] + buf[120..];
    }

    method PutState() returns (out: seq<bv8>)
      requires Shape()
      ensures out == Output(RegsAt(state[..], 0))
    {
      hide Store64, Output, RegsAt;
      out := [];
      for i := 0 to 8
        invariant out == OutputUpTo(state[..], i)
      {
        out := out + Store64(state[i]);
      }
      OutputIs(state[..]);
    }
  }

  lemma StoredBytes(n: nat, b: seq<bv8>)
    requires |b| == 8
    requires b[0] == Low(n / 0x100_0000_0000_0000) && b[1] == Low(n / 0x1_0000_0000_0000)
    requires b[2] == Low(n / 0x100_0000_0000) && b[3] == Low(n / 0x1_0000_0000)
    requires b[4] == Low(n / 0x100_0000) && b[5] == Low(n / 0x1_0000)
    requires b[6] == Low(n / 256) && b[7] == Low(n)
    ensures b == StoreLength(n)
  {
  }

  function OutputUpTo(s: seq<bv64>, n: nat): (b: seq<bv8>)
    requires n <= |s|
  {
    if n == 0 then [] else OutputUpTo(s, n - 1) + Store64(s[n - 1])
  }

  lemma OutputIs(s: seq<bv64>)
    requires |s| == 8
    ensures OutputUpTo(s, 8) == Output(RegsAt(s, 0))
  {
    hide Store64;
    assert OutputUpTo(s, 1) == [] + Store64(s[0]);
    assert OutputUpTo(s, 2) == Store64(s[0]) + Store64(s[1]);
    assert OutputUpTo(s, 4) == OutputUpTo(s, 2) + Store64(s[2]) + Store64(s[3]);
    assert OutputUpTo(s, 6) == OutputUpTo(s, 4) + Store64(s[4]) + Store64(s[5]);
    assert OutputUpTo(s, 8) == OutputUpTo(s, 6) + Store64(s[6]) + Store64(s[7]);
  }

  /**
   * Every way of cutting a message into pieces gives the digest of the whole message, whether a block was compressed
   * where it lay or collected in the buffer first.
   */
  method HashPieces(pieces: seq<seq<bv8>>) returns (out: seq<bv8>)
    requires 8 * |Joined(pieces, |pieces|)| < LENGTH_RANGE
    ensures out == Digest(Joined(pieces, |pieces|))
  {
    hide Digest, Absorbed;
    var h := new Sha512();
    for i := 0 to |pieces|
      invariant h.Valid() && h.curlen < 128 && h.message == Joined(pieces, i) && fresh(h) && fresh(h.state) && fresh(h.buf)
    {
      var ok := h.Process(pieces[i]);
    }
    var ok;
    ok, out := h.Done();
  }

  function Joined(pieces: seq<seq<bv8>>, n: nat): (m: seq<bv8>)
    requires n <= |pieces|
  {
    if n == 0 then [] else Joined(pieces, n - 1) + pieces[n - 1]
  }
}
