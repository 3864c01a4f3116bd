/**
 * Setting a run of bits in an on-disc bitmap through a small buffer, window by window, with partial first
 * and last bytes, against a plain loop over single bits.
 */
module NtfsBitmap {

  // ---- single bits ----

  function Mask(i: nat): bv8
    requires i < 8
  {
    match i
    case 0 => 0x01 case 1 => 0x02 case 2 => 0x04 case 3 => 0x08
    case 4 => 0x10 case 5 => 0x20 case 6 => 0x40 case 7 => 0x80
  }

  predicate BitOf(b: bv8, i: nat)
    requires i < 8
  {
    b & Mask(i) != 0
  }

  /** The bit as the source fetches it, by shifting. */
  function NtfsBitGet(b: bv8, i: nat): bv8
    requires i < 8
  {
    (b >> i) & 1
  }

  lemma BitGetIsBit(b: bv8, i: nat)
    requires i < 8
    ensures NtfsBitGet(b, i) == if BitOf(b, i) then 1 else 0
  {
    match i
    case 0 => assert (b >> 0) & 1 == if b & 0x01 != 0 then 1 else 0;
    case 1 => assert (b >> 1) & 1 == if b & 0x02 != 0 then 1 else 0;
    case 2 => assert (b >> 2) & 1 == if b & 0x04 != 0 then 1 else 0;
    case 3 => assert (b >> 3) & 1 == if b & 0x08 != 0 then 1 else 0;
    case 4 => assert (b >> 4) & 1 == if b & 0x10 != 0 then 1 else 0;
    case 5 => assert (b >> 5) & 1 == if b & 0x20 != 0 then 1 else 0;
    case 6 => assert (b >> 6) & 1 == if b & 0x40 != 0 then 1 else 0;
    case 7 => assert (b >> 7) & 1 == if b & 0x80 != 0 then 1 else 0;
  }

  function WithBit(b: bv8, i: nat, value: bool): bv8
    requires i < 8
  {
    if value then b | Mask(i) else b & !Mask(i)
  }

  lemma WithBitBits(b: bv8, i: nat, value: bool, j: nat)
    requires i < 8 && j < 8
    ensures BitOf(WithBit(b, i, value), j) == if j == i then value else BitOf(b, j)
  {
    hide Mask;
    MasksApart(i, j);
    MaskAlgebra(b, Mask(i), Mask(j));
  }

  lemma MaskAlgebra(b: bv8, m: bv8, n: bv8)
    ensures (b | m) & m == m && (b & !m) & m == 0
    ensures m & n == 0 ==> (b | m) & n == b & n && (b & !m) & n == b & n
  {
  }

  lemma MasksApart(i: nat, j: nat)
    requires i < 8 && j < 8
    ensures Mask(i) != 0 && (i != j ==> Mask(i) & Mask(j) == 0)
  {
  }

  lemma Fills(i: nat)
    requires i < 8
    ensures BitOf(0xff, i) && !BitOf(0, i)
  {
  }

  /** Eight bits determine a byte. */
  lemma BitsDetermine(b: bv8, c: bv8)
    requires forall i :: 0 <= i < 8 ==> BitOf(b, i) == BitOf(c, i)
    ensures b == c
  {
    assert BitOf(b, 0) == BitOf(c, 0) && BitOf(b, 1) == BitOf(c, 1) && BitOf(b, 2) == BitOf(c, 2) && BitOf(b, 3) == BitOf(c, 3);
    assert BitOf(b, 4) == BitOf(c, 4) && BitOf(b, 5) == BitOf(c, 5) && BitOf(b, 6) == BitOf(c, 6) && BitOf(b, 7) == BitOf(c, 7);
    assert b & 0x01 == c & 0x01;
    assert b & 0x02 == c & 0x02;
    assert b & 0x04 == c & 0x04;
    assert b & 0x08 == c & 0x08;
    assert b & 0x10 == c & 0x10;
    assert b & 0x20 == c & 0x20;
    assert b & 0x40 == c & 0x40;
    assert b & 0x80 == c & 0x80;
  }

  /** Bit k of a bitmap. */
  predicate Bit(data: seq<bv8>, k: nat)
    requires k < 8 * |data|
  {
    BitOf(data[k / 8], k % 8)
  }

  function BitSet(data: seq<bv8>, k: nat, value: bool): (r: seq<bv8>)
    requires k < 8 * |data|
    ensures |r| == |data|
  {
    data[k / 8 := WithBit(data[k / 8], k % 8, value)]
  }

  /** The plain loop: one bit after the other. */
  function BitLoop(data: seq<bv8>, start: nat, count: nat, value: bool): (r: seq<bv8>)
    requires start + count <= 8 * |data|
    ensures |r| == |data|
    decreases count
  {
    if count == 0 then data else BitLoop(BitSet(data, start, value), start + 1, count - 1, value)
  }

  /** The plain loop sets the bits of the run and no other. */
  lemma {:induction false} BitLoopBits(data: seq<bv8>, start: nat, count: nat, value: bool, k: nat)
    requires start + count <= 8 * |data| && k < 8 * |data|
    ensures Bit(BitLoop(data, start, count, value), k) == if start <= k < start + count then value else Bit(data, k)
    decreases count
  {
    if count > 0 {
      var d := BitSet(data, start, value);
      BitLoopBits(d, start + 1, count - 1, value, k);
      if k / 8 == start / 8 {
        WithBitBits(data[start / 8], start % 8, value, k % 8);
      }
    }
  }

  /** Sets a bit in place; values other than 0 and 1 are ignored. */
  method NtfsBitSet(bitmap: array<bv8>, bit: nat, newValue: nat)
    requires bit < 8 * bitmap.Length
    modifies bitmap
    ensures bitmap[..] == if newValue > 1 then old(bitmap[..]) else BitSet(old(bitmap[..]), bit, newValue == 1)
  {
    hide Mask;
    if newValue > 1 {
      return;
    }
    var k, i := bit / 8, bit % 8;
    if newValue == 0 {
      bitmap[k] := bitmap[k] & !Mask(i);
    } else {
      bitmap[k] := bitmap[k] | Mask(i);
    }
  }

  /** The bit before, and the bit set; -1 and no change for a value other than 0 and 1. */
  method NtfsBitGetAndSet(bitmap: array<bv8>, bit: nat, newValue: nat) returns (oldBit: int)
    requires bit < 8 * bitmap.Length
    modifies bitmap
    ensures newValue > 1 ==> oldBit == -1 && bitmap[..] == old(bitmap[..])
    ensures newValue <= 1 ==> oldBit == (if Bit(old(bitmap[..]), bit) then 1 else 0)
    ensures newValue <= 1 ==> bitmap[..] == BitSet(old(bitmap[..]), bit, newValue == 1)
  {
    hide Mask, WithBit, BitOf;
    if newValue > 1 {
      return -1;
    }
    var k, i := bit / 8, bit % 8;
    oldBit := GetInt(bitmap[k], i);
    Flip(bitmap[k], i);
    if newValue != oldBit {
      bitmap[k] := bitmap[k] ^ Mask(i);
    }
  }

  function GetInt(b: bv8, i: nat): (r: int)
    requires i < 8
    ensures r == if BitOf(b, i) then 1 else 0
  {
    BitGetIsBit(b, i);
    if NtfsBitGet(b, i) == 1 then 1 else 0
  }

  lemma Flip(b: bv8, i: nat)
    requires i < 8
    ensures BitOf(b, i) ==> b ^ Mask(i) == WithBit(b, i, false) && b == WithBit(b, i, true)
    ensures !BitOf(b, i) ==> b ^ Mask(i) == WithBit(b, i, true) && b == WithBit(b, i, false)
  {
  }

  // ---- the run ----

  /** An attribute of fixed size: reading and writing stop at its end. */
  class Attribute {
    var data: seq<bv8>

    constructor (d: seq<bv8>)
      ensures data == d
    {
      data := d;
    }

    method Pread(pos: nat) returns (br: int, b: bv8)
      ensures br == if pos < |data| then 1 else 0
      ensures pos < |data| ==> b == data[pos]
    {
      if pos < |data| {
        br, b := 1, data[pos];
      } else {
        br, b := 0, 0;
      }
    }

    method Pwrite(pos: nat, count: nat, buf: array<bv8>) returns (bw: nat)
      requires count <= buf.Length
      modifies this
      ensures |data| == old(|data|)
      ensures bw == if pos + count <= |data| then count else if pos <= |data| then |data| - pos else 0
      ensures forall k :: 0 <= k < |data| ==> data[k] == if pos <= k < pos + bw then buf[k - pos] else old(data[k])
    {
      bw := if pos + count <= |data| then count else if pos <= |data| then |data| - pos else 0;
      if bw > 0 {
        data := data[..pos] + buf[..bw] + data[pos + bw..];
      }
    }
  }

  /** Byte `idx` as it should be after the run has been set. */
  predicate ByteDone(b: bv8, before: bv8, idx: int, start: int, end: int, value: bool) {
    forall i :: 0 <= i < 8 ==> BitOf(b, i) == if start <= 8 * idx + i < end then value else BitOf(before, i)
  }

  function Fill(value: bool): bv8 { if value then 0xff else 0 }

  lemma FullByte(before: bv8, idx: int, start: int, end: int, value: bool)
    requires start <= 8 * idx && 8 * idx + 8 <= end
    ensures ByteDone(Fill(value), before, idx, start, end, value)
  {
    forall i | 0 <= i < 8 ensures BitOf(Fill(value), i) == value { Fills(i); }
  }

  lemma UntouchedByte(b: bv8, idx: int, start: int, end: int, value: bool)
    requires 8 * idx + 8 <= start || end <= 8 * idx
    ensures ByteDone(b, b, idx, start, end, value)
  {
  }

  /** Upwards from a bit to the end of the byte or of the run. */
  method SetUpwards(b0: bv8, bit0: nat, count0: int, idx: nat, value: bool) returns (b: bv8, count: int)
    requires 0 < bit0 < 8 && 0 <= count0
    ensures ByteDone(b, b0, idx, 8 * idx + bit0, 8 * idx + bit0 + count0, value)
    ensures count == if bit0 + count0 >= 8 then bit0 + count0 - 8 else -1
  {
    hide Mask;
    b, count := b0, count0;
    var bit := bit0;
    while bit % 8 != 0
      invariant bit0 <= bit <= 8 && count == bit0 + count0 - bit && 0 <= count
      invariant ByteDone(b, b0, idx, 8 * idx + bit0, 8 * idx + bit, value)
      decreases 8 - bit
    {
      count := count - 1;
      if count == -1 {
        break;
      }
      StepDone(b, b0, idx, 8 * idx + bit0, bit, value);
      if value {
        b := b | Mask(bit);
      } else {
        b := b & !Mask(bit);
      }
      bit := bit + 1;
    }
    SameRun(b, b0, idx, 8 * idx + bit0, 8 * idx + bit, 8 * idx + bit0, 8 * idx + bit0 + count0, value);
  }

  /** Of the run only what lies within the byte matters. */
  lemma SameRun(b: bv8, b0: bv8, idx: nat, s: int, e: int, start: int, end: int, value: bool)
    requires ByteDone(b, b0, idx, s, e, value)
    requires s == start || (s <= 8 * idx && start <= 8 * idx)
    requires e == end || (e >= 8 * idx + 8 && end >= 8 * idx + 8)
    ensures ByteDone(b, b0, idx, start, end, value)
  {
  }

  lemma StepDone(b: bv8, b0: bv8, idx: nat, start: int, bit: nat, value: bool)
    requires bit < 8 && start <= 8 * idx + bit && ByteDone(b, b0, idx, start, 8 * idx + bit, value)
    ensures ByteDone(WithBit(b, bit, value), b0, idx, start, 8 * idx + bit + 1, value)
  {
    hide Mask;
    forall i | 0 <= i < 8
      ensures BitOf(WithBit(b, bit, value), i) == if start <= 8 * idx + i < 8 * idx + bit + 1 then value else BitOf(b0, i)
    {
      WithBitBits(b, bit, value, i);
    }
  }

  /** Downwards from a bit to the start of the byte. */
  method SetDownwards(b0: bv8, bit0: nat, count0: int, idx: nat, value: bool) returns (b: bv8, count: int)
    requires 0 < bit0 < 8 && bit0 <= count0
    ensures ByteDone(b, b0, idx, 8 * idx, 8 * idx + bit0, value)
    ensures count == count0 - bit0
  {
    hide Mask;
    b, count := b0, count0;
    var bit := bit0;
    while bit != 0
      invariant 0 <= bit <= bit0 && count == count0 - bit0 + bit
      invariant ByteDone(b, b0, idx, 8 * idx + bit, 8 * idx + bit0, value)
    {
      count := count - 1;
      bit := bit - 1;
      StepDown(b, b0, idx, bit, 8 * idx + bit0, value);
      if value {
        b := b | Mask(bit);
      } else {
        b := b & !Mask(bit);
      }
    }
  }

  lemma StepDown(b: bv8, b0: bv8, idx: nat, bit: nat, end: int, value: bool)
    requires bit < 8 && 8 * idx + bit < end && ByteDone(b, b0, idx, 8 * idx + bit + 1, end, value)
    ensures ByteDone(WithBit(b, bit, value), b0, idx, 8 * idx + bit, end, value)
  {
    hide Mask;
    forall i | 0 <= i < 8
      ensures BitOf(WithBit(b, bit, value), i) == if 8 * idx + bit <= 8 * idx + i < end then value else BitOf(b0, i)
    {
      WithBitBits(b, bit, value, i);
    }
  }

  /** No bit outside the run differs. */
  predicate ByteKept(b: bv8, before: bv8, idx: int, start: int, end: int) {
    forall i :: 0 <= i < 8 && !(start <= 8 * idx + i < end) ==> BitOf(b, i) == BitOf(before, i)
  }

  /** The run as requested: where it starts, where it ends, the value, and the bitmap before. */
  datatype Request = Request(start: int, end: int, value: bool, before: seq<bv8>)

  predicate Done(q: Request, data: seq<bv8>) {
    |data| == |q.before| && forall k :: 0 <= k < |data| ==> ByteDone(data[k], q.before[k], k, q.start, q.end, q.value)
  }

  predicate Kept(q: Request, data: seq<bv8>) {
    |data| == |q.before| && forall k :: 0 <= k < |data| ==> ByteKept(data[k], q.before[k], k, q.start, q.end)
  }

  /** The bytes below `pos` are as they should be, the others as they were. */
  predicate DoneBelow(q: Request, data: seq<bv8>, pos: int) {
    && |data| == |q.before|
    && (forall k :: 0 <= k < |data| && k < pos ==> ByteDone(data[k], q.before[k], k, q.start, q.end, q.value))
    && (forall k :: 0 <= k < |data| && pos <= k ==> data[k] == q.before[k])
  }

  /** The first n bytes of the buffer are what the bytes from `pos` on should become. */
  predicate WindowReady(q: Request, buf: seq<bv8>, n: int, pos: int) {
    n <= |buf| && 0 <= pos &&
    forall k :: 0 <= k < n && pos + k < |q.before| ==> ByteDone(buf[k], q.before[pos + k], pos + k, q.start, q.end, q.value)
  }

  lemma DoneBelowKept(q: Request, data: seq<bv8>, pos: int)
    requires DoneBelow(q, data, pos)
    ensures Kept(q, data)
  {
  }

  lemma DoneBelowEnd(q: Request, data: seq<bv8>, pos: int)
    requires DoneBelow(q, data, pos) && q.end <= 8 * pos
    ensures Done(q, data)
  {
    forall k | 0 <= k < |data| ensures ByteDone(data[k], q.before[k], k, q.start, q.end, q.value) {
      if pos <= k { UntouchedByte(data[k], k, q.start, q.end, q.value); }
    }
  }

  lemma NothingDone(q: Request, pos: int)
    requires 8 * pos <= q.start
    ensures DoneBelow(q, q.before, pos)
  {
    forall k | 0 <= k < |q.before| && k < pos ensures ByteDone(q.before[k], q.before[k], k, q.start, q.end, q.value) {
      UntouchedByte(q.before[k], k, q.start, q.end, q.value);
    }
  }

  /** Writing one window. */
  method WriteWindow(na: Attribute, pos: nat, bufsize: nat, buf: array<bv8>, ghost q: Request) returns (bw: nat)
    requires bufsize <= buf.Length && DoneBelow(q, na.data, pos) && WindowReady(q, buf[..], bufsize, pos)
    modifies na
    ensures DoneBelow(q, na.data, pos + bw) && bw <= bufsize && |na.data| == old(|na.data|)
    ensures bw == bufsize <==> pos + bufsize <= |na.data| || bufsize == 0
  {
    hide ByteDone;
    ghost var before := na.data;
    bw := na.Pwrite(pos, bufsize, buf);
    forall k | 0 <= k < |na.data| && k < pos + bw
      ensures ByteDone(na.data[k], q.before[k], k, q.start, q.end, q.value)
    {
      if k >= pos { assert buf[..][k - pos] == na.data[k]; } else { assert na.data[k] == before[k]; }
    }
  }

  /** What holds before each window: the bytes still to write, the buffer, and how far the run has come. */
  predicate Turn(q: Request, start: int, count: int, first: int, bufsize: int, buf: seq<bv8>) {
    && start % 8 == 0 && (first == 0 || first == 1) && 0 <= start - 8 * first
    && (count >= 0 ==> start + count == q.end) && (count < 0 ==> q.end < start && first == 1)
    && bufsize == Least(8192, (if count > 0 then (count + 7) / 8 else 0) + first) && bufsize <= |buf|
    && (if first == 1 then start - 8 < q.start < start else q.start <= start)
    && (first == 1 && start / 8 - 1 < |q.before| ==> ByteDone(buf[0], q.before[start / 8 - 1], start / 8 - 1, q.start, q.end, q.value))
    && (forall k :: first <= k < |buf| ==> buf[k] == Fill(q.value))
  }

  function Least(a: int, b: int): int { if a < b then a else b }

  /** A window without the partial last byte is ready. */
  lemma FullWindow(q: Request, start: int, count: int, first: int, bufsize: int, buf: seq<bv8>)
    requires Turn(q, start, count, first, bufsize, buf)
    requires count > 0 && count % 8 != 0 ==> bufsize < (count + 7) / 8 + first
    ensures WindowReady(q, buf, bufsize, start / 8 - first)
  {
    var pos := start / 8 - first;
    forall k | 0 <= k < bufsize && pos + k < |q.before|
      ensures ByteDone(buf[k], q.before[pos + k], pos + k, q.start, q.end, q.value)
    {
      if k >= first { FullByte(q.before[pos + k], pos + k, q.start, q.end, q.value); }
    }
  }

  /** With the partial last byte put in place the window is ready. */
  lemma LastWindow(q: Request, start: int, count: int, first: int, bufsize: int, buf: seq<bv8>, last: bv8)
    requires Turn(q, start, count, first, bufsize, buf)
    requires count > 0 && count % 8 != 0 && bufsize == (count + 7) / 8 + first
    requires (start + count) / 8 < |q.before|
    requires ByteDone(last, q.before[(start + count) / 8], (start + count) / 8, q.start, q.end, q.value)
    ensures WindowReady(q, buf[bufsize - 1 := last], bufsize, start / 8 - first)
  {
    hide ByteDone, Fill;
    var pos := start / 8 - first;
    var ready := buf[bufsize - 1 := last];
    assert pos + bufsize - 1 == (start + count) / 8;
    forall k | 0 <= k < bufsize && pos + k < |q.before|
      ensures ByteDone(ready[k], q.before[pos + k], pos + k, q.start, q.end, q.value)
    {
      if first <= k < bufsize - 1 { FullByte(q.before[pos + k], pos + k, q.start, q.end, q.value); }
    }
  }

  /**
   * Puts the partial last byte into the buffer when it lies in the window. `ok` is false when it cannot be
   * read.
   */
  method PrepareLast(na: Attribute, start: int, count: int, first: int, bufsize: int, bit: int, value: bool, buf: array<bv8>, ghost q: Request)
    returns (ok: bool, count': int, bit': int, last: int)
    requires Turn(q, start, count, first, bufsize, buf[..]) && DoneBelow(q, na.data, start / 8 - first)
    requires bit == count % 8 && value == q.value
    modifies buf
    ensures ok ==> WindowReady(q, buf[..], bufsize, start / 8 - first)
    ensures !ok ==> q.end > 8 * |na.data|
    ensures last == 0 ==> count' == count && bit' == bit && buf[..] == old(buf[..])
    ensures last == 0 && ok && count > 0 && count % 8 != 0 ==> bufsize == 8192 < (count + 7) / 8 + first
    ensures ok && last != 0 ==> last == 1 && bufsize == (count + 7) / 8 + first && count > 0 && count' == count - count % 8 && count % 8 != 0
    ensures last != 0 ==> forall k :: 0 <= k < bufsize - 1 ==> buf[k] == old(buf[k])
  {
    hide Turn, WindowReady, DoneBelow, ByteDone, Mask, WithBit, Fill;
    ok, count', bit', last := true, count, bit, 0;
    ghost var before := buf[..];
    TurnFacts(q, start, count, first, bufsize, before);
    OnlyFullWindows(q, start, count, first, bufsize, before);
    if count > 0 && bit != 0 {
      var lastbytePos := (count + 7) / 8 + first;
      if lastbytePos <= bufsize {
        LastByteAt(q, start, count, first, bufsize, before, (start + count) / 8);
        NotYetDone(q, na.data, start / 8 - first, (start + count) / 8);
        var br, b := na.Pread((start + count) / 8);
        if br != 1 {
          ok := false;
          return;
        }
        ghost var idx := (start + count) / 8;
        b, count' := SetDownwards(b, bit, count, (start + count) / 8, value);
        SameRun(b, q.before[idx], idx, 8 * idx, q.end, q.start, q.end, q.value);
        LastWindow(q, start, count, first, bufsize, before, b);
        buf[lastbytePos - 1] := b;
        bit' := 0;
        last := 1;
        assert buf[..] == before[bufsize - 1 := b];
        return;
      }
    }
    FullWindow(q, start, count, first, bufsize, before);
  }

  /** Where the partial last byte lies, in the window and on the disc. */
  lemma LastByteAt(q: Request, start: int, count: int, first: int, bufsize: int, buf: seq<bv8>, idx: int)
    requires Turn(q, start, count, first, bufsize, buf) && idx == (start + count) / 8
    requires count > 0 && count % 8 != 0 && (count + 7) / 8 + first <= bufsize
    ensures bufsize == (count + 7) / 8 + first && idx >= 0 && start / 8 - first <= idx
    ensures q.end == 8 * idx + count % 8 && q.start <= 8 * idx && count % 8 <= count
  {
  }

  /** A partial last byte that is not in the window lies behind a full one. */
  lemma OnlyFullWindows(q: Request, start: int, count: int, first: int, bufsize: int, buf: seq<bv8>)
    requires Turn(q, start, count, first, bufsize, buf)
    ensures count > 0 && count % 8 != 0 && bufsize < (count + 7) / 8 + first ==> bufsize == 8192
  {
  }

  lemma NotYetDone(q: Request, data: seq<bv8>, pos: int, k: int)
    requires DoneBelow(q, data, pos) && pos <= k && 0 <= k
    ensures |data| == |q.before| && (k < |data| ==> data[k] == q.before[k])
  {
  }

  lemma TurnFacts(q: Request, start: int, count: int, first: int, bufsize: int, buf: seq<bv8>)
    requires Turn(q, start, count, first, bufsize, buf)
    ensures start / 8 - first >= 0 && 0 <= first <= bufsize <= |buf| && (first == 1 ==> |buf| > 0)
  {
  }

  /** The state before the next window. */
  lemma NextTurn(q: Request, start: int, count: int, first: int, bufsize: int, buf: seq<bv8>, bufsize': int)
    requires Turn(q, start, count, first, bufsize, buf) && count > 0
    requires count % 8 != 0 ==> bufsize == 8192 < (count + 7) / 8 + first
    requires var t := 8 * (bufsize - first); bufsize' == Least(bufsize, (count - t + 7) / 8)
    ensures var t := 8 * (bufsize - first);
      && t > 0 && count - t >= 0 && (count - t) % 8 == count % 8
      && Turn(q, start + t, count - t, 0, bufsize', if first == 1 then buf[0 := Fill(q.value)] else buf)
      && (start + t) / 8 == start / 8 - first + bufsize
  {
  }

  /** What the two predicates on bytes say of single bits. */
  lemma KeptBits(q: Request, data: seq<bv8>)
    requires Kept(q, data)
    ensures forall k :: 0 <= k < 8 * |data| && !(q.start <= k < q.end) ==> Bit(data, k) == Bit(q.before, k)
  {
    hide BitOf;
    forall k | 0 <= k < 8 * |data| && !(q.start <= k < q.end) ensures Bit(data, k) == Bit(q.before, k) {
      assert ByteKept(data[k / 8], q.before[k / 8], k / 8, q.start, q.end);
      assert 8 * (k / 8) + k % 8 == k;
    }
  }

  lemma DoneBits(q: Request, data: seq<bv8>)
    requires Done(q, data)
    ensures forall k :: q.start <= k < q.end && 0 <= k < 8 * |data| ==> Bit(data, k) == q.value
  {
    hide BitOf;
    forall k | q.start <= k < q.end && 0 <= k < 8 * |data| ensures Bit(data, k) == q.value {
      assert ByteDone(data[k / 8], q.before[k / 8], k / 8, q.start, q.end, q.value);
      assert 8 * (k / 8) + k % 8 == k;
    }
  }

  /**
   * Sets `count0` bits from `startBit` on. Bits outside the run are kept whatever happens; when the run lies
   * within the attribute the call succeeds and does what the plain loop does.
   */
  method SetBitsInRun(na: Attribute, startBit: int, count0: int, value: bool) returns (ret: int)
    requires startBit >= 0 && count0 >= 0 ==> (startBit + count0) / 8 < 0x8000_0000
    modifies na
    ensures |na.data| == old(|na.data|)
    ensures startBit < 0 || count0 < 0 ==> ret == -1 && na.data == old(na.data)
    ensures startBit >= 0 && count0 >= 0 ==>
              forall k :: 0 <= k < 8 * |na.data| && !(startBit <= k < startBit + count0) ==> Bit(na.data, k) == Bit(old(na.data), k)
    ensures startBit >= 0 && count0 >= 0 && ret == 0 ==>
              forall k :: startBit <= k < startBit + count0 && k < 8 * |na.data| ==> Bit(na.data, k) == value
    ensures startBit >= 0 && count0 >= 0 && startBit + count0 <= 8 * |na.data| ==>
              ret == 0 && na.data == BitLoop(old(na.data), startBit, count0, value)
  {
    hide Turn, Done, Kept, DoneBelow, ByteDone, Fill, Bit, BitLoop, Mask;
    if startBit < 0 || count0 < 0 {
      return -1;
    }
    ghost var q := Request(startBit, startBit + count0, value, na.data);
    NothingDone(q, startBit / 8);
    var start, count, bit := startBit, count0, startBit % 8;
    var firstbyte := if bit != 0 then 1 else 0;
    var bufsize := (count - (if bit != 0 then 8 - bit else 0) + 7) / 8 + firstbyte;
    if bufsize > 8192 {
      bufsize := 8192;
    }
    var buf := new bv8[bufsize](_ => Fill(value));
    if bit != 0 {
      var br, b := na.Pread(start / 8);
      if br != 1 {
        DoneBelowKept(q, na.data, startBit / 8);
        KeptBits(q, na.data);
        return -1;
      }
      buf[0], count := SetUpwards(b, bit, count, start / 8, value);
      start := (start + 7) / 8 * 8;
    }
    FirstTurn(q, startBit % 8, start, count, firstbyte, bufsize, buf[..]);
    ret := WriteWindows(na, start, count, firstbyte, bufsize, value, buf, q);
    KeptBits(q, na.data);
    if ret == 0 { DoneBits(q, na.data); }
    if startBit + count0 <= 8 * |na.data| {
      DoneIsLoop(q, na.data);
    }
  }

  /** The state before the first window. */
  lemma FirstTurn(q: Request, bit: int, start: int, count: int, first: int, bufsize: int, buf: seq<bv8>)
    requires bit == q.start % 8 && 0 <= q.start <= q.end && first == (if bit == 0 then 0 else 1) && bufsize == |buf|
    requires start == (if bit == 0 then q.start else (q.start + 7) / 8 * 8)
    requires var c := q.end - q.start;
      && count == (if bit == 0 then c else if bit + c >= 8 then bit + c - 8 else -1)
      && bufsize == Least(8192, (c - (if bit == 0 then 0 else 8 - bit) + 7) / 8 + first)
    requires forall k :: first <= k < |buf| ==> buf[k] == Fill(q.value)
    requires bit != 0 && q.start / 8 < |q.before| ==> ByteDone(buf[0], q.before[q.start / 8], q.start / 8, q.start, q.end, q.value)
    ensures Turn(q, start, count, first, bufsize, buf)
  {
  }

  /** A window that does not fit means that the run does not fit. */
  lemma RunPastEnd(q: Request, start: int, count: int, first: int, bufsize: int, buf: seq<bv8>, n: nat)
    requires Turn(q, start, count, first, bufsize, buf) && (first == 1 ==> start / 8 - 1 < n)
    requires bufsize > 0 && start / 8 - first + bufsize > n
    ensures q.end > 8 * n
  {
  }

  /** When nothing is left the windows have covered the run. */
  lemma LastTurn(q: Request, start: int, count: int, first: int, bufsize: int, buf: seq<bv8>, last: int)
    requires Turn(q, start, count, first, bufsize, buf)
    requires (last == 1 && count > 0 && bufsize == (count + 7) / 8 + first) || (last == 0 && count <= 8 * (bufsize - first))
    ensures q.end <= 8 * (start / 8 - first + bufsize)
  {
  }

  /** The loop over the windows. */
  method WriteWindows(na: Attribute, start0: int, count0: int, first0: int, bufsize0: int, value: bool, buf: array<bv8>, ghost q: Request)
    returns (ret: int)
    requires Turn(q, start0, count0, first0, bufsize0, buf[..]) && DoneBelow(q, na.data, start0 / 8 - first0)
    requires value == q.value && (first0 == 1 ==> start0 / 8 - 1 < |na.data|)
    modifies na, buf
    ensures |na.data| == old(|na.data|) && Kept(q, na.data)
    ensures ret == 0 || ret == -1
    ensures ret == 0 ==> Done(q, na.data)
    ensures q.end <= 8 * |na.data| ==> ret == 0
  {
    hide ByteDone, DoneBelow, Done, WindowReady, Turn;
    var start, count, first, bufsize := start0, count0, first0, bufsize0;
    var lastbyte := 0;
    var bit := count % 8;
    while true
      invariant Turn(q, start, count, first, bufsize, buf[..]) && DoneBelow(q, na.data, start / 8 - first)
      invariant |na.data| == old(|na.data|) && (first == 1 ==> start / 8 - 1 < |na.data|)
      invariant lastbyte == 0 && bit == count % 8
      decreases count
    {
      var ok;
      ghost var count1, before := count, buf[..];
      TurnFacts(q, start, count, first, bufsize, before);
      ok, count, bit, lastbyte := PrepareLast(na, start, count, first, bufsize, bit, value, buf, q);
      if !ok {
        DoneBelowKept(q, na.data, start / 8 - first);
        return -1;
      }
      var pos := start / 8 - first;
      var bw := WriteWindow(na, pos, bufsize, buf, q);
      if bw != bufsize {
        RunPastEnd(q, start, count1, first, bufsize, before, |na.data|);
        DoneBelowKept(q, na.data, pos + bw);
        return -1;
      }
      var bits := (bufsize - first - lastbyte) * 8;
      if first == 1 {
        buf[0] := if value then 0xff else 0;
      }
      count := count - bits;
      if count <= 0 {
        LastTurn(q, start, count1, first, bufsize, before, lastbyte);
        DoneBelowKept(q, na.data, pos + bw);
        DoneBelowEnd(q, na.data, pos + bw);
        return 0;
      }
      if bufsize > (count + 7) / 8 {
        bufsize := (count + 7) / 8;
      }
      NextTurn(q, start, count1, first, bw, before, bufsize);
      start := start + bits;
      first := 0;
    }
  }

  lemma DoneIsLoop(q: Request, data: seq<bv8>)
    requires Done(q, data) && 0 <= q.start <= q.end <= 8 * |data|
    ensures data == BitLoop(q.before, q.start, q.end - q.start, q.value)
  {
    var r := BitLoop(q.before, q.start, q.end - q.start, q.value);
    forall k | 0 <= k < |data| ensures data[k] == r[k] {
      forall i | 0 <= i < 8 ensures BitOf(data[k], i) == BitOf(r[k], i) {
        BitLoopBits(q.before, q.start, q.end - q.start, q.value, 8 * k + i);
        assert (8 * k + i) / 8 == k && (8 * k + i) % 8 == i;
        assert Bit(r, 8 * k + i) == BitOf(r[k], i) && Bit(q.before, 8 * k + i) == BitOf(q.before[k], i);
      }
      BitsDetermine(data[k], r[k]);
    }
  }
}
