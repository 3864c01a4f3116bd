/**
 * VFAT directory slots. A long name is spread over slots of thirteen 16-bit units, written last part first, each
 * carrying the checksum of the alias; the alias slot closes the entry. The directory is the sequence of its 32-byte
 * slots.
 */
module LongNames {
  import opened Bytes

  type Slot = s: seq<byte> | |s| == 32 witness Zeros(32)

  const DIR_ENTRY_ATTRIBUTES := 11
  const ATTRIB_LFN: byte := 15
  const DIR_ENTRY_FREE: byte := 0xE5

  /** The offsets of the thirteen units in a slot. */
  function UnitAt(j: nat): (o: nat)
    requires j < 13
    ensures 1 <= o < 31
  {
    if j < 5 then 1 + 2 * j else if j < 11 then 4 + 2 * j else 6 + 2 * j
  }

  predicate IsLong(s: Slot) { s[DIR_ENTRY_ATTRIBUTES] == ATTRIB_LFN }
  predicate IsVolume(s: Slot) { s[DIR_ENTRY_ATTRIBUTES] / 8 % 2 == 1 }

  /** The 16-bit number at an offset, low byte first. */
  function Pair(s: Slot, o: nat): (u: nat)
    requires o < 31
    ensures u < 0x1_0000
  {
    (s[o] as int) + 256 * (s[o + 1] as int)
  }

  /** The number of long slots of a name. */
  function LongSlots(n: nat): nat { (n + 12) / 13 }

  /** One step of the alias checksum: rotate right by one bit and add, in one byte. */
  function Sum(c: byte, b: byte): byte { ((if c % 2 == 1 then 128 else 0) + c / 2 + b) % 256 }

  function CheckSum(s: Slot, n: nat): byte
    requires n <= 11
  {
    if n == 0 then 0 else Sum(CheckSum(s, n - 1), s[n - 1])
  }

  // ---- what is on the disc ----

  /** The units of a name: its characters, a terminator, and padding. */
  function Unit(name: seq<byte>, k: nat): nat {
    if k < |name| then name[k] else if k == |name| then 0 else 0xFFFF
  }

  /** Slot number `ord`, counted from one at the start of the name: every one of its 32 bytes is determined. */
  predicate IsPart(s: Slot, name: seq<byte>, ord: nat, sum: byte)
    requires ord >= 1
  {
    && s[0] == ord + (if ord == LongSlots(|name|) then 64 else 0)
    && IsLong(s) && s[12] == 0 && s[13] == sum && s[26] == 0 && s[27] == 0
    && forall j {:trigger UnitAt(j)} :: 0 <= j < 13 ==>
         Pair(s, UnitAt(j)) == Unit(name, 13 * (ord - 1) + j)
  }

  // ---- the layout in numbers ----

  /** The thirteen units of a slot, low byte first, lie in three stretches: five from 1, six from 14 and two from 28 on. */
  lemma UnitOffsets()
    ensures UnitAt(0) == 1 && UnitAt(1) == 3 && UnitAt(2) == 5 && UnitAt(3) == 7 && UnitAt(4) == 9
    ensures UnitAt(5) == 14 && UnitAt(6) == 16 && UnitAt(7) == 18 && UnitAt(8) == 20 && UnitAt(9) == 22 && UnitAt(10) == 24
    ensures UnitAt(11) == 28 && UnitAt(12) == 30
  {
  }

  /** All 32 bytes of a slot that holds thirteen characters: number, units, mark, checksum, units, two zeros, units. */
  lemma PartInBytes(s: Slot, name: seq<byte>, ord: nat, sum: byte)
    requires 1 <= ord < 64 && 13 * ord < |name|
    ensures var p := 13 * (ord - 1);
      IsPart(s, name, ord, sum) <==>
      && s[0] == ord
      && s[1] == name[p] && s[3] == name[p + 1] && s[5] == name[p + 2] && s[7] == name[p + 3] && s[9] == name[p + 4]
      && s[2] == 0 && s[4] == 0 && s[6] == 0 && s[8] == 0 && s[10] == 0
      && s[11] == 0x0F && s[12] == 0 && s[13] == sum
      && s[14] == name[p + 5] && s[16] == name[p + 6] && s[18] == name[p + 7] && s[20] == name[p + 8]
      && s[22] == name[p + 9] && s[24] == name[p + 10]
      && s[15] == 0 && s[17] == 0 && s[19] == 0 && s[21] == 0 && s[23] == 0 && s[25] == 0
      && s[26] == 0 && s[27] == 0
      && s[28] == name[p + 11] && s[29] == 0 && s[30] == name[p + 12] && s[31] == 0
  {
    var p := 13 * (ord - 1);
    UnitOffsets();
    if IsPart(s, name, ord, sum) {
      forall j | 0 <= j < 13 ensures s[UnitAt(j)] == name[p + j] && s[UnitAt(j) + 1] == 0 {
        assert Pair(s, UnitAt(j)) == Unit(name, p + j);
      }
    }
  }

  /** A step of the checksum moves the lowest bit to the top and the others down by one, and adds, in eight bits. */
  lemma SumRotates(high: byte, low: byte, b: byte)
    requires high < 128 && low < 2
    ensures Sum(2 * high + low, b) == (128 * low + high + b) % 256
  {
  }

  /** A long name and its alias slot, from place `at`. */
  predicate Written(dir: seq<Slot>, at: nat, name: seq<byte>, data: Slot) {
    var n := LongSlots(|name|);
    && at + n < |dir| && dir[at + n] == data
    && forall k :: at <= k < at + n ==> IsPart(dir[k], name, at + n - k, CheckSum(data, 11))
  }

  /** A name that can be written: with its terminator it fits the buffer of 255 wide characters. */
  predicate Encodable(name: seq<byte>) {
    1 <= |name| <= 254 && forall k :: 0 <= k < |name| ==> 0 < name[k] < 128
  }

  /** A name that can be read back: the buffers of the program hold nineteen slots and a terminator. */
  predicate Storable(name: seq<byte>) { Encodable(name) && |name| <= 247 }

  /** An alias slot as every file and directory has one. */
  predicate Plain(data: Slot) {
    !IsVolume(data) && data[0] > 0x20 && data[0] != DIR_ENTRY_FREE
  }

  // ---- what the program reads ----

  /** Every long slot of a directory has to name a place inside the buffers. */
  predicate Readable(s: Slot) {
    IsLong(s) && s[0] < 128 ==> 1 <= s[0] % 64 <= 19
  }

  /** Where unit j of a long slot goes in the name buffers. */
  function PlaceOf(s: Slot, j: nat): int { 13 * (s[0] as int % 64 - 1) + j }

  /** The places of the name buffers at which the program writes for a long slot: the thirteen units, and the terminator. */
  function Places(s: Slot): (p: set<int>) {
    (set j: nat | j < 13 :: PlaceOf(s, j)) + (if s[0] >= 64 then {PlaceOf(s, 13)} else {})
  }

  /** A long slot that is not erased is readable exactly when all those places lie inside the buffers of 256 units. */
  lemma ReadableExactly(s: Slot)
    requires IsLong(s) && s[0] < 128
    ensures Readable(s) <==> forall p :: p in Places(s) ==> 0 <= p < 256
  {
    assert PlaceOf(s, 0) in Places(s) && PlaceOf(s, 12) in Places(s);
  }

  /** So the slots of a written name can be read exactly when the name has at most 247 characters. */
  lemma WrittenIsReadable(dir: seq<Slot>, at: nat, name: seq<byte>, data: Slot)
    requires Encodable(name) && Plain(data) && Written(dir, at, name, data)
    ensures (forall k :: at <= k <= at + LongSlots(|name|) ==> Readable(dir[k])) <==> |name| <= 247
  {
    hide CheckSum;
    var n := LongSlots(|name|);
    assert dir[at][0] == n + 64;
    if |name| > 247 { assert n == 20 && !Readable(dir[at]); }
  }

  /** What the attribute byte and the first byte of a slot say, in numbers. */
  lemma SlotMarks(s: Slot)
    ensures IsLong(s) <==> s[11] == 0x0F
    ensures IsVolume(s) <==> s[11] % 16 >= 8
    ensures Plain(s) <==> s[11] % 16 < 8 && s[0] > 0x20 && s[0] != 0xE5
    ensures Readable(s) <==> s[11] != 0x0F || s[0] >= 128 || 1 <= s[0] % 64 < 20
  {
  }

  /** The state of a scan: is there a valid long name, its checksum, its first slot, and the two name buffers. */
  datatype Scan = Scan(live: bool, sum: byte, start: int, name: seq<byte>, wide: seq<nat>)

  predicate Sized(s: Scan) { |s.name| == 256 && |s.wide| == 256 }

  function LowBytes(s: Slot): (b: seq<byte>) ensures |b| == 13 { seq(13, j requires 0 <= j < 13 => s[UnitAt(j)]) }

  function Units(s: Slot): (u: seq<nat>)
    ensures |u| == 13
  {
    seq(13, j requires 0 <= j < 13 => Pair(s, UnitAt(j)))
  }

  /** A slot that ends a name starts a new scan. */
  function Begin(s: Scan, slot: Slot, at: int): (r: Scan)
    requires Sized(s) && IsLong(slot) && Readable(slot) && slot[0] < 128
    ensures Sized(r)
  {
    if slot[0] >= 64 then
      Scan(true, slot[13], at, s.name[13 * (slot[0] % 64) := 0], s.wide[13 * (slot[0] % 64) := 0])
    else s
  }

  function Copy(s: Scan, slot: Slot): (r: Scan)
    requires Sized(s) && IsLong(slot) && Readable(slot) && slot[0] < 128
    ensures Sized(r)
  {
    if s.sum != slot[13] then s.(live := false)
    else if !s.live then s
    else
      var p := 13 * (slot[0] % 64 - 1);
      s.(name := Splice(s.name, p, LowBytes(slot)), wide := Splice(s.wide, p, Units(slot)))
  }

  function LongStep(s: Scan, slot: Slot, at: int): (r: Scan)
    requires Sized(s) && IsLong(slot) && Readable(slot)
    ensures Sized(r)
  {
    if slot[0] >= 128 then s.(live := false) else Copy(Begin(s, slot, at), slot)
  }

  /**
   * Those places and no others: whatever the buffers held, they hold the same there after a slot that belongs to the name,
   * and what they held before everywhere else.
   */
  lemma PlacesWritten(s: Scan, t: Scan, slot: Slot, at: int, k: nat)
    requires Sized(s) && Sized(t) && IsLong(slot) && Readable(slot) && slot[0] < 128 && k < 256
    requires slot[0] >= 64 || (s.live && t.live && s.sum == t.sum == slot[13])
    ensures var r, q := LongStep(s, slot, at), LongStep(t, slot, at);
      if k in Places(slot) then r.name[k] == q.name[k] && r.wide[k] == q.wide[k]
      else r.name[k] == s.name[k] && r.wide[k] == s.wide[k]
  {
    hide Units, LowBytes;
    var p := 13 * (slot[0] % 64 - 1);
    assert forall j :: 0 <= j < 13 ==> PlaceOf(slot, j) in Places(slot);
    if p <= k < p + 13 { assert PlaceOf(slot, k - p) == k; }
  }

  /** How many bytes, at most n, there are before the first blank. */
  function Extent(s: Slot, from: nat, n: nat): (m: nat)
    requires from + n <= 32
    ensures m <= n
    decreases n
  {
    if n == 0 || s[from] == 0x20 then 0 else 1 + Extent(s, from + 1, n - 1)
  }

  function Field(s: Slot, from: nat, n: nat): (t: seq<byte>)
    requires from + n <= 32
    ensures |t| <= n
  {
    s[from..from + Extent(s, from, n)]
  }

  /** The text of an alias slot. */
  function Alias(s: Slot): (t: seq<byte>)
    ensures |t| <= 12
  {
    if s[0] == DIR_ENTRY_FREE then []
    else if s[0] == 0x2E then
      if s[1] == 0x2E then [0x2E, 0x2E] else [0x2E]
    else
      Field(s, 0, 8) + (if s[8] != 0x20 then [0x2E] + Field(s, 8, 3) else [])
  }

  /** The closing slot: the long name stands if the checksum fits, otherwise the alias is the name. */
  function Close(s: Scan, slot: Slot, at: int): (r: Scan)
    requires Sized(s)
    ensures Sized(r)
  {
    if s.live && CheckSum(slot, 11) == s.sum then s
    else
      Scan(false, s.sum, at, Splice(s.name, 0, Alias(slot) + [0]), seq(256, _ => 0))
  }

  datatype Option<T> = None | Some(value: T)
  datatype Found = Found(scan: Scan, end: nat)

  /** The next entry at or after place `at`, and the place of its alias slot. */
  function Next(dir: seq<Slot>, at: nat, s: Scan): (r: Option<Found>)
    requires Sized(s) && forall k :: 0 <= k < |dir| ==> Readable(dir[k])
    ensures r.Some? ==> at <= r.value.end < |dir| && Sized(r.value.scan)
    decreases |dir| - at
  {
    if at >= |dir| then None
    else if IsLong(dir[at]) then Next(dir, at + 1, LongStep(s, dir[at], at))
    else if IsVolume(dir[at]) then Next(dir, at + 1, s)
    else if dir[at][0] == 0 then None
    else if dir[at][0] != DIR_ENTRY_FREE && dir[at][0] > 0x20 then Some(Found(Close(s, dir[at], at), at))
    else Next(dir, at + 1, s)
  }

  /** A terminated string in a buffer. */
  function Text(b: seq<nat>): (t: seq<nat>) {
    if b == [] || b[0] == 0 then [] else [b[0]] + Text(b[1..])
  }

  lemma {:induction false} TextIs(b: seq<nat>, name: seq<nat>)
    requires |name| < |b| && b[|name|] == 0
    requires forall k :: 0 <= k < |name| ==> b[k] == name[k] != 0
    ensures Text(b) == name
  {
    if name != [] {
      TextIs(b[1..], name[1..]);
      assert name == [name[0]] + name[1..];
    }
  }

  // ---- reading what was written ----

  /** The scan after the slots numbered above m have been read. */
  predicate Got(s: Scan, name: seq<byte>, sum: byte, start: int, m: nat) {
    var n := LongSlots(|name|);
    && Sized(s) && s.live && s.sum == sum && s.start == start && 13 * n < 256
    && s.name[13 * n] == 0 && s.wide[13 * n] == 0
    && (forall k :: 13 * m <= k < 13 * n ==> s.wide[k] == Unit(name, k))
    && (forall k :: 13 * m <= k < 13 * n ==> s.name[k] == Unit(name, k) % 256)
  }

  /** The units of a slot are the part of the name it stands for. */
  lemma PartIs(s: Slot, name: seq<byte>, ord: nat, sum: byte)
    requires ord >= 1 && IsPart(s, name, ord, sum)
    ensures forall j :: 0 <= j < 13 ==> Units(s)[j] == Unit(name, 13 * (ord - 1) + j)
    ensures forall j :: 0 <= j < 13 ==> LowBytes(s)[j] == Unit(name, 13 * (ord - 1) + j) % 256
  {
    forall j | 0 <= j < 13
      ensures Units(s)[j] == Unit(name, 13 * (ord - 1) + j) && LowBytes(s)[j] == Unit(name, 13 * (ord - 1) + j) % 256
    {
      var o := UnitAt(j);
      assert Pair(s, o) == Unit(name, 13 * (ord - 1) + j);
      assert Pair(s, o) % 256 == s[o];
    }
  }

  lemma StepInside(s: Scan, slot: Slot, at: int, name: seq<byte>, m: nat)
    requires Storable(name) && 1 <= m < LongSlots(|name|) && Sized(s) && s.live && IsPart(slot, name, m, s.sum)
    ensures IsLong(slot) && Readable(slot)
    ensures LongStep(s, slot, at)
         == s.(name := Splice(s.name, 13 * (m - 1), LowBytes(slot)), wide := Splice(s.wide, 13 * (m - 1), Units(slot)))
  {
    hide Unit, Units, LowBytes;
    assert slot[0] == m < 20;
  }

  /** Copying a part that is what it should be, below parts that are, leaves all of it as it should be. */
  lemma Extended(a: seq<nat>, p: nat, part: seq<nat>, want: nat -> nat, top: nat)
    requires p + |part| <= top <= |a|
    requires forall j :: 0 <= j < |part| ==> part[j] == want(p + j)
    requires forall k :: p + |part| <= k < top ==> a[k] == want(k)
    ensures forall k :: p <= k < top ==> Splice(a, p, part)[k] == want(k)
  {
    forall k | p <= k < top ensures Splice(a, p, part)[k] == want(k) {
      if k < p + |part| { assert part[k - p] == want(p + (k - p)); }
    }
  }

  lemma GotMore(s: Scan, slot: Slot, at: int, name: seq<byte>, sum: byte, start: int, m: nat)
    requires Storable(name) && 1 <= m < LongSlots(|name|) && IsPart(slot, name, m, sum)
    requires Got(s, name, sum, start, m)
    ensures Readable(slot) && Got(LongStep(s, slot, at), name, sum, start, m - 1)
  {
    hide Unit, Units, LowBytes, LongStep, IsPart, Splice;
    PartIs(slot, name, m, sum);
    StepInside(s, slot, at, name, m);
    var p, n := 13 * (m - 1), LongSlots(|name|);
    Extended(s.wide, p, Units(slot), k => Unit(name, k), 13 * n);
    Extended(s.name, p, LowBytes(slot), k => Unit(name, k) % 256, 13 * n);
    assert Splice(s.wide, p, Units(slot))[13 * n] == 0 by { SpliceAbove(s.wide, p, Units(slot), 13 * n); }
    assert Splice(s.name, p, LowBytes(slot))[13 * n] == 0 by { SpliceAbove(s.name, p, LowBytes(slot), 13 * n); }
  }

  lemma SpliceAbove<T>(a: seq<T>, p: nat, part: seq<T>, k: nat)
    requires p + |part| <= k < |a|
    ensures Splice(a, p, part)[k] == a[k]
  {
  }

  /** The slot with the end of the name starts afresh, whatever was scanned before it. */
  lemma GotFirst(s: Scan, slot: Slot, at: int, name: seq<byte>, sum: byte)
    requires Sized(s) && Storable(name) && IsPart(slot, name, LongSlots(|name|), sum)
    ensures Readable(slot) && Got(LongStep(s, slot, at), name, sum, at, LongSlots(|name|) - 1)
  {
    hide Unit, Units, LowBytes;
    var n := LongSlots(|name|);
    PartIs(slot, name, n, sum);
    var r := LongStep(s, slot, at);
    assert r.wide == Splice(s.wide[13 * n := 0], 13 * (n - 1), Units(slot));
    assert r.name == Splice(s.name[13 * n := 0], 13 * (n - 1), LowBytes(slot));
  }

  /** The result of a scan is an entry with this name, its first slot and its alias slot. */
  predicate Shows(r: Option<Found>, name: seq<byte>, start: int, end: int) {
    r.Some? && r.value.end == end && r.value.scan.start == start && Text(r.value.scan.name) == name
  }

  /** A long slot is passed over, in the state it leaves. */
  lemma NextLong(dir: seq<Slot>, at: nat, s: Scan)
    requires Sized(s) && at < |dir| && IsLong(dir[at]) && forall k :: 0 <= k < |dir| ==> Readable(dir[k])
    ensures Next(dir, at, s) == Next(dir, at + 1, LongStep(s, dir[at], at))
  {
  }

  lemma NextPlain(dir: seq<Slot>, at: nat, s: Scan)
    requires Sized(s) && at < |dir| && Plain(dir[at]) && forall k :: 0 <= k < |dir| ==> Readable(dir[k])
    ensures Next(dir, at, s) == Some(Found(Close(s, dir[at], at), at))
  {
  }

  lemma GotAll(s: Scan, name: seq<byte>, data: Slot, start: int, at: int)
    requires Storable(name) && Got(s, name, CheckSum(data, 11), start, 0)
    ensures Close(s, data, at) == s && s.start == start && Text(s.name) == name && Text(s.wide) == name
  {
    var len, n := |name|, LongSlots(|name|);
    if len < 13 * n { assert s.wide[len] == Unit(name, len); }
    TextIs(s.wide, name);
    TextIs(s.name, name);
  }

  predicate ShowsBoth(r: Option<Found>, name: seq<byte>, start: int, end: int) {
    Shows(r, name, start, end) && Text(r.value.scan.wide) == name
  }

  lemma {:induction false} ReadsOn(dir: seq<Slot>, at: nat, name: seq<byte>, data: Slot, s: Scan, m: nat)
    requires forall k :: 0 <= k < |dir| ==> Readable(dir[k])
    requires Storable(name) && Plain(data) && Written(dir, at, name, data)
    requires m < LongSlots(|name|) && Sized(s) && Got(s, name, CheckSum(data, 11), at, m)
    ensures var n := LongSlots(|name|);
      ShowsBoth(Next(dir, at + n - m, s), name, at, at + n)
    decreases m
  {
    hide Next, LongStep, Close, Got, Text, Readable, CheckSum, Storable, Plain;
    var n, sum := LongSlots(|name|), CheckSum(data, 11);
    assert Sized(s) by { GotSized(s, name, sum, at, m); }
    if m == 0 {
      GotAll(s, name, data, at, at + n);
      NextPlain(dir, at + n, s);
    } else {
      var slot := dir[at + n - m];
      assert IsPart(slot, name, m, sum);
      GotMore(s, slot, at + n - m, name, sum, at, m);
      NextLong(dir, at + n - m, s);
      ReadsOn(dir, at, name, data, LongStep(s, slot, at + n - m), m - 1);
    }
  }

  lemma GotSized(s: Scan, name: seq<byte>, sum: byte, start: int, m: nat)
    requires Got(s, name, sum, start, m)
    ensures Sized(s)
  {
  }

  /** Reading the slots of a written name gives the name, from any earlier state, and ends at the alias slot. */
  lemma ReadsWritten(dir: seq<Slot>, at: nat, name: seq<byte>, data: Slot, s: Scan)
    requires forall k :: 0 <= k < |dir| ==> Readable(dir[k])
    requires Sized(s) && Storable(name) && Plain(data) && Written(dir, at, name, data)
    ensures ShowsBoth(Next(dir, at, s), name, at, at + LongSlots(|name|))
  {
    hide Next, LongStep, Close, Got, Text, Readable, CheckSum, Plain;
    var n, sum := LongSlots(|name|), CheckSum(data, 11);
    assert IsPart(dir[at], name, n, sum);
    GotFirst(s, dir[at], at, name, sum);
    NextLong(dir, at, s);
    ReadsOn(dir, at, name, data, LongStep(s, dir[at], at), n - 1);
  }

  // ---- an entry as other systems write it ----

  /** The name abcdefghijkl in one slot with its terminator, and the alias ABCDEF~1. */
  const LONG_SLOT: Slot :=
    [0x41, 0x61, 0x00, 0x62, 0x00, 0x63, 0x00, 0x64, 0x00, 0x65, 0x00, 0x0f, 0x00, 0xca, 0x66, 0x00,
     0x67, 0x00, 0x68, 0x00, 0x69, 0x00, 0x6a, 0x00, 0x6b, 0x00, 0x00, 0x00, 0x6c, 0x00, 0x00, 0x00]

  const ALIAS_SLOT: Slot :=
    [0x41, 0x42, 0x43, 0x44, 0x45, 0x46, 0x7e, 0x31, 0x20, 0x20, 0x20, 0x20, 0, 0, 0, 0,
     0, 0, 0, 0, 0, 0, 0, 0, 0, 0, 0, 0, 0, 0, 0, 0]

  const LONG_NAME: seq<byte> := [0x61, 0x62, 0x63, 0x64, 0x65, 0x66, 0x67, 0x68, 0x69, 0x6a, 0x6b, 0x6c]

  lemma ExampleSum(s: Slot)
    requires s[0] == 0x41 && s[1] == 0x42 && s[2] == 0x43 && s[3] == 0x44 && s[4] == 0x45 && s[5] == 0x46
    requires s[6] == 0x7e && s[7] == 0x31 && s[8] == 0x20 && s[9] == 0x20 && s[10] == 0x20
    ensures CheckSum(s, 11) == 0xca
  {
    assert CheckSum(s, 1) == 0x41;
    assert CheckSum(s, 2) == 0xe2;
    assert CheckSum(s, 3) == 0xb4;
    assert CheckSum(s, 4) == 0x9e;
    assert CheckSum(s, 5) == 0x94;
    assert CheckSum(s, 6) == 0x90;
    assert CheckSum(s, 7) == 0xc6;
    assert CheckSum(s, 8) == 0x94;
    assert CheckSum(s, 9) == 0x6a;
    assert CheckSum(s, 10) == 0x55;
  }

  /** Units as they lie in the three stretches make up a slot. */
  lemma PartFrom(s: Slot, name: seq<byte>, sum: byte)
    requires |name| == 12 && s[0] == 0x41 && s[11] == 0x0f && s[12] == 0 && s[13] == sum && s[26] == 0 && s[27] == 0
    requires Pair(s, 1) == name[0] && Pair(s, 3) == name[1] && Pair(s, 5) == name[2] && Pair(s, 7) == name[3] && Pair(s, 9) == name[4]
    requires Pair(s, 14) == name[5] && Pair(s, 16) == name[6] && Pair(s, 18) == name[7] && Pair(s, 20) == name[8]
    requires Pair(s, 22) == name[9] && Pair(s, 24) == name[10] && Pair(s, 28) == name[11] && Pair(s, 30) == 0
    ensures IsPart(s, name, 1, sum)
  {
    hide Pair;
  }

  lemma ExampleBytes()
    ensures var s := ALIAS_SLOT;
      && s[0] == 0x41 && s[1] == 0x42 && s[2] == 0x43 && s[3] == 0x44 && s[4] == 0x45 && s[5] == 0x46
      && s[6] == 0x7e && s[7] == 0x31 && s[8] == 0x20 && s[9] == 0x20 && s[10] == 0x20 && s[11] == 0x20
  {
  }

  lemma ExampleWritten()
    ensures IsPart(LONG_SLOT, LONG_NAME, 1, 0xca)
  {
    hide IsPart;
    PartFrom(LONG_SLOT, LONG_NAME, 0xca);
  }

  /** The two slots are read as an entry of that name, from any earlier state. */
  lemma ExampleRead(s: Scan)
    requires Sized(s)
    ensures var dir := [LONG_SLOT, ALIAS_SLOT];
      (forall k :: 0 <= k < |dir| ==> Readable(dir[k])) && ShowsBoth(Next(dir, 0, s), LONG_NAME, 0, 1)
  {
    hide Next, CheckSum, IsPart, Text;
    ExampleBytes();
    ExampleSum(ALIAS_SLOT);
    ExampleWritten();
    ReadsWritten([LONG_SLOT, ALIAS_SLOT], 0, LONG_NAME, ALIAS_SLOT, s);
  }
}
