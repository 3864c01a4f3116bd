/**
 * The packed links of the file allocation table. An entry is 12, 16 or 32 bits wide; a 12-bit entry
 * shares one of its two bytes with a neighbour and may straddle two sectors. Shifts and masks on
 * whole nibbles and bytes are written as division, remainder, multiplication and addition.
 */
module FatEntry {
  import opened Bytes
  import opened Geometry

  /** Little-endian numbers. */
  function U16(b0: byte, b1: byte): (r: nat) { b0 as int + 0x100 * b1 as int }

  function U32(b0: byte, b1: byte, b2: byte, b3: byte): (r: nat) {
    U16(b0, b1) + 0x1_0000 * U16(b2, b3)
  }

  /** The number stored in the entry, before the end-of-file threshold is applied. */
  function Raw(v: Volume, s: seq<byte>, c: nat): nat
    requires v.EntryAddress(c) + v.EntryBytes() <= |s|
  {
    var a := v.EntryAddress(c);
    match v.Type()
    case Fat12 => if c % 2 == 1 then U16(s[a], s[a + 1]) / 16 else U16(s[a], s[a + 1]) % 4096
    case Fat16 => U16(s[a], s[a + 1])
    case Fat32 => U32(s[a], s[a + 1], s[a + 2], s[a + 3])
  }

  function EofFrom(t: FsType): nat {
    match t case Fat12 => 0x0FF7 case Fat16 => 0xFFF7 case Fat32 => 0x0FFFFFF7
  }

  /** All numbers from the threshold on mean end of file. */
  function Marked(t: FsType, raw: nat): nat {
    if raw >= EofFrom(t) then CLUSTER_EOF else raw
  }

  /** The link of a cluster as the rest of the file system sees it. */
  function Link(v: Volume, s: seq<byte>, c: nat): nat
    requires v.EntryAddress(c) + v.EntryBytes() <= |s|
  {
    Marked(v.Type(), Raw(v, s, c))
  }

  // ---- the links in numbers ----

  /** The number of clusters alone tells the width of the entries. */
  lemma WidthIs(v: Volume)
    ensures v.Type() == Fat12 <==> v.lastCluster < 4085
    ensures v.Type() == Fat16 <==> 4085 <= v.lastCluster < 65525
    ensures v.Type() == Fat32 <==> 65525 <= v.lastCluster
  {
  }

  /** A 12-bit link: from 0xFF7 on the end of a file, otherwise the number in three of the four digits of its bytes. */
  lemma Link12(v: Volume, s: seq<byte>, c: nat)
    requires v.Type() == Fat12 && 512 * v.fatStart + 3 * c / 2 + 2 <= |s|
    ensures v.EntryAddress(c) + v.EntryBytes() <= |s|
    ensures var a := 512 * v.fatStart + 3 * c / 2;
      var n := if c % 2 == 1 then s[a] as int / 16 + 16 * s[a + 1] as int else s[a] as int + 256 * (s[a + 1] as int % 16);
      Link(v, s, c) == if n >= 0xFF7 then 0x0FFFFFFF else n
  {
    assert c * 3 / 2 == 3 * c / 2;
    var a := v.EntryAddress(c);
    SharedDigits(s[a], s[a + 1]);
  }

  lemma SharedDigits(b0: byte, b1: byte)
    ensures U16(b0, b1) / 16 == b0 as int / 16 + 16 * b1 as int
    ensures U16(b0, b1) % 4096 == b0 as int + 256 * (b1 as int % 16)
  {
  }

  /** A 16-bit link: from 0xFFF7 on the end of a file. */
  lemma Link16(v: Volume, s: seq<byte>, c: nat)
    requires v.Type() == Fat16 && 512 * v.fatStart + 2 * c + 2 <= |s|
    ensures v.EntryAddress(c) + v.EntryBytes() <= |s|
    ensures var a := 512 * v.fatStart + 2 * c;
      var n := s[a] as int + 256 * s[a + 1] as int;
      Link(v, s, c) == if n >= 0xFFF7 then 0x0FFFFFFF else n
  {
  }

  /** A 32-bit link: from 0x0FFFFFF7 on the end of a file. */
  lemma Link32(v: Volume, s: seq<byte>, c: nat)
    requires v.Type() == Fat32 && 512 * v.fatStart + 4 * c + 4 <= |s|
    ensures v.EntryAddress(c) + v.EntryBytes() <= |s|
    ensures var a := 512 * v.fatStart + 4 * c;
      var n := s[a] as int + 0x100 * s[a + 1] as int + 0x1_0000 * s[a + 2] as int + 0x100_0000 * s[a + 3] as int;
      Link(v, s, c) == if n >= 0x0FFFFFF7 then 0x0FFFFFFF else n
  {
  }

  /** The values the file system stores in an entry. */
  predicate Storable(v: Volume, value: nat) {
    value == CLUSTER_FREE || value == CLUSTER_EOF || CLUSTER_FIRST <= value <= v.lastCluster
  }

  /** The thresholds of the volume types keep every link apart from the free and end-of-file marks. */
  lemma LinksAreDistinctMarks(v: Volume, value: nat)
    requires v.Ok() && CLUSTER_FIRST <= value <= v.lastCluster
    ensures CLUSTER_FREE < value < EofFrom(v.Type()) <= CLUSTER_EOF
  {
  }

  /** Byte `k` of a number, counted from the least significant one. */
  function ByteOf(value: nat, k: nat): byte
    requires k < 4
  {
    (match k case 0 => value case 1 => value / 0x100 case 2 => value / 0x1_0000 case 3 => value / 0x100_0000) % 256
  }

  /** The disc after the entry of `c` has been overwritten with `value`. */
  function Stored(v: Volume, s: seq<byte>, c: nat, value: nat): (r: seq<byte>)
    requires v.EntryAddress(c) + v.EntryBytes() <= |s|
    ensures |r| == |s|
    ensures forall i :: 0 <= i < |s| && !(v.EntryAddress(c) <= i < v.EntryAddress(c) + v.EntryBytes()) ==> r[i] == s[i]
  {
    var a := v.EntryAddress(c);
    match v.Type()
    case Fat12 =>
      if c % 2 == 1 then s[a := value % 16 * 16 + s[a] as int % 16][a + 1 := value / 16 % 256]
      else s[a := ByteOf(value, 0)][a + 1 := value / 256 % 16 + s[a + 1] as int / 16 * 16]
    case Fat16 => s[a := ByteOf(value, 0)][a + 1 := ByteOf(value, 1)]
    case Fat32 => s[a := ByteOf(value, 0)][a + 1 := ByteOf(value, 1)][a + 2 := ByteOf(value, 2)][a + 3 := ByteOf(value, 3)]
  }

  lemma OddNibbles(value: nat, old0: byte)
    ensures U16(value % 16 * 16 + old0 as int % 16, value / 16 % 256) / 16 == value % 4096
    ensures U16(value % 16 * 16 + old0 as int % 16, value / 16 % 256) % 16 == old0 as int % 16
  {
    var x, y := old0 as int % 16, value / 16 % 256 * 16 + value % 16;
    assert value % 4096 == y;
    assert U16(value % 16 * 16 + x, value / 16 % 256) == 16 * y + x;
    SixteenTimes(y, x);
  }

  lemma SixteenTimes(y: nat, x: nat)
    requires x < 16
    ensures (16 * y + x) / 16 == y && (16 * y + x) % 16 == x
  {
  }

  lemma EvenNibbles(value: nat, old1: byte)
    ensures U16(ByteOf(value, 0), value / 256 % 16 + old1 as int / 16 * 16) % 4096 == value % 4096
    ensures (value / 256 % 16 + old1 as int / 16 * 16) / 16 == old1 as int / 16
  {
    assert value % 4096 == value / 256 % 16 * 256 + value % 256;
  }

  lemma FourBytes(value: nat)
    requires value < 0x1_0000_0000
    ensures U32(ByteOf(value, 0), ByteOf(value, 1), ByteOf(value, 2), ByteOf(value, 3)) == value
  {
    assert value == value / 0x100 * 0x100 + value % 0x100;
    assert value / 0x100 == value / 0x1_0000 * 0x100 + value / 0x100 % 0x100;
    assert value / 0x1_0000 == value / 0x100_0000 * 0x100 + value / 0x1_0000 % 0x100;
  }

  /** How many values an entry can tell apart. */
  function EntryRange(t: FsType): nat {
    match t case Fat12 => 4096 case Fat16 => 0x1_0000 case Fat32 => 0x1_0000_0000
  }

  lemma RawStored(v: Volume, s: seq<byte>, c: nat, value: nat)
    requires v.EntryAddress(c) + v.EntryBytes() <= |s| && value < 0x1_0000_0000
    ensures Raw(v, Stored(v, s, c, value), c) == value % EntryRange(v.Type())
  {
    hide U16, U32, ByteOf;
    var a := v.EntryAddress(c);
    match v.Type()
    case Fat12 =>
      if c % 2 == 1 { OddNibbles(value, s[a]); } else { EvenNibbles(value, s[a + 1]); }
    case Fat16 =>
      TwoBytes(value);
    case Fat32 =>
      FourBytes(value);
  }

  lemma TwoBytes(value: nat)
    ensures U16(ByteOf(value, 0), ByteOf(value, 1)) == value % 0x1_0000
  {
    assert value / 0x100 == value / 0x1_0000 * 0x100 + value / 0x100 % 0x100;
  }

  /** The link an entry shows after a 32-bit number has been stored in it. */
  function ReadBack(v: Volume, value: nat): nat {
    Marked(v.Type(), value % EntryRange(v.Type()))
  }

  /** The narrow widths lose nothing but the upper digits of the end-of-file mark. */
  lemma MarkSurvives(v: Volume, value: nat)
    requires v.Ok() && Storable(v, value)
    ensures ReadBack(v, value) == value
  {
    if value == CLUSTER_EOF {
      assert CLUSTER_EOF % 4096 == 0xFFF && CLUSTER_EOF % 0x1_0000 == 0xFFFF;
    } else if value != CLUSTER_FREE {
      LinksAreDistinctMarks(v, value);
    }
  }

  /** What is stored is read back. */
  lemma StoredSame(v: Volume, s: seq<byte>, c: nat, value: nat)
    requires v.EntryAddress(c) + v.EntryBytes() <= |s| && value < 0x1_0000_0000
    ensures Link(v, Stored(v, s, c, value), c) == ReadBack(v, value)
  {
    RawStored(v, s, c, value);
  }

  /** In 12-bit entries the lower half of the shared byte belongs to the even neighbour, the upper half to the odd one. */
  lemma SharedByte(b0: byte, b1: byte, c1: byte)
    requires b1 as int % 16 == c1 as int % 16
    ensures U16(b0, b1) % 4096 == U16(b0, c1) % 4096
  {
    assert U16(b0, b1) % 4096 == b0 as int + 256 * (b1 as int % 16);
    assert U16(b0, c1) % 4096 == b0 as int + 256 * (c1 as int % 16);
  }

  lemma SharedByteUpper(b0: byte, b1: byte, c0: byte)
    requires b0 as int / 16 == c0 as int / 16
    ensures U16(b0, b1) / 16 == U16(c0, b1) / 16
  {
    assert U16(b0, b1) / 16 == b0 as int / 16 + 16 * b1 as int;
    assert U16(c0, b1) / 16 == c0 as int / 16 + 16 * b1 as int;
  }

  /** Two 12-bit entries share a byte exactly when they are an even one and the next. */
  lemma Overlap12(v: Volume, c: nat, d: nat)
    requires v.Type() == Fat12 && c < d
    ensures v.EntryBytes() == 2
    ensures if d == c + 1 && c % 2 == 0 then v.EntryAddress(d) == v.EntryAddress(c) + 1 && d % 2 == 1
            else v.EntryAddress(d) >= v.EntryAddress(c) + 2
  {
    Halves(c);
    Halves(d);
  }

  lemma Halves(c: nat)
    ensures c * 3 / 2 == 3 * (c / 2) + c % 2
  {
  }

  /** No other 12-bit link changes, not even the one that shares a byte. */
  lemma StoredOther12(v: Volume, s: seq<byte>, c: nat, value: nat, d: nat)
    requires v.Type() == Fat12 && c != d
    requires v.EntryAddress(c) + 2 <= |s| && v.EntryAddress(d) + 2 <= |s|
    ensures v.EntryBytes() == 2 && Link(v, Stored(v, s, c, value), d) == Link(v, s, d)
  {
    hide U16, ByteOf, Volume.EntryAddress;
    if c < d { Overlap12(v, c, d); } else { Overlap12(v, d, c); }
    var a, b := v.EntryAddress(c), v.EntryAddress(d);
    var r := Stored(v, s, c, value);
    if d == c + 1 && c % 2 == 0 {
      EvenNibbles(value, s[a + 1]);
      SharedByteUpper(s[b], s[b + 1], r[b]);
    } else if c == d + 1 && d % 2 == 0 {
      OddNibbles(value, s[a]);
      SixteenTimes(value % 16, s[a] as int % 16);
      SharedByte(s[b], s[b + 1], r[b + 1]);
    }
  }

  lemma StoredOther(v: Volume, s: seq<byte>, c: nat, value: nat, d: nat)
    requires c != d
    requires v.EntryAddress(c) + v.EntryBytes() <= |s| && v.EntryAddress(d) + v.EntryBytes() <= |s|
    ensures Link(v, Stored(v, s, c, value), d) == Link(v, s, d)
  {
    if v.Type() == Fat12 {
      StoredOther12(v, s, c, value, d);
    } else {
      var a, b := v.EntryAddress(c), v.EntryAddress(d);
      assert b >= a + v.EntryBytes() || a >= b + v.EntryBytes();
    }
  }

  /** The first n links of the table. */
  function LinksBelow(v: Volume, s: seq<byte>, n: nat): (t: seq<nat>)
    requires v.Ok() && BYTES_PER_READ * v.dataStart <= |s| && n <= v.lastCluster + 2
    ensures |t| == n
  {
    if n == 0 then [] else LinksBelow(v, s, n - 1) + [Link(v, s, n - 1)]
  }

  /** The whole table: entry c of the sequence is the link of cluster c. */
  function Table(v: Volume, s: seq<byte>): (t: seq<nat>)
    requires v.Ok() && BYTES_PER_READ * v.dataStart <= |s|
    ensures |t| == v.lastCluster + 2
  {
    LinksBelow(v, s, v.lastCluster + 2)
  }

  lemma {:induction false} LinksBelowAt(v: Volume, s: seq<byte>, n: nat, c: nat)
    requires v.Ok() && BYTES_PER_READ * v.dataStart <= |s| && c < n <= v.lastCluster + 2
    ensures LinksBelow(v, s, n)[c] == Link(v, s, c)
  {
    if c < n - 1 {
      LinksBelowAt(v, s, n - 1, c);
    }
  }

  lemma TableAt(v: Volume, s: seq<byte>, c: nat)
    requires v.Ok() && BYTES_PER_READ * v.dataStart <= |s| && c <= v.lastCluster + 1
    ensures Table(v, s)[c] == Link(v, s, c)
  {
    LinksBelowAt(v, s, v.lastCluster + 2, c);
  }

  /** Storing an entry updates the table at one place. */
  lemma StoredTable(v: Volume, s: seq<byte>, c: nat, value: nat)
    requires v.Ok() && BYTES_PER_READ * v.dataStart <= |s|
    requires c <= v.lastCluster + 1 && value < 0x1_0000_0000
    ensures Table(v, Stored(v, s, c, value)) == Table(v, s)[c := ReadBack(v, value)]
  {
    var r := Stored(v, s, c, value);
    forall d | 0 <= d < v.lastCluster + 2
      ensures Table(v, r)[d] == Table(v, s)[c := ReadBack(v, value)][d]
    {
      TableAt(v, s, d);
      TableAt(v, r, d);
      if d == c { StoredSame(v, s, c, value); } else { StoredOther(v, s, c, value, d); }
    }
  }

  /** The table depends on no byte behind it. */
  lemma TableFrame(v: Volume, s: seq<byte>, r: seq<byte>)
    requires v.Ok() && BYTES_PER_READ * v.dataStart <= |s| && BYTES_PER_READ * v.dataStart <= |r|
    requires forall i :: 0 <= i < BYTES_PER_READ * v.dataStart ==> s[i] == r[i]
    ensures Table(v, s) == Table(v, r)
  {
    forall d | 0 <= d < v.lastCluster + 2
      ensures Table(v, s)[d] == Table(v, r)[d]
    {
      EntryFits(v, d);
      TableAt(v, s, d);
      TableAt(v, r, d);
    }
  }
}
