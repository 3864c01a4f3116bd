/** The directory as the program reads and writes it: enumerating entries, adding one and removing one. */
module DirectorySlots {
  import opened Bytes
  import opened LongNames

  // ---- a directory and its listing ----

  /** What lies in a directory: long entries, entries with an alias only, and slots that are passed over. */
  datatype Item = Long(name: seq<byte>, data: Slot) | Short(data: Slot) | Passed(slot: Slot)

  /** Erased slots, volume labels, and slots whose first byte marks no entry. */
  predicate Passable(s: Slot) {
    if IsLong(s) then s[0] >= 128 else IsVolume(s) || s[0] == DIR_ENTRY_FREE || 0 < s[0] <= 0x20
  }

  predicate Proper(i: Item) {
    match i
    case Long(name, data) => Storable(name) && Plain(data)
    case Short(data) => Plain(data) && forall k :: 0 <= k < |Alias(data)| ==> Alias(data)[k] != 0
    case Passed(slot) => Passable(slot)
  }

  function Slots(i: Item): (n: nat) ensures n >= 1 { if i.Long? then LongSlots(|i.name|) + 1 else 1 }

  predicate Holds(dir: seq<Slot>, at: nat, i: Item) {
    && Proper(i) && at + Slots(i) <= |dir|
    && match i
       case Long(name, data) => Written(dir, at, name, data)
       case Short(data) => dir[at] == data
       case Passed(slot) => dir[at] == slot
  }

  function Total(items: seq<Item>): nat { if items == [] then 0 else Slots(items[0]) + Total(items[1..]) }

  /** The items lie one after the other from place `at`. */
  predicate Lays(dir: seq<Slot>, at: nat, items: seq<Item>)
    decreases |items|
  {
    items != [] ==> Holds(dir, at, items[0]) && Lays(dir, at + Slots(items[0]), items[1..])
  }

  /** No entry follows: the slots end, or the slot that ends the directory lies here. */
  predicate Ends(dir: seq<Slot>, at: nat) {
    at < |dir| ==> !IsLong(dir[at]) && !IsVolume(dir[at]) && dir[at][0] == 0
  }

  datatype Entry = Entry(name: seq<nat>, start: int, end: int)

  function Head(i: Item, at: nat): seq<Entry> {
    match i
    case Long(name, _) => [Entry(name, at, at + LongSlots(|name|))]
    case Short(data) => [Entry(Alias(data), at, at)]
    case Passed(_) => []
  }

  /** The entries that the items stand for. */
  function Entries(items: seq<Item>, at: nat): seq<Entry> {
    if items == [] then [] else Head(items[0], at) + Entries(items[1..], at + Slots(items[0]))
  }

  /** All that repeated reading gives from place `at`, the buffers keeping what the last reading left there. */
  function Listing(dir: seq<Slot>, at: nat, name: seq<byte>, wide: seq<nat>): seq<Entry>
    requires |name| == |wide| == 256 && forall k :: 0 <= k < |dir| ==> Readable(dir[k])
    decreases |dir| - at
  {
    match Next(dir, at, Scan(false, 0, at - 1, name, wide))
    case None => []
    case Some(f) => [Entry(Text(f.scan.name), f.scan.start, f.end)] + Listing(dir, f.end + 1, f.scan.name, f.scan.wide)
  }

  /** Which of the four kinds a slot is: an entry, a slot passed over, part of a long name, the end of the directory. */
  function Kinds(s: Slot): nat {
    (if Plain(s) then 1 else 0) + (if Passable(s) then 1 else 0) + (if IsLong(s) && s[0] < 128 then 1 else 0)
    + if Ends([s], 0) then 1 else 0
  }

  /** Every slot is of exactly one kind. */
  lemma OneKind(s: Slot)
    ensures Kinds(s) == 1
  {
  }

  lemma PassableMarks(s: Slot)
    ensures Passable(s) <==>
      if s[11] == 0x0F then s[0] >= 128 else s[11] % 16 >= 8 || s[0] == 0xE5 || 1 <= s[0] <= 0x20
  {
  }

  lemma PassedOver(dir: seq<Slot>, at: nat, s: Scan)
    requires Sized(s) && !s.live && forall k :: 0 <= k < |dir| ==> Readable(dir[k])
    requires at < |dir| && Passable(dir[at])
    ensures Next(dir, at, s) == Next(dir, at + 1, s)
  {
    hide LongStep;
    if IsLong(dir[at]) { assert LongStep(s, dir[at], at) == s by { ErasedStep(s, dir[at], at); } }
  }

  lemma ErasedStep(s: Scan, slot: Slot, at: nat)
    requires Sized(s) && !s.live && IsLong(slot) && slot[0] >= 128 && Readable(slot)
    ensures LongStep(s, slot, at) == s
  {
  }

  /** An entry without a long name is read as its alias. */
  lemma ReadsAlias(dir: seq<Slot>, at: nat, s: Scan)
    requires Sized(s) && !s.live && forall k :: 0 <= k < |dir| ==> Readable(dir[k])
    requires at < |dir| && Proper(Short(dir[at]))
    ensures Shows(Next(dir, at, s), Alias(dir[at]), at, at)
  {
    hide Alias;
    var a := Alias(dir[at]);
    NextPlain(dir, at, s);
    var b := Splice(s.name, 0, a + [0]);
    assert forall k :: 0 <= k < |a| ==> b[k] == a[k];
    assert b[|a|] == 0;
    TextIs(b, a);
  }

  /** The start of a reading matters only where no long name follows. */
  lemma StartUnused(dir: seq<Slot>, at: nat, s: Scan, t: Scan)
    requires Sized(s) && !s.live && t == s.(start := t.start) && forall k :: 0 <= k < |dir| ==> Readable(dir[k])
    ensures Next(dir, at, s) == Next(dir, at, t)
    decreases |dir| - at
  {
    hide CheckSum, LowBytes, Units, Alias;
    if at < |dir| && IsLong(dir[at]) {
      var x, y := LongStep(s, dir[at], at), LongStep(t, dir[at], at);
      if dir[at][0] < 128 && dir[at][0] >= 64 {
        assert x == y;
      } else {
        StartUnused(dir, at + 1, x, y);
      }
    } else if at < |dir| {
      StartUnused(dir, at + 1, s, t);
    }
  }

  /** One reading past an item that is an entry. */
  lemma ReadsItem(dir: seq<Slot>, at: nat, i: Item, name: seq<byte>, wide: seq<nat>)
    requires |name| == |wide| == 256 && forall k :: 0 <= k < |dir| ==> Readable(dir[k])
    requires Holds(dir, at, i) && !i.Passed?
    ensures var r := Next(dir, at, Scan(false, 0, at - 1, name, wide));
      r.Some? && r.value.end + 1 == at + Slots(i) && [Entry(Text(r.value.scan.name), r.value.scan.start, r.value.end)] == Head(i, at)
  {
    hide Written, Alias, Readable, Text, Proper, Plain, Next, Storable;
    var s := Scan(false, 0, at - 1, name, wide);
    match i {
      case Long(n, data) =>
        ProperLong(n, data);
        ReadsWritten(dir, at, n, data, s);
      case Short(data) =>
        ReadsAlias(dir, at, s);
    }
  }

  /** Nothing is read of a slot that is passed over. */
  lemma PassesItem(dir: seq<Slot>, at: nat, name: seq<byte>, wide: seq<nat>)
    requires |name| == |wide| == 256 && forall k :: 0 <= k < |dir| ==> Readable(dir[k])
    requires at < |dir| && Passable(dir[at])
    ensures Listing(dir, at, name, wide) == Listing(dir, at + 1, name, wide)
  {
    hide Readable, Text, Next, Passable;
    var s, t := Scan(false, 0, at - 1, name, wide), Scan(false, 0, at, name, wide);
    PassedOver(dir, at, s);
    StartUnused(dir, at + 1, s, t);
  }

  /** Reading a directory gives exactly its entries, in order, each with its name and its place. */
  lemma {:induction false} ListingIsEntries(dir: seq<Slot>, at: nat, items: seq<Item>, end: nat,
                                             name: seq<byte>, wide: seq<nat>)
    requires |name| == |wide| == 256 && forall k :: 0 <= k < |dir| ==> Readable(dir[k])
    requires Lays(dir, at, items) && end == at + Total(items) && Ends(dir, end)
    ensures Listing(dir, at, name, wide) == Entries(items, at)
    decreases |items|
  {
    hide Readable, Text, Next, Holds, Head, Ends, IsLong, IsVolume;
    if items == [] {
      NothingLeft(dir, end, Scan(false, 0, at - 1, name, wide));
    } else if items[0].Passed? {
      HoldsPassed(dir, at, items[0]);
      PassesItem(dir, at, name, wide);
      ListingIsEntries(dir, at + 1, items[1..], end, name, wide);
    } else {
      var r := Next(dir, at, Scan(false, 0, at - 1, name, wide));
      ReadsItem(dir, at, items[0], name, wide);
      ListingIsEntries(dir, r.value.end + 1, items[1..], end, r.value.scan.name, r.value.scan.wide);
    }
  }

  lemma NothingLeft(dir: seq<Slot>, at: nat, s: Scan)
    requires Sized(s) && Ends(dir, at) && forall k :: 0 <= k < |dir| ==> Readable(dir[k])
    ensures Next(dir, at, s) == None
  {
  }

  lemma HoldsPassed(dir: seq<Slot>, at: nat, i: Item)
    requires Holds(dir, at, i) && i.Passed?
    ensures Slots(i) == 1 && at < |dir| && Passable(dir[at]) && Head(i, at) == []
  {
  }

  lemma ProperLong(name: seq<byte>, data: Slot)
    requires Proper(Long(name, data))
    ensures Storable(name) && Plain(data)
  {
  }

  // ---- items side by side ----

  lemma {:induction false} TotalAppend(a: seq<Item>, b: seq<Item>, at: nat)
    ensures Total(a + b) == Total(a) + Total(b)
    ensures Entries(a + b, at) == Entries(a, at) + Entries(b, at + Total(a))
    decreases |a|
  {
    hide Alias, Slots;
    if a == [] {
      assert a + b == b;
    } else {
      assert (a + b)[1..] == a[1..] + b;
      TotalAppend(a[1..], b, at + Slots(a[0]));
    }
  }

  lemma {:induction false} LaysAppend(dir: seq<Slot>, at: nat, a: seq<Item>, b: seq<Item>)
    ensures Lays(dir, at, a + b) <==> Lays(dir, at, a) && Lays(dir, at + Total(a), b)
    decreases |a|
  {
    hide Holds, Slots;
    if a == [] {
      assert a + b == b;
    } else {
      assert (a + b)[1..] == a[1..] + b;
      LaysAppend(dir, at + Slots(a[0]), a[1..], b);
    }
  }

  /** What lies in a stretch of the directory depends on that stretch only. */
  lemma {:induction false} LaysLocally(dir: seq<Slot>, now: seq<Slot>, at: nat, items: seq<Item>)
    requires Lays(dir, at, items) && |now| == |dir|
    requires forall k :: at <= k < at + Total(items) && k < |dir| ==> now[k] == dir[k]
    ensures Lays(now, at, items)
    decreases |items|
  {
    if items != [] {
      LaysLocally(dir, now, at + Slots(items[0]), items[1..]);
    }
  }

  lemma ThreeParts(dir: seq<Slot>, a: seq<Item>, m: seq<Item>, b: seq<Item>, p: nat, q: nat)
    requires p == Total(a) && q == p + Total(m)
    ensures Total(a + m + b) == q + Total(b)
    ensures Entries(a + m + b, 0) == Entries(a, 0) + Entries(m, p) + Entries(b, q)
    ensures Lays(dir, 0, a + m + b) <==> Lays(dir, 0, a) && Lays(dir, p, m) && Lays(dir, q, b)
  {
    hide Holds, Head, Slots;
    LaysAppend(dir, 0, a, m);
    LaysAppend(dir, 0, a + m, b);
    TotalAppend(a, m, 0);
    TotalAppend(a + m, b, 0);
  }

  // ---- adding and removing ----

  /** The slots from `a` to `b` with the mark of an erased slot. */
  function Wiped(dir: seq<Slot>, a: nat, b: nat): (r: seq<Slot>)
    requires a <= b <= |dir|
    ensures |r| == |dir|
  {
    seq(|dir|, k requires 0 <= k < |dir| => if a <= k < b then dir[k][0 := DIR_ENTRY_FREE] else dir[k])
  }

  /** Slots that are passed over, one item for each. */
  function Gap(slots: seq<Slot>): (g: seq<Item>)
    ensures |g| == |slots|
  {
    if slots == [] then [] else [Passed(slots[0])] + Gap(slots[1..])
  }

  lemma {:induction false} GapIs(dir: seq<Slot>, a: nat, b: nat)
    requires a <= b <= |dir| && forall k :: a <= k < b ==> Passable(dir[k])
    ensures Lays(dir, a, Gap(dir[a..b])) && Total(Gap(dir[a..b])) == b - a && Entries(Gap(dir[a..b]), a) == []
    decreases b - a
  {
    if a < b {
      var g := Gap(dir[a..b]);
      assert dir[a..b][1..] == dir[a + 1..b];
      assert g[0] == Passed(dir[a]) && g[1..] == Gap(dir[a + 1..b]);
      GapIs(dir, a + 1, b);
    }
  }

  lemma ErasedIsPassable(s: Slot)
    ensures Passable(s[0 := DIR_ENTRY_FREE]) && Readable(s[0 := DIR_ENTRY_FREE])
  {
  }

  /**
   * Removing an entry takes exactly that entry out of the listing: the others keep their names and their places.
   */
  lemma RemovalLists(dir: seq<Slot>, before: seq<Item>, gone: Item, after: seq<Item>,
                     a: nat, b: nat, end: nat, name: seq<byte>, wide: seq<nat>)
    requires |name| == |wide| == 256 && forall k :: 0 <= k < |dir| ==> Readable(dir[k])
    requires a == Total(before) && b == a + Slots(gone) && end == b + Total(after)
    requires Lays(dir, 0, before + [gone] + after) && Ends(dir, end)
    ensures b <= |dir|
    ensures forall k :: 0 <= k < |dir| ==> Readable(Wiped(dir, a, b)[k])
    ensures Listing(Wiped(dir, a, b), 0, name, wide) == Entries(before, 0) + Entries(after, b)
    ensures Listing(dir, 0, name, wide) == Entries(before, 0) + Entries([gone], a) + Entries(after, b)
  {
    hide Holds, Readable, Listing, Head, Slots, Gap, Ends, Wiped;
    OneItem(dir, a, gone);
    ThreeParts(dir, before, [gone], after, a, b);
    ListingIsEntries(dir, 0, before + [gone] + after, end, name, wide);
    HoldsInside(dir, a, gone);
    WipedIsGap(dir, a, b);
    var now := Wiped(dir, a, b);
    var gap := Gap(now[a..b]);
    assert Entries(gap, a) == [] && b == a + Total(gap);
    ReplacedLists(dir, now, before, gap, after, a, b, end, name, wide);
    assert Entries(before, 0) + [] == Entries(before, 0);
  }

  lemma WipedIsGap(dir: seq<Slot>, a: nat, b: nat)
    requires a <= b <= |dir| && forall k :: 0 <= k < |dir| ==> Readable(dir[k])
    ensures var now := Wiped(dir, a, b); var gap := Gap(now[a..b]);
      && |now| == |dir| && (forall k :: 0 <= k < |dir| ==> Readable(now[k]))
      && (forall k :: 0 <= k < |dir| && !(a <= k < b) ==> now[k] == dir[k])
      && Lays(now, a, gap) && Total(gap) == b - a && Entries(gap, a) == []
  {
    hide Readable, Passable, Gap, Lays, Total, Entries;
    var now := Wiped(dir, a, b);
    forall k | 0 <= k < |dir|
      ensures Readable(now[k]) && (a <= k < b ==> Passable(now[k]))
    {
      ErasedIsPassable(dir[k]);
    }
    GapIs(now, a, b);
  }

  lemma HoldsInside(dir: seq<Slot>, at: nat, i: Item)
    requires Holds(dir, at, i)
    ensures at + Slots(i) <= |dir|
  {
  }

  lemma OneItem(dir: seq<Slot>, at: nat, i: Item)
    ensures Lays(dir, at, [i]) <==> Holds(dir, at, i)
    ensures Total([i]) == Slots(i)
  {
    hide Holds, Alias;
    assert [i][1..] == [];
  }

  lemma LaysAround(dir: seq<Slot>, now: seq<Slot>, before: seq<Item>, after: seq<Item>, a: nat, b: nat, end: nat)
    requires |now| == |dir| && a == Total(before) && a <= b && end == b + Total(after)
    requires Lays(dir, 0, before) && Lays(dir, b, after) && Ends(dir, end)
    requires forall k :: 0 <= k < |dir| && !(a <= k < b) ==> now[k] == dir[k]
    ensures Lays(now, 0, before) && Lays(now, b, after) && Ends(now, end)
  {
    hide Holds, Slots, IsLong, IsVolume, Ends;
    assert end < |dir| ==> now[end] == dir[end];
    EndsSame(dir, now, end);
    LaysLocally(dir, now, 0, before);
    LaysLocally(dir, now, b, after);
  }

  /** A stretch rewritten into other items, with everything around it left alone. */
  lemma ReplacedLists(dir: seq<Slot>, now: seq<Slot>, before: seq<Item>, middle: seq<Item>, after: seq<Item>, a: nat, b: nat, end: nat,
                      name: seq<byte>, wide: seq<nat>)
    requires |name| == |wide| == 256 && |now| == |dir| && forall k :: 0 <= k < |dir| ==> Readable(now[k])
    requires end == b + Total(after) && Lays(dir, 0, before) && Lays(dir, b, after) && Ends(dir, end)
    requires a == Total(before) && b == a + Total(middle) && Lays(now, a, middle)
    requires forall k :: 0 <= k < |dir| && !(a <= k < b) ==> now[k] == dir[k]
    ensures Listing(now, 0, name, wide) == Entries(before, 0) + Entries(middle, a) + Entries(after, b)
  {
    hide Holds, Listing, Slots, Readable, IsLong, IsVolume, Alias, Ends;
    var all := before + middle + after;
    LaysAround(dir, now, before, after, a, b, end);
    ThreeParts(now, before, middle, after, a, b);
    assert Lays(now, 0, all) && 0 + Total(all) == end;
    ListingIsEntries(now, 0, all, end, name, wide);
  }

  lemma EndsSame(dir: seq<Slot>, now: seq<Slot>, at: nat)
    requires |now| == |dir| && Ends(dir, at) && (at < |dir| ==> now[at] == dir[at])
    ensures Ends(now, at)
  {
  }

  /** Slots written as parts of a storable name can be read back. */
  lemma WrittenReadable(dir: seq<Slot>, now: seq<Slot>, a: nat, b: nat, name: seq<byte>, data: Slot)
    requires Storable(name) && Plain(data) && Written(now, a, name, data) && b == a + LongSlots(|name|) + 1
    requires |now| == |dir| && forall k :: 0 <= k < |dir| ==> Readable(dir[k])
    requires forall k :: 0 <= k < |dir| && !(a <= k < b) ==> now[k] == dir[k]
    ensures forall k :: 0 <= k < |now| ==> Readable(now[k])
  {
    hide CheckSum;
    forall k | 0 <= k < |now| ensures Readable(now[k]) {
      if a <= k < b - 1 {
        PartReadable(now[k], name, b - 1 - k, CheckSum(data, 11));
      } else if k != b - 1 {
        assert now[k] == dir[k];
      }
    }
  }

  lemma PartReadable(s: Slot, name: seq<byte>, ord: nat, sum: byte)
    requires Storable(name) && 1 <= ord <= LongSlots(|name|) && IsPart(s, name, ord, sum)
    ensures Readable(s)
  {
    assert ord <= 19;
  }

  /** Writing a long name over any slots between items adds exactly that entry to the listing. */
  lemma AdditionLists(dir: seq<Slot>, now: seq<Slot>, before: seq<Item>, added: seq<byte>, data: Slot, after: seq<Item>,
                      a: nat, b: nat, end: nat, name: seq<byte>, wide: seq<nat>)
    requires |name| == |wide| == 256 && |now| == |dir| && Storable(added) && Plain(data)
    requires forall k :: 0 <= k < |dir| ==> Readable(dir[k])
    requires a == Total(before) && b == a + LongSlots(|added|) + 1
    requires end == b + Total(after) && Lays(dir, 0, before) && Lays(dir, b, after) && Ends(dir, end)
    requires Written(now, a, added, data)
    requires forall k :: 0 <= k < |dir| && !(a <= k < b) ==> now[k] == dir[k]
    ensures forall k :: 0 <= k < |now| ==> Readable(now[k])
    ensures Listing(now, 0, name, wide) == Entries(before, 0) + [Entry(added, a, b - 1)] + Entries(after, b)
  {
    hide Listing, Readable, Written, Plain, Storable, Holds, Ends, LongSlots, IsLong, IsVolume;
    WrittenReadable(dir, now, a, b, added, data);
    OneLong(now, a, b, added, data);
    ReplacedLists(dir, now, before, [Long(added, data)], after, a, b, end, name, wide);
  }

  lemma WrittenInside(dir: seq<Slot>, a: nat, name: seq<byte>, data: Slot)
    requires Written(dir, a, name, data)
    ensures a + LongSlots(|name|) < |dir|
  {
  }

  lemma OneLong(dir: seq<Slot>, a: nat, b: nat, name: seq<byte>, data: Slot)
    requires Storable(name) && Plain(data) && Written(dir, a, name, data) && b == a + LongSlots(|name|) + 1
    ensures var one := [Long(name, data)];
      Lays(dir, a, one) && b == a + Total(one) && Entries(one, a) == [Entry(name, a, b - 1)]
  {
    hide Written, Storable, LongSlots;
    assert Holds(dir, a, Long(name, data)) by { WrittenInside(dir, a, name, data); }
    var i := Long(name, data);
    assert [i][1..] == [] && Slots(i) == LongSlots(|name|) + 1 && a + LongSlots(|name|) == b - 1;
    assert Entries([], b) == [];
  }
}
