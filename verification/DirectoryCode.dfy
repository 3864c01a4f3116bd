/** The loops over the slots of a directory: reading the next entry, writing an entry, and erasing one. */
module DirectoryCode {
  import opened Bytes
  import opened LongNames
  import opened DirectorySlots

  const ALIAS_LENGTH := 11

  method AliasSum(data: Slot) returns (sum: byte)
    ensures sum == CheckSum(data, 11)
  {
    sum := 0;
    for i := 0 to ALIAS_LENGTH
      invariant sum == CheckSum(data, i)
    {
      sum := Sum(sum, data[i]);
    }
  }

  // ---- reading ----

  /** An entry being read: its names, its first and last slots, and a copy of its alias slot. */
  class DirEntry {
    const filename: array<byte>
    const lfilename: array<nat>
    var dataStart: int
    var dataEnd: int
    var entryData: Slot

    ghost predicate Valid() {
      filename.Length == 256 && lfilename.Length == 256
    }

    constructor ()
      ensures Valid() && fresh(filename) && fresh(lfilename) && dataEnd == -1
    {
      filename := new byte[256](_ => 0);
      lfilename := new nat[256](_ => 0);
      dataStart := -1;
      dataEnd := -1;
      entryData := Zeros(32);
    }

    ghost function State(live: bool, sum: byte, start: int): (s: Scan)
      reads filename, lfilename
      requires Valid()
      ensures Sized(s)
    {
      Scan(live, sum, start, filename[..], lfilename[..])
    }

    /** The next entry after this one, in place of this one. */
    method GetNextEntry(dir: seq<Slot>) returns (ok: bool)
      requires Valid() && -1 <= dataEnd < |dir| && dir != [] && forall k :: 0 <= k < |dir| ==> Readable(dir[k])
      modifies this, filename, lfilename
      ensures var r := Next(dir, old(dataEnd) + 1, old(State(false, 0, dataEnd)));
        && ok == r.Some?
        && (ok ==> Scan(r.value.scan.live, r.value.scan.sum, dataStart, filename[..], lfilename[..]) == r.value.scan
                   && dataEnd == r.value.end && entryData == dir[dataEnd])
      ensures !ok ==> dataStart == old(dataStart) && dataEnd == old(dataEnd) && entryData == old(entryData)
    {
      hide LongStep, Close;
      var start, end, live := dataEnd, dataEnd, false;
      var sum: byte := 0;
      var data := entryData;
      var found, notFound := false, false;
      ghost var goal := Next(dir, dataEnd + 1, State(false, 0, dataEnd));
      while !found && !notFound
        invariant -1 <= end < |dir|
        invariant !found && !notFound ==> goal == Next(dir, end + 1, State(live, sum, start))
        invariant found && !notFound ==> end >= 0 && data == dir[end] && goal == Some(Found(State(live, sum, start), end))
        invariant notFound ==> goal == None
        invariant dataStart == old(dataStart) && dataEnd == old(dataEnd) && entryData == old(entryData)
        decreases !notFound, !found, |dir| - end
      {
        if end + 1 < |dir| {
          end := end + 1;
        } else {
          notFound := true;
        }
        data := dir[end];
        if IsLong(data) {
          live, sum, start := ReadLong(data, end, live, sum, start);
        } else if IsVolume(data) {
        } else if data[0] == 0 {
          notFound := true;
        } else if data[0] != DIR_ENTRY_FREE && data[0] > 0x20 {
          live, start := ReadAlias(data, end, live, sum, start);
          found := true;
        }
      }
      if notFound {
        return false;
      }
      dataStart, dataEnd, entryData := start, end, data;
      return true;
    }

    /** A long slot: where it ends a name the scan starts again, and its thirteen units go to their place. */
    method ReadLong(slot: Slot, at: int, live: bool, sum: byte, start: int) returns (live': bool, sum': byte, start': int)
      requires Valid() && IsLong(slot) && Readable(slot)
      modifies filename, lfilename
      ensures State(live', sum', start') == LongStep(old(State(live, sum, start)), slot, at)
    {
      live', sum', start' := live, sum, start;
      if slot[0] >= 128 {
        live' := false;
      } else if slot[0] >= 64 {
        start' := at;
        live' := true;
        filename[13 * (slot[0] % 64)] := 0;
        lfilename[13 * (slot[0] % 64)] := 0;
        sum' := slot[13];
      }
      if sum' != slot[13] {
        live' := false;
      }
      if live' {
        CopyUnits(slot, 13 * (slot[0] % 64 - 1));
      }
    }

    method CopyUnits(slot: Slot, p: nat)
      requires Valid() && p + 13 <= 256
      modifies filename, lfilename
      ensures filename[..] == Splice(old(filename[..]), p, LowBytes(slot))
      ensures lfilename[..] == Splice(old(lfilename[..]), p, Units(slot))
    {
      hide Pair, UnitAt;
      for i := 0 to 13
        invariant forall k :: 0 <= k < 256 ==>
          filename[k] == if p <= k < p + i then LowBytes(slot)[k - p] else old(filename[k])
        invariant forall k :: 0 <= k < 256 ==>
          lfilename[k] == if p <= k < p + i then Units(slot)[k - p] else old(lfilename[k])
      {
        filename[p + i] := slot[UnitAt(i)];
        lfilename[p + i] := Pair(slot, UnitAt(i));
      }
    }

    /** The slot that closes an entry: its checksum decides between the long name and the alias. */
    method ReadAlias(slot: Slot, at: int, live: bool, sum: byte, start: int) returns (live': bool, start': int)
      requires Valid()
      modifies filename, lfilename
      ensures State(live', sum, start') == Close(old(State(live, sum, start)), slot, at)
    {
      hide Alias, CheckSum;
      live', start' := live, start;
      if live' {
        var c := AliasSum(slot);
        if c != sum {
          live' := false;
          filename[0] := 0;
        }
      }
      if !live' {
        start' := at;
        forall k | 0 <= k < 256 { lfilename[k] := 0; }
        var _ := GetAlias(slot);
        assert lfilename[..] == seq(256, _ => 0);
      }
    }

    /** The text of an alias slot, terminated, at the start of the name buffer; an erased slot has none. */
    method GetAlias(slot: Slot) returns (ok: bool)
      requires Valid()
      modifies filename
      ensures forall k :: 0 <= k < 256 ==>
        filename[k] == if k < |Alias(slot)| then Alias(slot)[k] else if k == |Alias(slot)| then 0 else old(filename[k])
      ensures ok <==> Alias(slot) != [] && Alias(slot)[0] != 0
    {
      if slot[0] == DIR_ENTRY_FREE {
        filename[0] := 0;
      } else if slot[0] == 0x2E {
        filename[0] := 0x2E;
        if slot[1] == 0x2E {
          filename[1] := 0x2E;
          filename[2] := 0;
        } else {
          filename[1] := 0;
        }
      } else {
        var i := CopyField(slot, 0, 8, 0);
        if slot[8] != 0x20 {
          filename[i] := 0x2E;
          i := CopyField(slot, 8, 3, i + 1);
        }
        filename[i] := 0;
      }
      ok := filename[0] != 0;
    }

    /** Copies bytes up to the first blank. */
    method CopyField(slot: Slot, from: nat, n: nat, to': nat) returns (i: nat)
      requires Valid() && from + n <= 32 && to' + n <= 256
      modifies filename
      ensures i == to' + |Field(slot, from, n)|
      ensures forall k :: 0 <= k < 256 ==>
        filename[k] == if to' <= k < i then Field(slot, from, n)[k - to'] else old(filename[k])
    {
      i := to';
      var j := 0;
      while j < n && slot[from + j] != 0x20
        invariant 0 <= j <= n && i == to' + j && Extent(slot, from, n) == j + Extent(slot, from + j, n - j)
        invariant forall k :: 0 <= k < 256 ==>
          filename[k] == if to' <= k < i then slot[from + (k - to')] else old(filename[k])
      {
        filename[i] := slot[from + j];
        i := i + 1;
        j := j + 1;
      }
    }
  }

  // ---- writing ----

  /** The name in 16-bit units, with zeros after it. */
  method Widened(name: seq<byte>) returns (w: array<nat>)
    requires Encodable(name)
    ensures fresh(w) && w.Length == 460
    ensures forall k :: 0 <= k < 460 ==> w[k] == if k < |name| then name[k] else 0
  {
    w := new nat[460](_ => 0);
    for k := 0 to |name|
      invariant forall i :: 0 <= i < 460 ==> w[i] == if i < k then name[i] else 0
    {
      w[k] := name[k];
    }
  }

  /** The unit numbered j of a slot, the low byte first. */
  method PutUnit(e: array<byte>, o: nat, u: nat)
    requires e.Length == 32 && o < 31 && u < 0x1_0000
    modifies e
    ensures e[o] as int == u % 256 && e[o + 1] as int == u / 256
    ensures forall k :: 0 <= k < 32 && k != o && k != o + 1 ==> e[k] == old(e[k])
  {
    e[o] := u % 256;
    e[o + 1] := u / 256;
  }

  /** Long slot i - 1 of an entry of `size` slots. */
  method LongSlot(e: array<byte>, w: array<nat>, name: seq<byte>, i: nat, size: nat, sum: byte) returns (s: Slot)
    requires e.Length == 32 && w.Length == 460 && Encodable(name)
    requires forall k :: 0 <= k < 460 ==> w[k] == if k < |name| then name[k] else 0
    requires size == LongSlots(|name|) + 1 && 1 < i <= size
    modifies e
    ensures IsPart(s, name, i - 1, sum)
  {
    var p := (i - 2) * 13;
    assert 13 * LongSlots(|name|) < |name| + 13;
    e[0] := (i - 1) + (if i == size then 64 else 0);
    for j := 0 to 13
      invariant e[0] as int == (i - 1) + (if i == size then 64 else 0)
      invariant forall k {:trigger UnitAt(k)} :: 0 <= k < j ==> (e[UnitAt(k)] as int) + 256 * (e[UnitAt(k) + 1] as int) == Unit(name, p + k)
    {
      var u := w[p + j];
      if w[p + j] == 0 {
        if j > 1 && w[p + (j - 1)] == 0 {
          u := 0xFFFF;
        } else {
          u := 0;
        }
      }
      assert u == Unit(name, p + j);
      PutUnit(e, UnitAt(j), u);
    }
    e[13] := sum;
    e[11] := ATTRIB_LFN;
    e[12] := 0;
    PutUnit(e, 26, 0);
    s := e[..];
    forall j | 0 <= j < 13 ensures Pair(s, UnitAt(j)) == Unit(name, p + j) {
      assert (e[UnitAt(j)] as int) + 256 * (e[UnitAt(j) + 1] as int) == Unit(name, p + j);
    }
  }

  predicate IsDots(name: seq<byte>) { name == [0x2E] || name == [0x2E, 0x2E] }

  /** The slots that an entry of this name takes. */
  function EntrySize(name: seq<byte>): nat { if IsDots(name) then 1 else LongSlots(|name|) + 1 }

  /** The alias slot of the two names that have no long form. */
  function DotSlot(name: seq<byte>, data: Slot): (s: Slot)
    requires IsDots(name)
  {
    name + seq(11 - |name|, _ => 0x20) + data[11..]
  }

  /** Exactly the names of one or two full stops take a single slot, padded with blanks to eleven characters. */
  lemma DotNames(name: seq<byte>, data: Slot)
    requires Encodable(name)
    ensures EntrySize(name) == 1 <==> |name| <= 2 && forall k :: 0 <= k < |name| ==> name[k] == 46
    ensures IsDots(name) <==> EntrySize(name) == 1
    ensures IsDots(name) ==>
      && DotSlot(name, data)[0] == 46 && DotSlot(name, data)[1] == (if |name| == 2 then 46 else 32)
      && (forall k :: 2 <= k < 11 ==> DotSlot(name, data)[k] == 32)
      && (forall k :: 11 <= k < 32 ==> DotSlot(name, data)[k] == data[k])
  {
    if |name| <= 2 && forall k :: 0 <= k < |name| ==> name[k] == 46 {
      assert name == [46] || name == [46, 46];
    }
  }

  /** The dot names are read back from the alias slot alone. */
  lemma DotsRead(name: seq<byte>, data: Slot)
    requires IsDots(name) && !IsVolume(data)
    ensures Proper(Short(DotSlot(name, data))) && Alias(DotSlot(name, data)) == name
  {
    assert DotSlot(name, data)[DIR_ENTRY_ATTRIBUTES] == data[DIR_ENTRY_ATTRIBUTES];
  }

  /**
   * Writes an entry from place `at`: the long slots, the last part of the name first, and the alias slot. A dot name
   * takes its alias slot alone. The alias of any other name is already in `data`.
   */
  method AddEntry(dir: array<Slot>, at: nat, name: seq<byte>, data: Slot)
    requires Encodable(name) && at + EntrySize(name) <= dir.Length
    modifies dir
    ensures if IsDots(name) then dir[at] == DotSlot(name, data) else Written(dir[..], at, name, data)
    ensures forall k :: 0 <= k < dir.Length && !(at <= k < at + EntrySize(name)) ==> dir[k] == old(dir[k])
  {
    hide IsPart, CheckSum;
    var alias, size, sum := data, 1, 0;
    if IsDots(name) {
      alias := DotSlot(name, data);
    } else {
      size := (|name| + 13 - 1) / 13 + 1;
      sum := AliasSum(data);
    }
    var w := Widened(name);
    var e := new byte[32](_ => 0);
    var i := size;
    while i > 0
      invariant 0 <= i <= size == EntrySize(name)
      invariant fresh(e) && fresh(w) && e.Length == 32 && w.Length == 460
      invariant forall k :: 0 <= k < 460 ==> w[k] == if k < |name| then name[k] else 0
      invariant forall k :: at <= k < at + size - i && k < at + size - 1 ==> IsPart(dir[k], name, at + size - 1 - k, sum)
      invariant i == 0 ==> dir[at + size - 1] == alias
      invariant forall k :: 0 <= k < dir.Length && !(at <= k < at + size) ==> dir[k] == old(dir[k])
    {
      if i > 1 {
        dir[at + size - i] := LongSlot(e, w, name, i, size, sum);
      } else {
        dir[at + size - 1] := alias;
      }
      i := i - 1;
    }
  }

  /**
   * Marks the slots of an entry as erased. The result says whether a slot followed the entry, not whether the entry was
   * erased: it is false after every removal of the last entry of a full directory.
   */
  method RemoveEntry(dir: array<Slot>, start: nat, end: nat) returns (ok: bool)
    requires start <= end < dir.Length
    modifies dir
    ensures dir[..] == Wiped(old(dir[..]), start, end + 1)
    ensures forall k :: start <= k <= end ==> dir[k] == old(dir[k])[0 := 0xE5]
    ensures ok <==> end + 1 < dir.Length
  {
    var k, finished := start, false;
    ok := true;
    while ok && !finished
      invariant start <= k <= end + 1 <= dir.Length
      invariant !finished ==> k <= end && ok
      invariant finished ==> (ok ==> k == end + 1 < dir.Length) && (!ok ==> k == end == dir.Length - 1)
      invariant forall j :: 0 <= j < dir.Length ==>
        dir[j] == if start <= j && (if finished then j <= end else j < k) then old(dir[j])[0 := DIR_ENTRY_FREE] else old(dir[j])
      decreases !finished, end - k
    {
      dir[k] := dir[k][0 := DIR_ENTRY_FREE];
      if k == end {
        finished := true;
      }
      if k + 1 < dir.Length {
        k := k + 1;
      } else {
        ok := false;
      }
    }
  }
}
