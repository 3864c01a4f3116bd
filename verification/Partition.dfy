/**
 * A mounted volume over one coherent sector store: the table is read and written in place, sector by
 * sector, and the data area is addressed cluster by cluster. Every access, through the cache or past it,
 * is recorded, and the store is what the recorded accesses make of the disc that was mounted.
 */
module FatPartition {
  import opened Bytes
  import opened Geometry
  import opened FlatDisc
  import opened FatEntry
  import opened Chains

  function ClusterBytes(v: Volume, s: seq<byte>, c: nat): (r: seq<byte>)
    requires v.Ok() && v.DiscSize() <= |s| && c <= v.lastCluster
    ensures c >= CLUSTER_FIRST ==> |r| == v.BytesPerCluster()
  {
    if c < CLUSTER_FIRST then []
    else
      ClusterOnDisc(v, c);
      s[v.ClusterAddress(c)..v.ClusterAddress(c) + v.BytesPerCluster()]
  }

  function ClustersBelow(v: Volume, s: seq<byte>, n: nat): (r: seq<seq<byte>>)
    requires v.Ok() && v.DiscSize() <= |s| && n <= v.lastCluster + 1
    ensures |r| == n
  {
    if n == 0 then [] else ClustersBelow(v, s, n - 1) + [ClusterBytes(v, s, n - 1)]
  }

  /** The bytes of every cluster in use; entries 0 and 1 are empty. */
  function Clusters(v: Volume, s: seq<byte>): (r: seq<seq<byte>>)
    requires v.Ok() && v.DiscSize() <= |s|
    ensures |r| == v.lastCluster + 1
  {
    ClustersBelow(v, s, v.lastCluster + 1)
  }

  lemma {:induction false} ClustersBelowAt(v: Volume, s: seq<byte>, n: nat, c: nat)
    requires v.Ok() && v.DiscSize() <= |s| && c < n <= v.lastCluster + 1
    ensures ClustersBelow(v, s, n)[c] == ClusterBytes(v, s, c)
  {
    if c < n - 1 {
      ClustersBelowAt(v, s, n - 1, c);
    }
  }

  lemma ClustersAt(v: Volume, s: seq<byte>, c: nat)
    requires v.Ok() && v.DiscSize() <= |s| && c <= v.lastCluster
    ensures Clusters(v, s)[c] == ClusterBytes(v, s, c)
  {
    ClustersBelowAt(v, s, v.lastCluster + 1, c);
  }

  lemma ClusterOnDisc(v: Volume, c: nat)
    requires v.Ok() && CLUSTER_FIRST <= c <= v.lastCluster
    ensures BYTES_PER_READ * v.dataStart <= v.ClusterAddress(c)
    ensures v.ClusterAddress(c) + v.BytesPerCluster() <= v.DiscSize()
  {
    ClustersApart(v, c, v.lastCluster + 1);
  }

  lemma TableOnDisc(v: Volume)
    requires v.Ok()
    ensures BYTES_PER_READ * v.dataStart <= v.DiscSize()
  {
    ClustersApart(v, 2, v.lastCluster + 1);
  }

  /** Overwriting inside one cluster changes that cluster and nothing else. */
  lemma ClusterWritten(v: Volume, s: seq<byte>, c: nat, o: nat, d: seq<byte>)
    requires v.Ok() && v.DiscSize() <= |s| && BYTES_PER_READ * v.dataStart <= |s|
    requires CLUSTER_FIRST <= c <= v.lastCluster && o + |d| <= v.BytesPerCluster()
    ensures v.ClusterAddress(c) + o + |d| <= |s| && |Clusters(v, s)[c]| == v.BytesPerCluster()
    ensures var r := Splice(s, v.ClusterAddress(c) + o, d);
      && Table(v, r) == Table(v, s)
      && Clusters(v, r) == Clusters(v, s)[c := Splice(Clusters(v, s)[c], o, d)]
  {
    ClusterOnDisc(v, c);
    ClustersAt(v, s, c);
    var r := Splice(s, v.ClusterAddress(c) + o, d);
    TableFrame(v, s, r);
    forall b | 0 <= b <= v.lastCluster
      ensures Clusters(v, r)[b] == Clusters(v, s)[c := Splice(Clusters(v, s)[c], o, d)][b]
    {
      ClustersAt(v, s, b);
      ClustersAt(v, r, b);
      if b == c {
        assert ClusterBytes(v, r, c) == Splice(ClusterBytes(v, s, c), o, d);
      } else if b >= CLUSTER_FIRST {
        OtherClusterKept(v, s, c, o, d, b);
      }
    }
  }

  lemma ClusterRead(v: Volume, s: seq<byte>, c: nat, o: nat, n: nat)
    requires v.Ok() && v.DiscSize() <= |s|
    requires CLUSTER_FIRST <= c <= v.lastCluster && o + n <= v.BytesPerCluster()
    ensures v.ClusterAddress(c) + o + n <= |s| && |Clusters(v, s)[c]| == v.BytesPerCluster()
    ensures Clusters(v, s)[c][o..o + n] == s[v.ClusterAddress(c) + o..v.ClusterAddress(c) + o + n]
  {
    ClusterOnDisc(v, c);
    ClustersAt(v, s, c);
    SliceOfSlice(s, v.ClusterAddress(c), v.BytesPerCluster(), o, n);
  }

  predicate AllSized(v: Volume, cl: seq<seq<byte>>) {
    |cl| == v.lastCluster + 1 && forall c :: CLUSTER_FIRST <= c <= v.lastCluster ==> |cl[c]| == v.BytesPerCluster()
  }

  lemma ClustersSized(v: Volume, s: seq<byte>)
    requires v.Ok() && v.DiscSize() <= |s|
    ensures AllSized(v, Clusters(v, s))
  {
    forall c | CLUSTER_FIRST <= c <= v.lastCluster ensures |Clusters(v, s)[c]| == v.BytesPerCluster() {
      ClustersAt(v, s, c);
    }
  }

  lemma OtherClusterKept(v: Volume, s: seq<byte>, c: nat, o: nat, d: seq<byte>, b: nat)
    requires v.Ok() && v.DiscSize() <= |s|
    requires CLUSTER_FIRST <= c <= v.lastCluster && o + |d| <= v.BytesPerCluster()
    requires CLUSTER_FIRST <= b <= v.lastCluster && b != c
    requires v.ClusterAddress(c) + o + |d| <= |s|
    ensures ClusterBytes(v, Splice(s, v.ClusterAddress(c) + o, d), b) == ClusterBytes(v, s, b)
  {
    if b < c { ClustersApart(v, b, c); } else { ClustersApart(v, c, b); }
    ClusterOnDisc(v, b);
  }

  /** Overwriting inside the table changes no cluster. */
  lemma ClustersFrame(v: Volume, s: seq<byte>, r: seq<byte>)
    requires v.Ok() && v.DiscSize() <= |s| == |r|
    requires forall i :: BYTES_PER_READ * v.dataStart <= i < |s| ==> r[i] == s[i]
    ensures Clusters(v, r) == Clusters(v, s)
  {
    forall b | 0 <= b <= v.lastCluster ensures Clusters(v, r)[b] == Clusters(v, s)[b] {
      ClustersAt(v, s, b);
      ClustersAt(v, r, b);
      if b >= CLUSTER_FIRST { ClusterOnDisc(v, b); }
    }
  }

  class Partition {
    const v: Volume
    var store: seq<byte>
    var firstFree: nat
    var freeClusters: nat
    ghost var table: seq<nat>
    ghost var clusters: seq<seq<byte>>
    /** The disc as it was mounted, the accesses since then, and how many of them went past the cache. */
    ghost const origin: seq<Sector>
    ghost var history: seq<Access>
    ghost var directs: nat

    /** The store is what the recorded accesses make of the disc, and they returned what was used. */
    ghost predicate Tracked()
      reads this`store, this`history, this`directs
    {
      |store| % BYTES_PER_READ == 0 && Traced(origin, history, directs, Sectors(store))
    }

    ghost predicate Valid()
      reads this
    {
      && Tracked()
      && v.Ok() && v.DiscSize() <= |store| && BYTES_PER_READ * v.dataStart <= |store|
      && table == Table(v, store)
      && clusters == Clusters(v, store) && AllSized(v, clusters)
      && FatOk(v, Fat())
    }

    lemma Shape()
      requires Valid()
      ensures Tracked() && v.Ok() && CLUSTER_FIRST <= v.lastCluster < 0x0FFF_FFF7 && |table| == v.lastCluster + 2
      ensures FatOk(v, Fat()) && firstFree <= v.lastCluster + 1
    {
    }

    ghost function Fat(): Fat
      reads this
    {
      Chains.Fat.Fat(table, firstFree, freeClusters)
    }

    // ---- sectors ----

    /** Part of a sector, read through the cache. */
    method ReadPartialSector(sector: nat, offset: nat, size: nat) returns (data: seq<byte>)
      requires Tracked() && offset + size <= BYTES_PER_READ && BYTES_PER_READ * sector + offset + size <= |store|
      requires BYTES_PER_READ * sector < |store|
      modifies this`history
      ensures Tracked() && history == old(history) + [Access(CachedRead(sector, offset, size), data)]
      ensures data == store[BYTES_PER_READ * sector + offset..BYTES_PER_READ * sector + offset + size]
    {
      hide Traced, Sectors;
      data := store[BYTES_PER_READ * sector + offset..BYTES_PER_READ * sector + offset + size];
      SectorInside(store, sector);
      SectorsRead(store, sector, offset, size);
      TracedMore(origin, history, directs, Sectors(store), CachedRead(sector, offset, size));
      history := history + [Access(CachedRead(sector, offset, size), data)];
    }

    /** Part of a sector, written through the cache. */
    method WritePartialSector(sector: nat, offset: nat, data: seq<byte>)
      requires Tracked() && offset + |data| <= BYTES_PER_READ && BYTES_PER_READ * sector + offset + |data| <= |store|
      requires BYTES_PER_READ * sector < |store|
      modifies this`store, this`history
      ensures Tracked() && history == old(history) + [Access(CachedWrite(sector, offset, data), [])]
      ensures store == Splice(old(store), BYTES_PER_READ * sector + offset, data)
    {
      hide Traced, Splice;
      SectorInside(store, sector);
      SectorsWritten(store, sector, offset, data);
      TracedMore(origin, history, directs, Sectors(store), CachedWrite(sector, offset, data));
      store := Splice(store, BYTES_PER_READ * sector + offset, data);
      history := history + [Access(CachedWrite(sector, offset, data), [])];
    }

    /** Part of a sector with the rest of it zeroed, written through the cache. */
    method EraseWritePartialSector(sector: nat, offset: nat, data: seq<byte>)
      requires Tracked() && offset + |data| <= BYTES_PER_READ && BYTES_PER_READ * sector < |store|
      modifies this`store, this`history
      ensures Tracked() && history == old(history) + [Access(CachedErase(sector, offset, data), [])]
      ensures BYTES_PER_READ * sector + BYTES_PER_READ <= |old(store)|
      ensures store == Splice(old(store), BYTES_PER_READ * sector, Splice(Zeros(BYTES_PER_READ), offset, data))
    {
      hide Traced, Splice;
      var page: Sector := Splice(Zeros(BYTES_PER_READ), offset, data);
      SectorInside(store, sector);
      SectorsWritten(store, sector, 0, page);
      WholeSplice(Sectors(store)[sector], page);
      TracedMore(origin, history, directs, Sectors(store), CachedErase(sector, offset, data));
      store := Splice(store, BYTES_PER_READ * sector, page);
      history := history + [Access(CachedErase(sector, offset, data), [])];
    }

    /** Whole sectors, read past the cache. */
    method ReadWholeSectors(sector: nat, count: nat) returns (data: seq<byte>)
      requires Tracked() && BYTES_PER_READ * (sector + count) <= |store|
      modifies this`history, this`directs
      ensures Tracked() && directs == old(directs) + count && history == old(history) + DirectReads(sector, data)
      ensures data == store[BYTES_PER_READ * sector..BYTES_PER_READ * (sector + count)]
    {
      hide Traced;
      data := store[BYTES_PER_READ * sector..BYTES_PER_READ * (sector + count)];
      TracedReads(origin, history, directs, store, sector, count);
      history := history + DirectReads(sector, data);
      directs := directs + count;
    }

    /** Whole sectors, written past the cache. */
    method WriteWholeSectors(sector: nat, count: nat, data: seq<byte>)
      requires Tracked() && BYTES_PER_READ * (sector + count) <= |store| && |data| == BYTES_PER_READ * count
      modifies this`store, this`history, this`directs
      ensures Tracked() && directs == old(directs) + count && history == old(history) + DirectWrites(sector, data)
      ensures store == Splice(old(store), BYTES_PER_READ * sector, data)
    {
      hide Traced, Splice;
      TracedWrites(origin, history, directs, store, sector, count, data);
      store := Splice(store, BYTES_PER_READ * sector, data);
      history := history + DirectWrites(sector, data);
      directs := directs + count;
    }

    /** The place after a byte, in the next sector if need be. */
    static method NextByte(sector: nat, offset: nat) returns (sector': nat, offset': nat)
      requires offset < BYTES_PER_READ
      ensures BYTES_PER_READ * sector' + offset' == BYTES_PER_READ * sector + offset + 1 && offset' < BYTES_PER_READ
    {
      sector', offset' := sector, offset + 1;
      if offset' >= BYTES_PER_READ {
        offset' := 0;
        sector' := sector' + 1;
      }
    }

    // ---- the table ----

    /** The link of a cluster. */
    method NextCluster(cluster: nat) returns (next: nat)
      requires Valid() && cluster <= v.lastCluster + 1
      modifies this`history
      ensures Valid()
      ensures next == table[cluster]
      ensures OnlyReads(old(history), history)
    {
      hide Tracked, Clusters, AllSized, FatOk;
      TableAt(v, store, cluster);
      match v.Type() {
        case Fat12 => next := NextCluster12(cluster);
        case Fat16 => next := NextCluster16(cluster);
        case Fat32 => next := NextCluster32(cluster);
      }
    }

    method NextCluster12(cluster: nat) returns (next: nat)
      requires Valid() && cluster <= v.lastCluster + 1 && v.Type() == Fat12
      modifies this`history
      ensures Valid()
      ensures next == Link(v, store, cluster)
      ensures OnlyReads(old(history), history)
    {
      hide Traced, Clusters, AllSized, Table, FatOk;
      EntryFits(v, cluster);
      var sector := v.fatStart + cluster * 3 / 2 / BYTES_PER_READ;
      var offset := cluster * 3 / 2 % BYTES_PER_READ;
      var low := ReadPartialSector(sector, offset, 1);
      sector, offset := NextByte(sector, offset);
      var high := ReadPartialSector(sector, offset, 1);
      next := U16(low[0], high[0]);
      if cluster % 2 == 1 {
        next := next / 16;
      } else {
        next := next % 4096;
      }
      if next >= 0x0FF7 {
        next := CLUSTER_EOF;
      }
    }

    method NextCluster16(cluster: nat) returns (next: nat)
      requires Valid() && cluster <= v.lastCluster + 1 && v.Type() == Fat16
      modifies this`history
      ensures Valid()
      ensures next == Link(v, store, cluster)
      ensures OnlyReads(old(history), history)
    {
      hide Traced, Clusters, AllSized, Table, FatOk;
      EntryFits(v, cluster);
      EntrySector16(cluster);
      var b := ReadPartialSector(v.fatStart + cluster * 2 / BYTES_PER_READ, cluster % (BYTES_PER_READ / 2) * 2, 2);
      next := U16(b[0], b[1]);
      if next >= 0xFFF7 {
        next := CLUSTER_EOF;
      }
    }

    method NextCluster32(cluster: nat) returns (next: nat)
      requires Valid() && cluster <= v.lastCluster + 1 && v.Type() == Fat32
      modifies this`history
      ensures Valid()
      ensures next == Link(v, store, cluster)
      ensures OnlyReads(old(history), history)
    {
      hide Traced, Clusters, AllSized, Table, FatOk;
      EntryFits(v, cluster);
      EntrySector32(cluster);
      var b := ReadPartialSector(v.fatStart + cluster * 4 / BYTES_PER_READ, cluster % (BYTES_PER_READ / 4) * 4, 4);
      next := U32(b[0], b[1], b[2], b[3]);
      if next >= 0x0FFFFFF7 {
        next := CLUSTER_EOF;
      }
    }

    /**
     * Storing a link. Entries 0 and 1 and those behind the last cluster are refused. Of a number too
     * wide for the entry the lower digits are kept.
     */
    method WriteFatEntry(cluster: nat, value: nat) returns (ok: bool)
      requires Valid() && value < 0x1_0000_0000
      modifies this`store, this`history, this`table
      ensures Valid() && clusters == old(clusters)
      ensures ok <==> CLUSTER_FIRST <= cluster <= v.lastCluster
      ensures table == if ok then old(table)[cluster := ReadBack(v, value)] else old(table)
    {
      hide Tracked, Clusters;
      if cluster < 2 || cluster > v.lastCluster {
        return false;
      }
      EntryFits(v, cluster);
      ghost var before := store;
      match v.Type() {
        case Fat12 => WriteFatEntry12(cluster, value);
        case Fat16 => WriteFatEntry16(cluster, value);
        case Fat32 => WriteFatEntry32(cluster, value);
      }
      table := table[cluster := ReadBack(v, value)];
      StoredTable(v, before, cluster, value);
      ClustersFrame(v, before, store);
      return true;
    }

    method WriteFatEntry16(cluster: nat, value: nat)
      requires Valid() && CLUSTER_FIRST <= cluster <= v.lastCluster && v.Type() == Fat16
      modifies this`store, this`history
      ensures Tracked() && v.EntryAddress(cluster) + v.EntryBytes() <= |old(store)|
      ensures store == Stored(v, old(store), cluster, value)
    {
      hide Traced, Clusters, AllSized, Table, FatOk;
      EntryFits(v, cluster);
      EntrySector16(cluster);
      WritePartialSector(v.fatStart + cluster * 2 / BYTES_PER_READ, cluster % (BYTES_PER_READ / 2) * 2,
                         [ByteOf(value, 0), ByteOf(value, 1)]);
    }

    method WriteFatEntry32(cluster: nat, value: nat)
      requires Valid() && CLUSTER_FIRST <= cluster <= v.lastCluster && v.Type() == Fat32
      modifies this`store, this`history
      ensures Tracked() && v.EntryAddress(cluster) + v.EntryBytes() <= |old(store)|
      ensures store == Stored(v, old(store), cluster, value)
    {
      hide Traced, Clusters, AllSized, Table, FatOk;
      EntryFits(v, cluster);
      EntrySector32(cluster);
      WritePartialSector(v.fatStart + cluster * 4 / BYTES_PER_READ, cluster % (BYTES_PER_READ / 4) * 4,
                         [ByteOf(value, 0), ByteOf(value, 1), ByteOf(value, 2), ByteOf(value, 3)]);
    }

    method WriteFatEntry12(cluster: nat, value: nat)
      requires Valid() && CLUSTER_FIRST <= cluster <= v.lastCluster && v.Type() == Fat12 && value < 0x1_0000_0000
      modifies this`store, this`history
      ensures Tracked() && v.EntryAddress(cluster) + v.EntryBytes() <= |old(store)|
      ensures store == Stored(v, old(store), cluster, value)
    {
      hide Traced, Clusters, AllSized, Table, FatOk;
      EntryFits(v, cluster);
      var sector := v.fatStart + cluster * 3 / 2 / BYTES_PER_READ;
      var offset := cluster * 3 / 2 % BYTES_PER_READ;
      var nextSector, nextOffset := NextByte(sector, offset);
      if cluster % 2 == 1 {
        WriteOdd(sector, offset, nextSector, nextOffset, value);
      } else {
        WriteEven(sector, offset, nextSector, nextOffset, value);
      }
    }

    /** The upper half of the first byte and the whole second byte. */
    method WriteOdd(sector: nat, offset: nat, nextSector: nat, nextOffset: nat, value: nat)
      requires Tracked() && offset < BYTES_PER_READ && nextOffset < BYTES_PER_READ && value < 0x1_0000_0000
      requires BYTES_PER_READ * nextSector + nextOffset == BYTES_PER_READ * sector + offset + 1 < |store|
      modifies this`store, this`history
      ensures Tracked()
      ensures var a := BYTES_PER_READ * sector + offset;
        store == old(store)[a := value % 16 * 16 + old(store[a]) as int % 16][a + 1 := value / 16 % 256]
    {
      hide Traced;
      var oldValue := ReadPartialSector(sector, offset, 1);
      var shifted := value * 16 % 0x1_0000_0000 + oldValue[0] as int % 16;
      ShiftedBytes(value, oldValue[0]);
      SplicePair(store, BYTES_PER_READ * sector + offset, ByteOf(shifted, 0), ByteOf(shifted, 1));
      WritePartialSector(sector, offset, [ByteOf(shifted, 0)]);
      WritePartialSector(nextSector, nextOffset, [ByteOf(shifted, 1)]);
    }

    /** The whole first byte and the lower half of the second byte. */
    method WriteEven(sector: nat, offset: nat, nextSector: nat, nextOffset: nat, value: nat)
      requires Tracked() && offset < BYTES_PER_READ && nextOffset < BYTES_PER_READ && value < 0x1_0000_0000
      requires BYTES_PER_READ * nextSector + nextOffset == BYTES_PER_READ * sector + offset + 1 < |store|
      modifies this`store, this`history
      ensures Tracked()
      ensures var a := BYTES_PER_READ * sector + offset;
        store == old(store)[a := ByteOf(value, 0)][a + 1 := value / 256 % 16 + old(store[a + 1]) as int / 16 * 16]
    {
      hide Traced;
      ghost var before, a := store, BYTES_PER_READ * sector + offset;
      WritePartialSector(sector, offset, [ByteOf(value, 0)]);
      var oldValue := ReadPartialSector(nextSector, nextOffset, 1);
      assert oldValue[0] == before[a + 1];
      var second: byte := value / 256 % 16 + oldValue[0] as int / 16 * 16;
      SplicePair(before, a, ByteOf(value, 0), second);
      WritePartialSector(nextSector, nextOffset, [second]);
    }

    // ---- chains ----

    /**
     * Allocates a cluster and links it behind `cluster`: the first free one from the hint on, then from the
     * start of the table. An existing link is returned as it is.
     */
    method LinkFreeCluster(cluster: nat) returns (r: nat)
      requires Valid()
      modifies this`store, this`history, this`table, this`firstFree, this`freeClusters
      ensures Valid() && clusters == old(clusters)
      ensures (Fat(), r) == LinkFree(v, old(Fat()), cluster)
    {
      hide Tracked, Clusters, AllSized, Table;
      var last := v.lastCluster;
      if cluster > last {
        return CLUSTER_FREE;
      }
      var curLink := NextCluster(cluster);
      if curLink >= CLUSTER_FIRST && curLink <= last {
        return curLink;
      }
      var free, stop := FindFree();
      firstFree := stop;
      if free == CLUSTER_FREE {
        return CLUSTER_FREE;
      }
      freeClusters := Minus1(freeClusters);
      WriteLink(cluster, free);
      return free;
    }

    /** The same, and the cluster is filled with zeros, sector by sector. */
    method LinkFreeClusterCleared(cluster: nat) returns (r: nat)
      requires Valid() && !HintPastEnd(v, Fat())
      modifies this`store, this`history, this`directs, this`table, this`firstFree, this`freeClusters, this`clusters
      ensures Valid() && (Fat(), r) == LinkFree(v, old(Fat()), cluster)
      ensures r == CLUSTER_FREE || CLUSTER_FIRST <= r <= v.lastCluster
      ensures clusters == if r == CLUSTER_FREE then old(clusters) else old(clusters)[r := Zeros(v.BytesPerCluster())]
    {
      hide Valid, FatOk, Volume.Ok, LinkFree, Splice;
      Shape();
      LinkInRange(v, Fat(), cluster);
      r := LinkFreeCluster(cluster);
      if r == CLUSTER_FREE {
        return;
      }
      ClustersShape();
      ghost var was := clusters[r];
      ghost var others := clusters;
      assert Cleared(was, 0) == was && clusters == others[r := was];
      for i := 0 to v.sectorsPerCluster
        invariant Valid() && clusters == others[r := Cleared(was, i)] && Fat() == LinkFree(v, old(Fat()), cluster).0
      {
        WriteSectors(r, i, 1, Zeros(BYTES_PER_READ));
        ClearedMore(was, i);
      }
      ClearedAll(was, v.sectorsPerCluster);
    }

    lemma ClustersShape()
      requires Valid()
      ensures |clusters| == v.lastCluster + 1 && 1 <= v.sectorsPerCluster
      ensures forall c :: CLUSTER_FIRST <= c <= v.lastCluster ==> |clusters[c]| == v.BytesPerCluster()
    {
    }

    /** Links `free` behind `cluster` and marks it as the end of the chain. */
    method WriteLink(cluster: nat, free: nat)
      requires Valid() && cluster <= v.lastCluster && free <= v.lastCluster + 1
      modifies this`store, this`history, this`table
      ensures Valid() && clusters == old(clusters) && table == LinkedTable(v, old(table), cluster, free)
    {
      hide Valid, FatOk, Volume.Ok;
      Shape();
      if cluster >= CLUSTER_FIRST && cluster < v.lastCluster {
        var _ := WriteFatEntry(cluster, free);
      }
      var _ := WriteFatEntry(free, CLUSTER_EOF);
      MarkSurvives(v, CLUSTER_EOF);
    }

    /** The search of LinkFreeCluster: the entry found, 0 for none, and where the search stopped. */
    method FindFree() returns (r: nat, stop: nat)
      requires Valid()
      modifies this`history
      ensures Valid() && r == Search(v, table, firstFree)
      ensures stop == if r == CLUSTER_FREE then v.lastCluster + 1 else r
    {
      hide Valid, FatOk, Volume.Ok, FirstZero, Search;
      Shape();
      var last := v.lastCluster;
      var loopedAroundFAT := false;
      var free := firstFree;
      if free < CLUSTER_FIRST {
        free := CLUSTER_FIRST;
      }
      ghost var from := free;
      ghost var end := if from > last then from + 1 else last + 1;
      var link := NextCluster(free);
      StartOfSearch(v, table, firstFree);
      while link != CLUSTER_FREE
        invariant Valid()
        invariant if loopedAroundFAT then CLUSTER_FIRST <= free <= last else from <= free < end
        invariant link == table[free]
        invariant FirstZero(table, from, end) == if loopedAroundFAT then end else FirstZero(table, free, end)
        invariant loopedAroundFAT ==> FirstZero(table, CLUSTER_FIRST, last + 1) == FirstZero(table, free, last + 1)
        decreases !loopedAroundFAT, last + 2 - free
      {
        FirstZeroMore(table, free, if loopedAroundFAT then last + 1 else end);
        free := free + 1;
        if free > last {
          if loopedAroundFAT {
            return CLUSTER_FREE, free;
          } else {
            free := CLUSTER_FIRST;
            loopedAroundFAT := true;
          }
        }
        link := NextCluster(free);
      }
      FirstZeroMore(table, free, if loopedAroundFAT then last + 1 else end);
      return free, free;
    }

    /** Erases one link and counts the cluster as free. */
    method Erase(cluster: nat)
      requires Valid() && CLUSTER_FIRST <= cluster <= v.lastCluster
      modifies this`store, this`history, this`table, this`freeClusters
      ensures Valid() && clusters == old(clusters) && table == old(table)[cluster := CLUSTER_FREE]
      ensures freeClusters == Plus1(old(freeClusters))
    {
      hide Tracked, Clusters, AllSized, Table;
      MarkSurvives(v, CLUSTER_FREE);
      var _ := WriteFatEntry(cluster, CLUSTER_FREE);
      freeClusters := Plus1(freeClusters);
    }

    /** Moves the search hint back to a cluster about to be freed. */
    method LowerHint(cluster: nat)
      requires Valid()
      modifies this`firstFree
      ensures Valid() && firstFree == Min(old(firstFree), cluster)
    {
      hide Tracked, Clusters, AllSized, Table;
      if cluster < firstFree {
        firstFree := cluster;
      }
    }

    /** Frees a whole chain, given by its first cluster; a start out of range is refused. */
    method ClearLinks(start: nat, ghost ch: Chain) returns (ok: bool)
      requires Valid()
      requires CLUSTER_FIRST <= start <= v.lastCluster ==> IsChain(v, table, ch) && ch[0] == start
      modifies this`store, this`history, this`table, this`firstFree, this`freeClusters
      ensures Valid() && clusters == old(clusters)
      ensures ok <==> CLUSTER_FIRST <= start <= v.lastCluster
      ensures Fat() == if ok then ClearChain(old(Fat()), ch) else old(Fat())
    {
      hide Valid, FatOk, Volume.Ok, IsChain, Freed, FreeAll;
      if start < 2 || start > v.lastCluster {
        return false;
      }
      Shape();
      NothingFreed(v, table, ch);
      LowerHint(start);
      var cluster := start;
      ghost var k := 0;
      while cluster != CLUSTER_EOF && cluster != CLUSTER_FREE
        invariant Valid() && clusters == old(clusters)
        invariant k <= |ch| && cluster == if k < |ch| then ch[k] else CLUSTER_EOF
        invariant table == Freed(old(table), ch, k)
        invariant freeClusters == Plus(old(freeClusters), k)
        invariant firstFree == Min(old(firstFree), start)
        decreases |ch| - k
      {
        FreedNext(v, old(table), ch, k);
        var next := NextCluster(cluster);
        Erase(cluster);
        cluster := next;
        k := k + 1;
      }
      FreedIs(old(table), ch, |ch|);
      return true;
    }

    /** The end of the chain, from any cluster of it. */
    method LastCluster(start: nat, ghost ch: Chain, ghost at: nat) returns (r: nat)
      requires Valid() && IsChain(v, table, ch) && at < |ch| && ch[at] == start
      modifies this`history
      ensures Valid() && r == Last(ch)
    {
      hide Valid, FatOk, Volume.Ok;
      Shape();
      r := start;
      ghost var k := at;
      NextInChain(v, table, ch, k);
      var next := NextCluster(r);
      while next != CLUSTER_FREE && next != CLUSTER_EOF
        invariant Valid() && k < |ch| && r == ch[k] && next == table[r]
        invariant next == if k + 1 < |ch| then ch[k + 1] else CLUSTER_EOF
        decreases |ch| - k
      {
        r := next;
        k := k + 1;
        NextInChain(v, table, ch, k);
        next := NextCluster(r);
      }
    }

    /** Follows `count` links from a cluster of a chain, or as many as there are; `left` tells how many are missing. */
    method Walk(start: nat, count: nat, ghost ch: Chain, ghost at: nat) returns (cluster: nat, next: nat, left: nat)
      requires Valid() && IsChain(v, table, ch) && at < |ch| && ch[at] == start
      modifies this`history
      ensures Valid()
      ensures left == if at + count < |ch| then 0 else at + count + 1 - |ch|
      ensures cluster == ch[at + count - left]
      ensures next == if at + count - left + 1 < |ch| then ch[at + count - left + 1] else CLUSTER_EOF
      ensures OnlyReads(old(history), history)
    {
      hide Valid, FatOk, Volume.Ok;
      Shape();
      cluster, left := start, count;
      ghost var k := at;
      NextInChain(v, table, ch, k);
      next := NextCluster(cluster);
      while left > 0 && next != CLUSTER_FREE && next != CLUSTER_EOF
        invariant OnlyReads(old(history), history)
        invariant Valid() && at <= k < |ch| && cluster == ch[k] && left + k == at + count
        invariant next == if k + 1 < |ch| then ch[k + 1] else CLUSTER_EOF
      {
        left := left - 1;
        cluster := next;
        k := k + 1;
        NextInChain(v, table, ch, k);
        next := NextCluster(cluster);
      }
    }

    /** Keeps the first `chainLength` clusters of a chain and frees the rest; the last cluster kept is returned. */
    method TrimChain(start: nat, chainLength: nat, ghost ch: Chain) returns (r: nat)
      requires Valid() && IsChain(v, table, ch) && ch[0] == start
      modifies this`store, this`history, this`table, this`firstFree, this`freeClusters
      ensures Valid() && clusters == old(clusters)
      ensures chainLength == 0 ==> r == CLUSTER_FREE && Fat() == ClearChain(old(Fat()), ch)
      ensures chainLength > 0 ==> r == ch[Min(chainLength, |ch|) - 1] && Fat() == Chains.TrimChain(old(Fat()), ch, chainLength)
    {
      hide Valid, FatOk, Volume.Ok;
      Shape();
      if chainLength == 0 {
        var _ := ClearLinks(start, ch);
        return CLUSTER_FREE;
      }
      var cluster, next, left := Walk(start, chainLength - 1, ch, 0);
      TrimIdle(Fat(), ch, chainLength);
      DropAfter(cluster, next, ch, chainLength - 1 - left);
      return cluster;
    }

    /** Ends a chain at its cluster k and frees what follows. */
    method DropAfter(cluster: nat, next: nat, ghost ch: Chain, ghost k: nat)
      requires Valid() && IsChain(v, table, ch) && k < |ch| && ch[k] == cluster
      requires next == if k + 1 < |ch| then ch[k + 1] else CLUSTER_EOF
      modifies this`store, this`history, this`table, this`firstFree, this`freeClusters
      ensures Valid() && clusters == old(clusters)
      ensures Fat() == Chains.TrimChain(old(Fat()), ch, k + 1)
    {
      hide Valid, FatOk, Volume.Ok;
      Shape();
      NextInChain(v, table, ch, k);
      if next != CLUSTER_FREE && next != CLUSTER_EOF {
        SuffixIsChain(v, table, ch, k + 1);
        var _ := ClearLinks(next, ch[k + 1..]);
      }
      var _ := WriteFatEntry(cluster, CLUSTER_EOF);
      MarkSurvives(v, CLUSTER_EOF);
    }

    /** Counts the free entries from 2 on, the entry behind the last cluster included. */
    method FreeClusterCount() returns (count: nat)
      requires Valid()
      modifies this`history
      ensures Valid() && count == FreeCount(v, table)
    {
      hide Valid, FatOk, Volume.Ok, FreeBelow;
      Shape();
      count := 0;
      var k := 2;
      FreeBelowMore(table, k);
      while k < v.lastCluster + 2
        invariant Valid() && 2 <= k <= v.lastCluster + 2
        invariant count == |FreeBelow(table, k)|
      {
        var value := NextCluster(k);
        FreeBelowMore(table, k);
        if value == CLUSTER_FREE {
          count := count + 1;
        }
        k := k + 1;
      }
      FreeBelowAll(v, table);
    }

    // ---- the data area ----

    /** Part of one sector of a cluster, written through the cache. */
    method WritePart(cluster: nat, sector: nat, offset: nat, data: seq<byte>)
      requires Valid() && CLUSTER_FIRST <= cluster <= v.lastCluster
      requires sector < v.sectorsPerCluster && offset + |data| <= BYTES_PER_READ
      modifies this`store, this`history, this`clusters
      ensures Valid()
      ensures clusters == old(clusters)[cluster := Splice(old(clusters)[cluster], BYTES_PER_READ * sector + offset, data)]
      ensures history == old(history) + [Access(CachedWrite(v.ClusterToSector(cluster) + sector, offset, data), [])]
    {
      hide Splice, Clusters, FatOk, Traced;
      ghost var o := BYTES_PER_READ * sector + offset;
      ClusterWritten(v, store, cluster, o, data);
      SectorAddress(v, cluster, sector);
      SectorOnDisc(v, cluster, sector);
      var place := v.ClusterToSector(cluster) + sector;
      ghost var before := store;
      assert BYTES_PER_READ * place + offset == v.ClusterAddress(cluster) + o;
      WritePartialSector(place, offset, data);
      assert store == Splice(before, v.ClusterAddress(cluster) + o, data);
      clusters := Clusters(v, store);
      ClustersSized(v, store);
    }

    /** The start of one sector of a cluster, the rest of the sector zeroed, written through the cache. */
    method EraseWritePart(cluster: nat, sector: nat, data: seq<byte>)
      requires Valid() && CLUSTER_FIRST <= cluster <= v.lastCluster
      requires sector < v.sectorsPerCluster && |data| <= BYTES_PER_READ
      modifies this`store, this`history, this`clusters
      ensures Valid()
      ensures clusters == old(clusters)[cluster :=
                Splice(old(clusters)[cluster], BYTES_PER_READ * sector, data + Zeros(BYTES_PER_READ - |data|))]
    {
      hide Splice, Clusters, FatOk, Traced;
      ghost var o, page := BYTES_PER_READ * sector, data + Zeros(BYTES_PER_READ - |data|);
      ErasedPage(data);
      ClusterWritten(v, store, cluster, o, page);
      SectorAddress(v, cluster, sector);
      SectorOnDisc(v, cluster, sector);
      var place := v.ClusterToSector(cluster) + sector;
      ghost var before := store;
      EraseWritePartialSector(place, 0, data);
      assert store == Splice(before, v.ClusterAddress(cluster) + o, page);
      clusters := Clusters(v, store);
      ClustersSized(v, store);
    }

    /** Whole sectors of a cluster, read directly. */
    method ReadSectors(cluster: nat, sector: nat, count: nat) returns (data: seq<byte>)
      requires Valid() && CLUSTER_FIRST <= cluster <= v.lastCluster && sector + count <= v.sectorsPerCluster
      modifies this`history, this`directs
      ensures Valid()
      ensures data == clusters[cluster][BYTES_PER_READ * sector..BYTES_PER_READ * sector + BYTES_PER_READ * count]
      ensures history == old(history) + DirectReads(v.ClusterToSector(cluster) + sector, data)
    {
      hide Clusters, FatOk, Traced;
      ClusterRead(v, store, cluster, BYTES_PER_READ * sector, BYTES_PER_READ * count);
      SectorAddress(v, cluster, sector);
      data := ReadWholeSectors(v.ClusterToSector(cluster) + sector, count);
    }

    /** Whole sectors of a cluster, written directly. */
    method WriteSectors(cluster: nat, sector: nat, count: nat, data: seq<byte>)
      requires Valid() && CLUSTER_FIRST <= cluster <= v.lastCluster
      requires sector + count <= v.sectorsPerCluster && |data| == BYTES_PER_READ * count
      modifies this`store, this`history, this`directs, this`clusters
      ensures Valid()
      ensures clusters == old(clusters)[cluster := Splice(old(clusters)[cluster], BYTES_PER_READ * sector, data)]
    {
      hide Splice, Clusters, FatOk, Traced;
      ghost var before := store;
      ClusterWritten(v, store, cluster, BYTES_PER_READ * sector, data);
      SectorAddress(v, cluster, sector);
      WriteWholeSectors(v.ClusterToSector(cluster) + sector, count, data);
      assert store == Splice(before, v.ClusterAddress(cluster) + BYTES_PER_READ * sector, data);
      clusters := Clusters(v, store);
      ClustersSized(v, store);
    }

    /** Mounting: the search starts at the first cluster and the free clusters are counted. */
    constructor (volume: Volume, disc: seq<byte>)
      requires volume.Ok() && volume.DiscSize() <= |disc| && |disc| % BYTES_PER_READ == 0
      ensures v == volume && store == disc && Valid() && firstFree == CLUSTER_FIRST && Counted(v, Fat())
      ensures origin == Sectors(disc) && directs == 0
    {
      v := volume;
      store := disc;
      firstFree := CLUSTER_FIRST;
      freeClusters := 0;
      origin := Sectors(disc);
      history := [];
      directs := 0;
      TableOnDisc(volume);
      ClustersSized(volume, disc);
      table := Table(volume, disc);
      clusters := Clusters(volume, disc);
      new;
      var count := FreeClusterCount();
      SubsetCount(v.lastCluster + 2, FreeSet(v, table));
      freeClusters := count;
    }
  }

  /** A cluster of which the first n sectors have been cleared. */
  function Cleared(s: seq<byte>, n: nat): (r: seq<byte>)
    requires BYTES_PER_READ * n <= |s|
    ensures |r| == |s|
  {
    Zeros(BYTES_PER_READ * n) + s[BYTES_PER_READ * n..]
  }

  lemma ClearedMore(s: seq<byte>, n: nat)
    requires BYTES_PER_READ * (n + 1) <= |s|
    ensures Splice(Cleared(s, n), BYTES_PER_READ * n, Zeros(BYTES_PER_READ)) == Cleared(s, n + 1)
  {
  }

  lemma ClearedAll(s: seq<byte>, n: nat)
    requires BYTES_PER_READ * n == |s|
    ensures Cleared(s, n) == Zeros(|s|)
  {
  }

  lemma SectorInside(store: seq<byte>, sector: nat)
    requires |store| % BYTES_PER_READ == 0 && BYTES_PER_READ * sector < |store|
    ensures sector < |store| / BYTES_PER_READ
  {
  }

  lemma WholeSplice(s: seq<byte>, d: seq<byte>)
    requires |s| == |d|
    ensures Splice(s, 0, d) == d
  {
  }

  lemma ErasedPage(data: seq<byte>)
    requires |data| <= BYTES_PER_READ
    ensures Splice(Zeros(BYTES_PER_READ), 0, data) == data + Zeros(BYTES_PER_READ - |data|)
  {
  }

  /** Every sector of a cluster lies on the disc. */
  lemma SectorOnDisc(v: Volume, cluster: nat, sector: nat)
    requires v.Ok() && CLUSTER_FIRST <= cluster <= v.lastCluster && sector < v.sectorsPerCluster
    ensures BYTES_PER_READ * (v.ClusterToSector(cluster) + sector) + BYTES_PER_READ <= v.DiscSize()
  {
    SectorAddress(v, cluster, sector);
    ClusterOnDisc(v, cluster);
  }

  lemma EntrySector16(cluster: nat)
    ensures BYTES_PER_READ * (cluster * 2 / BYTES_PER_READ) + cluster % (BYTES_PER_READ / 2) * 2 == cluster * 2
    ensures cluster % (BYTES_PER_READ / 2) * 2 + 2 <= BYTES_PER_READ
  {
    var q, r := cluster / 256, cluster % 256;
    assert cluster * 2 == BYTES_PER_READ * q + r * 2;
  }

  lemma EntrySector32(cluster: nat)
    ensures BYTES_PER_READ * (cluster * 4 / BYTES_PER_READ) + cluster % (BYTES_PER_READ / 4) * 4 == cluster * 4
    ensures cluster % (BYTES_PER_READ / 4) * 4 + 4 <= BYTES_PER_READ
  {
    var q, r := cluster / 128, cluster % 128;
    assert cluster * 4 == BYTES_PER_READ * q + r * 4;
  }

  lemma SplicePair(s: seq<byte>, a: nat, x: byte, y: byte)
    requires a + 2 <= |s|
    ensures Splice(Splice(s, a, [x]), a + 1, [y]) == s[a := x][a + 1 := y]
  {
  }

  function FreeBelow(t: seq<nat>, k: nat): set<nat>
    requires k <= |t|
  {
    set c: nat | CLUSTER_FIRST <= c < k && t[c] == CLUSTER_FREE
  }

  lemma FreeBelowMore(t: seq<nat>, k: nat)
    requires k < |t|
    ensures k <= CLUSTER_FIRST ==> FreeBelow(t, k) == {}
    ensures k >= CLUSTER_FIRST ==> |FreeBelow(t, k + 1)| == |FreeBelow(t, k)| + if t[k] == CLUSTER_FREE then 1 else 0
  {
    if k >= CLUSTER_FIRST {
      assert FreeBelow(t, k + 1) == FreeBelow(t, k) + if t[k] == CLUSTER_FREE then {k} else {};
    }
  }

  lemma FreeBelowAll(v: Volume, t: seq<nat>)
    requires |t| == v.lastCluster + 2
    ensures |FreeBelow(t, v.lastCluster + 2)| == FreeCount(v, t)
  {
    assert FreeBelow(t, v.lastCluster + 2) == FreeSet(v, t);
  }

  lemma SuffixIsChain(v: Volume, t: seq<nat>, ch: Chain, k: nat)
    requires |t| == v.lastCluster + 2 && IsChain(v, t, ch) && k < |ch|
    ensures IsChain(v, t, ch[k..])
  {
  }

  lemma ShiftedBytes(value: nat, oldValue: byte)
    ensures var shifted := value * 16 % 0x1_0000_0000 + oldValue as int % 16;
      && ByteOf(shifted, 0) == value % 16 * 16 + oldValue as int % 16
      && ByteOf(shifted, 1) == value / 16 % 256
  {
    var k, q, r := value / 0x1000_0000, value % 0x1000_0000, oldValue as int % 16;
    var shifted := value * 16 % 0x1_0000_0000 + r;
    assert value * 16 == 0x1_0000_0000 * k + q * 16;
    assert shifted == q * 16 + r;
    NibbleUp(q, r);
    LowParts(k, q);
    assert ByteOf(shifted, 0) == shifted % 256 && ByteOf(shifted, 1) == shifted / 256 % 256;
  }

  lemma LowParts(k: nat, q: nat)
    ensures (0x1000_0000 * k + q) % 16 == q % 16
    ensures (0x1000_0000 * k + q) / 16 % 256 == q / 16 % 256
  {
    var y, r := q / 16, q % 16;
    assert 0x1000_0000 * k + q == 16 * (0x100_0000 * k + y) + r;
    assert 0x100_0000 * k + y == 256 * (0x1_0000 * k + y / 256) + y % 256;
  }

  lemma NibbleUp(q: nat, r: nat)
    requires r < 16
    ensures (q * 16 + r) / 256 == q / 16 && (q * 16 + r) % 256 == q % 16 * 16 + r
  {
    assert q * 16 + r == q / 16 * 256 + (q % 16 * 16 + r);
  }
}
