/**
 * When the results about files on one coherent store hold over a write-back cache and a disc. The file layer reads and
 * writes parts of sectors through the cache and whole sectors past it, and never flushes in between. The accesses of a
 * run, repeated on a cache and a disc, give what the run used and leave what it left as long as each of them is safe;
 * that is always so when all of them go through the cache.
 */
module FileOverCache {
  import opened Arith
  import opened Bytes
  import opened Geometry
  import opened Chains
  import opened FlatDisc
  import opened SectorCache
  import CacheRuns
  import opened FileImage
  import opened FileSteps
  import opened FatPartition
  import opened FatFile
  import FileRuns

  /** Accesses that all go through the cache are safe, whatever is resident. */
  lemma {:induction false} CachedIsSafe(ops: seq<Op>, n: nat, k: nat, es: seq<Entry>)
    requires AllOnDisc(ops, n) && Directs(ops) == 0 && n <= CACHE_FREE && k < |ops|
    ensures CacheRuns.Safe(es, ops[k])
    decreases |ops|
  {
    if k < |ops| - 1 {
      CachedIsSafe(ops[..|ops| - 1], n, k, es);
    }
  }

  /** What the record of a partition says. */
  lemma RecordIs(p: Partition)
    requires p.Valid()
    ensures Sectors(p.store) == FlatRun(p.origin, Ops(p.history))
    ensures Results(p.history) == FlatResults(p.origin, Ops(p.history))
    ensures p.directs == Directs(Ops(p.history)) && AllOnDisc(Ops(p.history), |p.origin|)
    ensures Joined(Sectors(p.store)) == p.store
  {
    JoinedSectors(p.store);
  }

  /**
   * The accesses of a partition since it was mounted, repeated on a cache over the disc that was mounted. As far as they
   * are safe, each returns what it returned to the file layer. When all are, what is seen through the cache is the
   * store, and so is the file in it. They all are when none went past the cache.
   */
  method OverCache(c: Cache, ops: seq<Op>, ghost f: FileStruct, ghost ch: Chain, ghost flat: FileRuns.Flat, ghost stand: FileRuns.Stand)
      returns (results: seq<seq<byte>>, done: nat)
    requires FileRuns.Represents(f, ch, flat, stand) && ops == Ops(f.partition.history)
    requires c.Valid() && c.disc.faulty == {} && c.view == f.partition.origin
    modifies c`view, c.disc, c.cacheEntries, c.pages
    ensures c.Valid() && done <= |ops|
    ensures results == Results(f.partition.history)[..done]
    ensures done < |ops| ==> !CacheRuns.Safe(c.cacheEntries[..], ops[done])
    ensures done == |ops| ==> Joined(c.view) == f.partition.store
    ensures done == |ops| ==> f.V().Ok() && f.V().DiscSize() <= |Joined(c.view)|
    ensures done == |ops| ==> Content(Clusters(f.V(), Joined(c.view)), ch, f.B(), f.filesize) == flat.bytes
    ensures f.partition.directs == 0 ==> done == |ops|
  {
    hide CacheRuns.Safe, FlatRun, FlatResults, Results, Ops, Sectors, Joined, Directs, AllOnDisc, Content;
    RecordIs(f.partition);
    results, done := CacheRuns.Run(c, ops);
    if done == |ops| {
      assert ops[..done] == ops;
    }
    PrefixResults(f.partition.origin, ops, done);
    if f.partition.directs == 0 && done < |ops| {
      CachedIsSafe(ops, |f.partition.origin|, done, c.cacheEntries[..]);
      assert false;
    }
  }

  lemma {:induction false} PrefixResults(flat: seq<Sector>, ops: seq<Op>, k: nat)
    requires k <= |ops|
    ensures |FlatResults(flat, ops)| == |ops| && FlatResults(flat, ops[..k]) == FlatResults(flat, ops)[..k]
    decreases |ops|
  {
    if k < |ops| {
      PrefixResults(flat, ops[..|ops| - 1], k);
      assert ops[..|ops| - 1][..k] == ops[..k];
    } else {
      assert ops[..k] == ops;
      if ops != [] { PrefixResults(flat, ops[..|ops| - 1], k - 1); }
    }
  }

  /**
   * A run that is trusted on a coherent store and not over a cache: part of the first sector of a file is written, the
   * place is sought back to the start, and the whole sector is read. The write and the links read for seeking go
   * through the cache, the last read past it; nothing is flushed in between.
   */
  method WriteSeekRead(f: FileStruct, data: seq<byte>, ghost ch: Chain, ghost flat: FileRuns.Flat) returns (whole: seq<byte>)
    requires FileRuns.Represents(f, ch, flat, FileRuns.Here) && flat.at == 0 && BYTES_PER_READ <= |flat.bytes|
    requires 0 < |data| < BYTES_PER_READ
    modifies f`filesize, f`startCluster, f`rwPosition, f`appendPosition, f`currentPosition, f.partition
    ensures whole == data + flat.bytes[|data|..BYTES_PER_READ]
    ensures exists mid :: WentPast(old(f.partition.history), f.partition.history, f.V().ClusterToSector(old(f.startCluster)), data, mid, whole)
  {
    hide Content, Overwrite, FileRuns.Represents, ReadGives, FileStruct.Sound, Partition.Valid, Agree, Normal;
    ghost var h0 := f.partition.history;
    ghost var ch1 := WriteStart(f, data, ch, flat);
    f.SoundLength(ch1);
    var t := f.Seek(0, Set, ch1);
    NormalAtStart(f.V(), ch1, f.rwPosition);
    f.SoundLength(ch1);
    ghost var h1, pos := f.partition.history, f.rwPosition;
    whole := f.Read(BYTES_PER_READ, ch1);
    WholeIs(f, ch1, pos, flat.bytes, data, whole);
    OneDirectRead(f.SectorOf(pos), whole);
    WentPastIs(h0, h1, f.partition.history, f.V().ClusterToSector(f.startCluster), data, whole);
  }

  lemma WholeIs(f: FileStruct, ch: Chain, pos: Position, bytes: seq<byte>, data: seq<byte>, whole: seq<byte>)
    requires f.Sound(ch) && |data| <= BYTES_PER_READ <= |bytes| == f.filesize && |whole| == BYTES_PER_READ
    requires f.Contents(ch) == Overwrite(bytes, 0, data)
    requires ReadGives(f.V(), f.partition.clusters, ch, f.filesize, pos, 0, |whole|, whole)
    ensures whole == data + bytes[|data|..BYTES_PER_READ]
  {
    ReadGivesContent(f.V(), f.partition.clusters, ch, f.filesize, pos, 0, |whole|, whole);
    StartOverwritten(bytes, data);
  }

  method WriteStart(f: FileStruct, data: seq<byte>, ghost ch: Chain, ghost flat: FileRuns.Flat) returns (ghost ch1: Chain)
    requires FileRuns.Represents(f, ch, flat, FileRuns.Here) && flat.at == 0 && BYTES_PER_READ <= |flat.bytes|
    requires 0 < |data| < BYTES_PER_READ
    modifies f`filesize, f`startCluster, f`rwPosition, f`appendPosition, f`currentPosition, f.partition
    ensures f.Sound(ch1) && f.inUse && f.read && f.filesize == |flat.bytes| && f.startCluster == old(f.startCluster)
    ensures f.Contents(ch1) == Overwrite(flat.bytes, 0, data) && f.currentPosition == |data|
    ensures f.partition.history == old(f.partition.history) + [Access(CachedWrite(f.V().ClusterToSector(f.startCluster), 0, data), [])]
  {
    hide Content, Overwrite, Agree, Normal, Safe, Grown, FileRuns.Represents, FileRuns.StandsAt, Room, FileStruct.Contents, FileStruct.Padded,
      FileStruct.Sound, Partition.Valid;
    FileRuns.RepresentedFacts(f, ch, flat, FileRuns.Here);
    f.SoundLength(ch);
    AtStart(f.V(), ch, f.rwPosition, f.filesize);
    RoomInside(f.V(), f.partition.Fat(), ch, |data|, f.filesize);
    StartOverwritten(flat.bytes, data);
    ghost var extended, ok, rest;
    var r;
    r, extended, ok, ch1, rest := f.Write(data, ch);
    assert data[..|data|] == data;
  }

  lemma AtStart(v: Volume, ch: Chain, pos: Position, size: nat)
    requires v.Ok() && FileRuns.StandsAt(v, ch, pos, size, 0, FileRuns.Here) && size > 0
    ensures ch != [] && pos == Position(ch[0], 0, 0) && Agree(v, ch, pos, 0) && Normal(v, ch, pos, 0)
  {
    DivMod(0, v.BytesPerCluster(), 0, 0);
  }

  lemma NormalAtStart(v: Volume, ch: Chain, pos: Position)
    requires v.Ok() && Normal(v, ch, pos, 0)
    ensures ch != [] && pos == Position(ch[0], 0, 0) && Agree(v, ch, pos, 0)
  {
    DivMod(0, v.BytesPerCluster(), 0, 0);
  }

  lemma RoomInside(v: Volume, s: Fat, ch: Chain, n: nat, size: nat)
    requires n <= size <= Offset(|ch|, v.BytesPerCluster())
    ensures Smaller(n, Room(v, s, ch, 0)) == n
  {
    OffsetMono(|ch|, |ch| + FreeCount(v, s.table), v.BytesPerCluster());
  }

  lemma StartOverwritten(s: seq<byte>, d: seq<byte>)
    requires |d| <= BYTES_PER_READ <= |s|
    ensures FileStruct.Padded(s, 0) == s && |Overwrite(s, 0, d)| == |s|
    ensures Overwrite(s, 0, d)[0..0 + BYTES_PER_READ] == d + s[|d|..BYTES_PER_READ]
  {
  }

  lemma OneDirectRead(sector: nat, data: seq<byte>)
    requires |data| == BYTES_PER_READ
    ensures DirectReads(sector, data) == [Access(DirectRead(sector), data)]
  {
    assert data[..BYTES_PER_READ] == data;
    assert DirectReads(sector + 1, data[BYTES_PER_READ..]) == [];
  }

  lemma WentPastIs(h0: seq<Access>, h1: seq<Access>, h: seq<Access>, sector: nat, data: seq<byte>, whole: seq<byte>)
    requires OnlyReads(h0 + [Access(CachedWrite(sector, 0, data), [])], h1)
    requires OnlyReads(h1 + [Access(DirectRead(sector), whole)], h)
    ensures exists mid :: WentPast(h0, h, sector, data, mid, whole)
  {
    var w := h0 + [Access(CachedWrite(sector, 0, data), [])];
    var mid := h1[|w|..];
    assert w + mid == h1;
    assert WentPast(h0, h, sector, data, mid, whole);
  }

  /** A part of a sector is written through the cache, and after reads of other parts the sector is read past it. */
  ghost predicate WentPast(h0: seq<Access>, h: seq<Access>, sector: nat, data: seq<byte>, mid: seq<Access>, whole: seq<byte>) {
    var h1 := h0 + [Access(CachedWrite(sector, 0, data), [])];
    OnlyReads(h1, h1 + mid) && OnlyReads(h1 + mid + [Access(DirectRead(sector), whole)], h)
  }

  /**
   * The same accesses on a fresh cache: the sector is still dirty when it is read past the cache, and what is read is
   * what was there before.
   */
  method StaleRead(c: Cache, sector: nat, fatSector: nat, offset: nat, data: seq<byte>) returns (seen: Sector)
    requires c.Valid() && c.disc.faulty == {} && c.view == c.disc.sectors
    requires forall i :: 0 <= i < c.cacheEntries.Length ==> c.cacheEntries[i].sector == CACHE_FREE
    requires sector < |c.view| && fatSector < |c.view| && sector != fatSector
    requires 0 < |data| < BYTES_PER_READ && offset + 2 <= BYTES_PER_READ
    modifies c`view, c.disc, c.cacheEntries, c.pages
    ensures c.Valid() && c.view == old(c.view)[sector := Splice(old(c.view)[sector], 0, data)]
    ensures seen == old(c.view)[sector]
    ensures !CacheRuns.Safe(c.cacheEntries[..], DirectRead(sector))
    ensures seen == c.view[sector] <==> data == old(c.view)[sector][..|data|]
  {
    hide Cache.Valid, Splice;
    c.Shape();
    ghost var page, link, again;
    var ok;
    ok, page := c.WritePartialSector(data, sector, 0);
    ghost var other := if page == 0 then 1 else 0;
    assert c.cacheEntries[..][other].sector == CACHE_FREE;
    var low, high;
    ok, low, link := c.ReadPartialSector(fatSector, offset, 1);
    assert c.cacheEntries[..][page].sector == sector && c.cacheEntries[..][page].dirty;
    assert c.cacheEntries[..][link].sector == fatSector;
    ok, high, again := c.ReadPartialSector(fatSector, offset + 1, 1);
    assert c.cacheEntries[..][page].sector == sector && c.cacheEntries[..][page].dirty;
    ok, seen := c.disc.ReadSector(sector);
    SpliceSame(seen, data);
  }

  lemma SpliceSame(s: seq<byte>, d: seq<byte>)
    requires |d| <= |s|
    ensures Splice(s, 0, d) == s <==> d == s[..|d|]
  {
    var r := Splice(s, 0, d);
    assert r[..|d|] == d;
  }
}
