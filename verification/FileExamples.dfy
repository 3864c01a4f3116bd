/** Volumes on which the file operations do not do what is asked of them. */
module FileExamples {
  import opened Bytes
  import opened Geometry
  import opened FatEntry
  import opened Chains
  import opened FileImage
  import opened FileSteps
  import opened FatPartition
  import opened FatFile

  /** Three clusters of one sector; every byte of the disc is 255, so every cluster is the end of a chain of its own. */
  function FullVolume(): Volume { Volume(1, 4, 1, 2, 2) }

  function FullDisc(): (d: seq<byte>)
    ensures |d| == 2560
  {
    seq(2560, _ => 255)
  }

  lemma FullFacts()
    ensures var v, d := FullVolume(), FullDisc();
      && v.Ok() && v.DiscSize() == |d| && v.BytesPerCluster() == 512
      && (forall c :: 0 <= c <= 5 ==> Table(v, d)[c] == CLUSTER_EOF)
      && IsChain(v, Table(v, d), [2]) && FreeCount(v, Table(v, d)) == 0
      && Clusters(v, d)[2] == seq(512, _ => 255)
  {
    var v, d := FullVolume(), FullDisc();
    forall c | 0 <= c <= 5 ensures Table(v, d)[c] == CLUSTER_EOF {
      EntryFits(v, c);
      TableAt(v, d, c);
      OnesAreEnd(v, d, c);
    }
    assert FreeSet(v, Table(v, d)) == {};
    ClustersAt(v, d, 2);
  }

  lemma OnesAreEnd(v: Volume, d: seq<byte>, c: nat)
    requires v == FullVolume() && d == FullDisc() && c <= 5 && v.EntryAddress(c) + v.EntryBytes() <= |d|
    ensures Link(v, d, c) == CLUSTER_EOF
  {
    var a := v.EntryAddress(c);
    assert d[a] == 255 && d[a + 1] == 255;
    assert U16(255, 255) == 0xFFFF;
  }

  /** A file of one cluster on this volume, open for reading and writing. */
  method OpenOnFullVolume(size: nat) returns (f: FileStruct)
    requires size <= 512
    ensures fresh(f) && fresh(f.partition) && f.V() == FullVolume() && f.Sound([2])
    ensures f.inUse && f.read && f.write && !f.append && f.filesize == size && f.currentPosition == 0
    ensures f.partition.table[0] == CLUSTER_EOF && FreeCount(f.V(), f.partition.table) == 0
    ensures At(f.V(), [2], 0, f.rwPosition, 0)
    ensures |f.partition.clusters| > 2 && f.partition.clusters[2] == seq(512, _ => 255)
  {
    hide Table, Clusters, Content;
    FullFacts();
    var p := new Partition(FullVolume(), FullDisc());
    f := new FileStruct(p, 2, size, true, true, false, [2]);
    assert Offset(1, 512) == 512;
  }

  lemma OneCluster(cl: seq<seq<byte>>, ch: Chain, b: nat)
    requires |ch| == 1 && Sized(cl, ch, b)
    ensures Offset(1, b) == b && Image(cl, ch, b) == cl[ch[0]] && Content(cl, ch, b, b) == cl[ch[0]]
  {
    ImageCluster(cl, ch, b, 0);
    ContentLength(cl, ch, b, b);
    assert Image(cl, [], b) == [];
    assert ch[..0] == [];
  }

  /**
   * A file of one cluster on a full volume is made one cluster long, or one byte longer. Both calls fail, and both set
   * the new size; after the first every byte of it is stored, after the second one is missing.
   */
  method GrowOnFullVolume(len: nat) returns (r: int, size: nat, data: seq<byte>)
    requires len == 512 || len == 513
    ensures r == -1 && size == len && data == Zeros(512)
  {
    hide Table, Clusters, IsChain, Content, Offset, FreeCount, Safe, Grown, FatOk, AllSized, Partition.Tracked;
    var f := OpenOnFullVolume(0);
    ghost var ch;
    ghost var was, fat := f.Contents([2]), f.partition.Fat();
    f.SoundLength([2]);
    r, ch := f.Ftruncate(len, [2]);
    GrownPrefix(f.V(), fat, [2], f.partition.Fat(), ch);
    size := f.filesize;
    SafeImage(f.V(), f.partition.Fat(), f.partition.clusters, ch);
    OneCluster(f.partition.clusters, ch, 512);
    assert |ch| == 1 && ch[0] == 2;
    assert Content(f.partition.clusters, ch, 512, 512) == was + Zeros(512);
    assert f.partition.clusters[2] == Zeros(512);
    assert was == [] && [] + Zeros(512) == Zeros(512);
    data := f.partition.ReadSectors(2, 0, 1);
  }

  /**
   * A file of exactly one cluster is written behind its end. The zeros and the byte go over its first bytes, which are
   * lost, and the size then exceeds the chain.
   */
  method WriteBehindFullCluster() returns (before: seq<byte>, after: seq<byte>, r: int, size: nat)
    ensures before == seq(512, _ => 255)
    ensures |after| == 512 && after[..88] == Zeros(88) && after[88] == 7
    ensures r == 1 && size == 601
  {
    hide Table, Clusters, IsChain, Content, FreeCount, Safe, Grown, FatOk, AllSized, InProgress, Overwrite,
      Partition.Tracked;
    var f := OpenOnFullVolume(512);
    before := f.partition.ReadSectors(2, 0, 1);
    var at := f.Seek(600, Set, [2]);
    ghost var o := f.Before([2], f.ExtendStart([2]));
    assert Offset(0, 512) == 0 && Offset(1, 512) == 512;
    ghost var extended, ok, ch, rest;
    r, extended, ok, ch, rest := f.Write([7], [2]);
    size := f.filesize;
    assert r == 1;
    assert InProgress(f.V(), o, f.partition.Fat(), f.partition.clusters, ch, Zeros(88) + [7][..r] + rest);
    assert [7][..r] == [7];
    WrittenAt(f.V(), o, f.partition.Fat(), f.partition.clusters, ch, [7], rest);
    after := f.partition.ReadSectors(2, 0, 1);
  }

  lemma WrittenAt(v: Volume, o: Origin, s: Fat, cl: seq<seq<byte>>, ch: Chain, d: seq<byte>, rest: seq<byte>)
    requires v.BytesPerCluster() == 512 && o.chain == [2] && o.start == 0 && |d| == 1
    requires InProgress(v, o, s, cl, ch, Zeros(88) + d + rest)
    ensures |cl| > 2 && |cl[2]| == 512 && cl[2][..88] == Zeros(88) && cl[2][88] == d[0]
  {
    hide Safe, Grown, AllSized, Snug;
    ProgressFacts(v, o, s, cl, ch, Zeros(88) + d + rest);
    ImageCluster(cl, ch, 512, 0);
    var e := Zeros(88) + d + rest;
    var img := Image(cl, ch, 512);
    assert img == Splice(Image(o.clusters, ch, 512), 0, e);
    assert img[0..512] == cl[2];
    forall k | 0 <= k < 89 ensures cl[2][k] == e[k] { assert img[k] == e[k]; }
  }
}
