/** Stepping through the 32-byte slots of a directory: a chain of clusters, or the fixed root area before the data. */
module DirectoryWalk {
  import opened Bytes
  import opened Geometry
  import opened Chains
  import opened FileImage
  import opened FatPartition

  const SLOT := 32
  const FAT16_ROOT_DIR_CLUSTER := 0

  datatype DirPosition = DirPosition(cluster: nat, sector: nat, offset: nat)

  datatype Directory = Clustered(chain: Chain) | FixedRoot

  ghost predicate IsDirectory(p: Partition, d: Directory)
    reads p
    requires p.Valid()
  {
    d.Clustered? ==> IsChain(p.v, p.table, d.chain)
  }

  /** The bytes of a directory, one slot after the other. */
  ghost function Area(p: Partition, d: Directory): seq<byte>
    reads p
    requires p.Valid() && IsDirectory(p, d)
  {
    match d
    case Clustered(ch) =>
      ChainSized(p, ch);
      Image(p.clusters, ch, p.v.BytesPerCluster())
    case FixedRoot =>
      if p.v.rootDirStart <= p.v.dataStart
      then p.store[BYTES_PER_READ * p.v.rootDirStart..BYTES_PER_READ * p.v.dataStart]
      else []
  }

  lemma ChainSized(p: Partition, ch: Chain)
    requires p.Valid() && IsChain(p.v, p.table, ch)
    ensures Sized(p.clusters, ch, p.v.BytesPerCluster())
  {
    forall i | 0 <= i < |ch| ensures ch[i] < |p.clusters| && |p.clusters[ch[i]]| == p.v.BytesPerCluster() {
      NextInChain(p.v, p.table, ch, i);
    }
  }

  /** The position is that of slot k, in the cluster numbered j of a clustered directory. */
  ghost predicate SlotAt(v: Volume, d: Directory, j: nat, pos: DirPosition, k: nat) {
    && pos.offset < 16
    && match d
       case Clustered(ch) =>
         && j < |ch| && pos.cluster == ch[j] && pos.sector < v.sectorsPerCluster
         && SLOT * k == Offset(j, v.BytesPerCluster()) + BYTES_PER_READ * pos.sector + SLOT * pos.offset
       case FixedRoot =>
         && pos.cluster == FAT16_ROOT_DIR_CLUSTER && v.rootDirStart + pos.sector < v.dataStart
         && SLOT * k == BYTES_PER_READ * pos.sector + SLOT * pos.offset
  }

  /** Slot k of the fixed root area is the slot numbered k % 16 of its sector k / 16, under cluster number 0. */
  lemma RootPosition(v: Volume, j: nat, k: nat)
    ensures SlotAt(v, FixedRoot, j, DirPosition(0, k / 16, k % 16), k) <==> v.rootDirStart + k / 16 < v.dataStart
  {
  }

  /** Slot o of sector t in cluster q of a clustered directory, with sixteen slots in a sector. */
  lemma ClusterPosition(v: Volume, ch: Chain, q: nat, t: nat, o: nat, k: nat)
    requires q < |ch| && t < v.sectorsPerCluster && o < 16
    ensures SlotAt(v, Clustered(ch), q, DirPosition(ch[q], t, o), k) <==> k == 16 * (q * v.sectorsPerCluster + t) + o
  {
    OffsetIs(q, v.BytesPerCluster());
    assert q * v.BytesPerCluster() == 512 * (q * v.sectorsPerCluster);
  }

  /** A position names one slot. */
  lemma SlotDetermined(v: Volume, ch: Chain, i: nat, j: nat, pos: DirPosition, k: nat, l: nat)
    requires Distinct(ch) && SlotAt(v, Clustered(ch), i, pos, k) && SlotAt(v, Clustered(ch), j, pos, l)
    ensures i == j && k == l
  {
  }

  /** How far the slot is from the end of the directory. */
  lemma AreaLength(p: Partition, d: Directory, j: nat, pos: DirPosition, k: nat)
    requires p.Valid() && IsDirectory(p, d) && SlotAt(p.v, d, j, pos, k)
    ensures d.Clustered? ==> j < |d.chain| && pos.cluster >= CLUSTER_FIRST && |Area(p, d)| == Offset(|d.chain|, p.v.BytesPerCluster())
    ensures d.Clustered? && j + 1 == |d.chain| ==> |Area(p, d)| == Offset(j, p.v.BytesPerCluster()) + p.v.BytesPerCluster()
    ensures d.Clustered? && j + 1 < |d.chain| ==> |Area(p, d)| >= Offset(j + 1, p.v.BytesPerCluster()) + p.v.BytesPerCluster()
    ensures Offset(j + 1, p.v.BytesPerCluster()) == Offset(j, p.v.BytesPerCluster()) + p.v.BytesPerCluster()
    ensures d.FixedRoot? ==> p.v.rootDirStart < p.v.dataStart && |Area(p, d)| == BYTES_PER_READ * (p.v.dataStart - p.v.rootDirStart)
  {
    hide Partition.Tracked, Clusters, Image;
    if d.Clustered? {
      ChainSized(p, d.chain);
      ImageLength(p.clusters, d.chain, p.v.BytesPerCluster());
      NextInChain(p.v, p.table, d.chain, j);
      OffsetMono(j + 1, |d.chain|, p.v.BytesPerCluster());
    }
  }

  /** The link behind a cluster of the directory. */
  method NextLink(p: Partition, cluster: nat, ghost d: Directory, ghost j: nat) returns (next: nat)
    requires p.Valid() && IsDirectory(p, d) && d.Clustered? && j < |d.chain| && cluster == d.chain[j]
    modifies p`history
    ensures p.Valid() && IsDirectory(p, d) && Area(p, d) == old(Area(p, d))
    ensures next == if j + 1 < |d.chain| then d.chain[j + 1] else CLUSTER_EOF
    ensures next != CLUSTER_FREE && (next == CLUSTER_EOF <==> j + 1 == |d.chain|)
  {
    hide Partition.Tracked, Clusters, IsChain, AllSized, Image;
    NextInChain(p.v, p.table, d.chain, j);
    next := p.NextCluster(cluster);
  }

  /**
   * One step. At the last slot it fails and stays there, unless the directory is clustered and may be extended: then it
   * goes on into a new cluster of zeros behind the others, and fails only when no cluster is free.
   */
  method Increment(p: Partition, pos: DirPosition, extend: bool, ghost d: Directory, ghost j: nat, ghost k: nat)
      returns (ok: bool, next: DirPosition, ghost d': Directory, ghost j': nat)
    requires p.Valid() && IsDirectory(p, d) && SlotAt(p.v, d, j, pos, k)
    requires extend && d.Clustered? ==> Last(d.chain) != p.v.lastCluster && !HintPastEnd(p.v, p.Fat())
    modifies p
    ensures p.Valid() && IsDirectory(p, d')
    ensures ok <==> SLOT * (k + 1) < |old(Area(p, d))| || (extend && d.Clustered? && !NoneFree(p.v, old(p.table)))
    ensures ok ==> SlotAt(p.v, d', j', next, k + 1)
    ensures !ok ==> next == pos
    ensures !ok || SLOT * (k + 1) < |old(Area(p, d))| ==>
              d' == d && p.table == old(p.table) && p.clusters == old(p.clusters) && Area(p, d) == old(Area(p, d))
    ensures ok && SLOT * (k + 1) >= |old(Area(p, d))| ==> d.Clustered? && d'.Clustered?
    ensures ok && SLOT * (k + 1) >= |old(Area(p, d))| ==>
              && |d'.chain| == |d.chain| + 1 && d.chain <= d'.chain && p.table == old(p.table)[Last(d.chain) := Last(d'.chain)][Last(d'.chain) := CLUSTER_EOF]
              && Last(d'.chain) < |old(p.table)| && old(p.table)[Last(d'.chain)] == CLUSTER_FREE
              && Area(p, d') == old(Area(p, d)) + Zeros(p.v.BytesPerCluster())
  {
    hide Area, IsDirectory, IsChain, HintPastEnd, Offset, NoneFree, Partition.Valid;
    p.Shape();
    AreaLength(p, d, j, pos, k);
    j', d' := j, d;
    next := pos.(offset := pos.offset + 1);
    if next.offset == BYTES_PER_READ / SLOT {
      next := next.(offset := 0, sector := next.sector + 1);
      if next.sector == p.v.sectorsPerCluster && next.cluster != FAT16_ROOT_DIR_CLUSTER {
        var cluster := NextLink(p, next.cluster, d, j);
        if cluster == CLUSTER_EOF {
          if extend {
            cluster, d' := ExtendDirectory(p, next.cluster, d);
            if cluster == CLUSTER_FREE {
              return false, pos, d, j;
            }
          } else {
            return false, pos, d, j;
          }
        }
        next := DirPosition(cluster, 0, 0);
        j' := j + 1;
      } else if next.cluster == FAT16_ROOT_DIR_CLUSTER && next.sector == p.v.dataStart - p.v.rootDirStart {
        return false, pos, d, j;
      }
    }
    ok := true;
  }

  /** Links a cleared cluster behind the last one of a directory. */
  method ExtendDirectory(p: Partition, cluster: nat, ghost d: Directory) returns (r: nat, ghost d': Directory)
    requires p.Valid() && d.Clustered? && IsDirectory(p, d) && cluster == Last(d.chain)
    requires Last(d.chain) != p.v.lastCluster && !HintPastEnd(p.v, p.Fat())
    modifies p
    ensures p.Valid() && IsDirectory(p, d')
    ensures r == CLUSTER_FREE <==> NoneFree(p.v, old(p.table))
    ensures r == CLUSTER_FREE ==> d' == d && p.table == old(p.table) && p.clusters == old(p.clusters) && Area(p, d) == old(Area(p, d))
    ensures r != CLUSTER_FREE ==> d' == Clustered(d.chain + [r]) && r < |old(p.table)| && old(p.table)[r] == CLUSTER_FREE
    ensures r != CLUSTER_FREE ==> p.table == old(p.table)[Last(d.chain) := r][r := CLUSTER_EOF]
    ensures r != CLUSTER_FREE ==> Area(p, d') == old(Area(p, d)) + Zeros(p.v.BytesPerCluster())
  {
    hide Partition.Tracked, Clusters, LinkFree, HintPastEnd, Search;
    ghost var ch, cl, b := d.chain, p.clusters, p.v.BytesPerCluster();
    ChainSized(p, ch);
    NextInChain(p.v, p.table, ch, |ch| - 1);
    LinkExtends(p.v, p.Fat(), ch);
    LinkFails(p.v, p.Fat(), ch);
    r := p.LinkFreeClusterCleared(cluster);
    d' := d;
    if r != CLUSTER_FREE {
      d' := Clustered(ch + [r]);
      ChainSized(p, ch + [r]);
      assert r !in ch by { NewInLonger(ch, r); }
      ImageExtend(p.clusters, ch, r, b);
      ImageFrame(cl, p.clusters, ch, b);
    }
  }

  lemma NewInLonger(ch: Chain, r: nat)
    requires Distinct(ch + [r])
    ensures r !in ch
  {
    forall i | 0 <= i < |ch| ensures ch[i] != r { assert (ch + [r])[i] == ch[i] && (ch + [r])[|ch|] == r; }
  }

  /** Linking behind the end of a chain fails exactly when no cluster is free. */
  lemma LinkFails(v: Volume, s: Fat, ch: Chain)
    requires FatOk(v, s) && IsChain(v, s.table, ch) && !HintPastEnd(v, s)
    ensures LinkFree(v, s, Last(ch)).1 == CLUSTER_FREE <==> NoneFree(v, s.table)
  {
    SearchIsComplete(v, s);
  }

  lemma SlotInArea(p: Partition, pos: DirPosition, d: Directory, j: nat, k: nat, at: nat)
    requires p.Valid() && IsDirectory(p, d) && SlotAt(p.v, d, j, pos, k)
    requires at == BYTES_PER_READ * (p.v.ClusterToSector(pos.cluster) + pos.sector) + SLOT * pos.offset
    ensures SLOT * (k + 1) <= |Area(p, d)| && at + SLOT <= |p.store| && at - SLOT * pos.offset < |p.store|
    ensures Area(p, d)[SLOT * k..SLOT * k + SLOT] == p.store[at..at + SLOT]
  {
    hide Partition.Tracked, Clusters, Area;
    if d.Clustered? {
      SlotInCluster(p, pos, d.chain, j, k, at);
    } else {
      SlotInRoot(p, pos, d, j, k, at);
    }
  }

  lemma SlotInCluster(p: Partition, pos: DirPosition, ch: Chain, j: nat, k: nat, at: nat)
    requires p.Valid() && IsChain(p.v, p.table, ch) && SlotAt(p.v, Clustered(ch), j, pos, k)
    requires at == BYTES_PER_READ * (p.v.ClusterToSector(pos.cluster) + pos.sector) + SLOT * pos.offset
    ensures SLOT * (k + 1) <= |Area(p, Clustered(ch))| && at + SLOT <= |p.store| && at - SLOT * pos.offset < |p.store|
    ensures Area(p, Clustered(ch))[SLOT * k..SLOT * k + SLOT] == p.store[at..at + SLOT]
  {
    hide Partition.Tracked, Clusters, IsChain;
    var o, b := BYTES_PER_READ * pos.sector + SLOT * pos.offset, p.v.BytesPerCluster();
    NextInChain(p.v, p.table, ch, j);
    ChainSized(p, ch);
    SectorAddress(p.v, pos.cluster, pos.sector);
    InsideCluster(p.v, pos);
    ImagePart(p.clusters, ch, b, j, o, SLOT);
    ClusterRead(p.v, p.store, pos.cluster, o, SLOT);
  }

  lemma InsideCluster(v: Volume, pos: DirPosition)
    requires pos.offset < 16 && pos.sector < v.sectorsPerCluster
    ensures BYTES_PER_READ * pos.sector + SLOT * pos.offset + SLOT <= v.BytesPerCluster()
  {
  }

  lemma SlotInRoot(p: Partition, pos: DirPosition, d: Directory, j: nat, k: nat, at: nat)
    requires p.Valid() && d.FixedRoot? && SlotAt(p.v, d, j, pos, k)
    requires at == BYTES_PER_READ * (p.v.ClusterToSector(pos.cluster) + pos.sector) + SLOT * pos.offset
    ensures SLOT * (k + 1) <= |Area(p, d)| && at + SLOT <= |p.store| && at - SLOT * pos.offset < |p.store|
    ensures Area(p, d)[SLOT * k..SLOT * k + SLOT] == p.store[at..at + SLOT]
  {
    hide Partition.Tracked, Clusters, FatOk;
    SliceOfSlice(p.store, BYTES_PER_READ * p.v.rootDirStart, BYTES_PER_READ * (p.v.dataStart - p.v.rootDirStart), SLOT * k, SLOT);
  }

  /** Reading at a position gives the slot it names. */
  method ReadSlot(p: Partition, pos: DirPosition, ghost d: Directory, ghost j: nat, ghost k: nat) returns (s: seq<byte>)
    requires p.Valid() && IsDirectory(p, d) && SlotAt(p.v, d, j, pos, k)
    modifies p`history
    ensures p.Valid() && IsDirectory(p, d) && Area(p, d) == old(Area(p, d))
    ensures SLOT * (k + 1) <= |Area(p, d)| && s == Area(p, d)[SLOT * k..SLOT * k + SLOT]
  {
    hide Partition.Tracked, Clusters, AllSized;
    ghost var at := BYTES_PER_READ * (p.v.ClusterToSector(pos.cluster) + pos.sector) + SLOT * pos.offset;
    p.Shape();
    SlotInArea(p, pos, d, j, k, at);
    assert pos.offset < 16;
    s := p.ReadPartialSector(p.v.ClusterToSector(pos.cluster) + pos.sector, pos.offset * SLOT, SLOT);
  }
}
