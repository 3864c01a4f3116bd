/** The fixed layout of a FAT volume: where the table and the clusters lie on the disc. */
module Geometry {
  import opened Arith
  import opened Bytes

  const BYTES_PER_READ := 512

  const CLUSTER_FREE := 0
  const CLUSTER_FIRST := 2
  const CLUSTER_EOF := 0x0FFFFFFF

  const CLUSTERS_PER_FAT12 := 4085
  const CLUSTERS_PER_FAT16 := 65525

  datatype FsType = Fat12 | Fat16 | Fat32

  /** The volume type follows from the number of clusters alone. */
  function FilesysType(lastCluster: nat): FsType {
    if lastCluster < CLUSTERS_PER_FAT12 then Fat12
    else if lastCluster < CLUSTERS_PER_FAT16 then Fat16
    else Fat32
  }

  datatype Volume = Volume(fatStart: nat, lastCluster: nat, sectorsPerCluster: nat,
                           rootDirStart: nat, dataStart: nat)
  {
    function Type(): FsType { FilesysType(lastCluster) }

    function BytesPerCluster(): nat { BYTES_PER_READ * sectorsPerCluster }

    function ClusterToSector(cluster: nat): nat {
      if cluster >= 2 then (cluster - 2) * sectorsPerCluster + dataStart else rootDirStart
    }

    /** The first of the bytes that hold the table entry of `cluster`. */
    function EntryAddress(cluster: nat): nat {
      BYTES_PER_READ * fatStart + match Type()
        case Fat12 => cluster * 3 / 2
        case Fat16 => cluster * 2
        case Fat32 => cluster * 4
    }

    function EntryBytes(): nat {
      match Type() case Fat12 => 2 case Fat16 => 2 case Fat32 => 4
    }

    /** The first byte of a data cluster. */
    function ClusterAddress(cluster: nat): nat
      requires cluster >= 2
    {
      BYTES_PER_READ * dataStart + (cluster - 2) * BytesPerCluster()
    }

    /** The table, with one entry more than the clusters in use, lies before the data; every cluster lies on the disc. */
    predicate Ok() {
      && 2 <= lastCluster < 0x0FFFFFF7
      && 1 <= sectorsPerCluster
      && EntryAddress(lastCluster + 1) + EntryBytes() <= BYTES_PER_READ * dataStart
    }

    function DiscSize(): nat
      requires Ok()
    {
      ClusterAddress(lastCluster + 1)
    }
  }

  /** Cluster 2 is the first of the data area, and the others follow it without a gap. */
  lemma ClustersFollow(v: Volume, c: nat)
    requires c >= 2
    ensures v.ClusterToSector(2) == v.dataStart && v.ClusterToSector(c + 1) == v.ClusterToSector(c) + v.sectorsPerCluster
    ensures v.ClusterToSector(0) == v.ClusterToSector(1) == v.rootDirStart
    ensures v.BytesPerCluster() == 512 * v.sectorsPerCluster
  {
    assert (c - 1) * v.sectorsPerCluster == (c - 2) * v.sectorsPerCluster + v.sectorsPerCluster;
  }

  /** Sector `s` of a cluster starts at the cluster's address plus 512 s. */
  lemma SectorAddress(v: Volume, cluster: nat, s: nat)
    requires cluster >= 2
    ensures BYTES_PER_READ * (v.ClusterToSector(cluster) + s) == v.ClusterAddress(cluster) + BYTES_PER_READ * s
  {
    var k, q := cluster - 2, v.sectorsPerCluster;
    assert 512 * (k * q) == k * (512 * q);
  }

  /** A cluster ends where the next one starts, so clusters do not overlap and all lie on the disc. */
  lemma ClustersApart(v: Volume, c: nat, d: nat)
    requires 2 <= c < d
    ensures v.ClusterAddress(c) + v.BytesPerCluster() <= v.ClusterAddress(d)
    ensures v.ClusterAddress(c) >= BYTES_PER_READ * v.dataStart
  {
    var b := v.BytesPerCluster();
    MulMono(c - 1, d - 2, b);
    assert (c - 1) * b == (c - 2) * b + b;
  }

  lemma EntryFits(v: Volume, c: nat)
    requires v.Ok() && c <= v.lastCluster + 1
    ensures v.EntryAddress(c) + v.EntryBytes() <= BYTES_PER_READ * v.dataStart
  {
  }
}
