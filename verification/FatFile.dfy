/**
 * An open file: reading, writing, seeking, extending and truncating a byte file that lies in a chain of
 * clusters, by parts of sectors, whole sectors and whole clusters.
 */
module FatFile {
  import opened Arith
  import opened Bytes
  import opened Geometry
  import opened FlatDisc
  import opened Chains
  import opened FileImage
  import opened FileSteps
  import opened FatPartition

  class FileStruct {
    const partition: Partition
    var filesize: nat
    var startCluster: nat
    var currentPosition: nat
    var rwPosition: Position
    var appendPosition: Position
    var read: bool
    var write: bool
    var append: bool
    var inUse: bool

    function V(): Volume { partition.v }
    function B(): nat { partition.v.BytesPerCluster() }

    /** Opening an existing file that has clusters. */
    constructor (p: Partition, start: nat, size: nat, forReading: bool, forWriting: bool, forAppending: bool, ghost ch: Chain)
      requires p.Valid() && IsChain(p.v, p.table, ch) && ch[0] == start
      modifies p`history
      ensures p.Valid() && partition == p && filesize == size && startCluster == start && currentPosition == 0
      ensures read == forReading && write == forWriting && append == forAppending && inUse
      ensures At(p.v, ch, 0, rwPosition, 0)
      ensures appendPosition.cluster == Last(ch)
      ensures var b := p.v.BytesPerCluster();
        appendPosition.sector == if size > 0 && size % b == 0 then p.v.sectorsPerCluster else size % b / BYTES_PER_READ
      ensures appendPosition.byte == if size > 0 && size % p.v.BytesPerCluster() == 0 then 0 else size % BYTES_PER_READ
    {
      partition := p;
      filesize := size;
      startCluster := start;
      currentPosition := 0;
      rwPosition := Position(start, 0, 0);
      read, write, append, inUse := forReading, forWriting, forAppending, true;
      new;
      var last := p.LastCluster(start, ch, 0);
      appendPosition := Position(last, size % B() / BYTES_PER_READ, size % BYTES_PER_READ);
      if size > 0 && size % B() == 0 {
        appendPosition := appendPosition.(sector := p.v.sectorsPerCluster, byte := 0);
      }
    }

    // ---- steps of writing ----

    /** The position lies behind the first byte of its cluster. */
    static predicate Inside(pos: Position) { pos.sector > 0 || pos.byte > 0 }

    /** The data fit into the rest of a sector of the file without filling it. */
    predicate InSector(pos: Position, data: seq<byte>) {
      data != [] && pos.sector < V().sectorsPerCluster && pos.byte + |data| < BYTES_PER_READ
    }

    function SectorOf(pos: Position): nat { V().ClusterToSector(pos.cluster) + pos.sector }

    /** The one access of a write within a sector. */
    function SmallWrite(pos: Position, data: seq<byte>): seq<Access> { [Access(CachedWrite(SectorOf(pos), pos.byte, data), [])] }

    /** How much of n bytes goes into the sector that is begun, if any. */
    static function HeadLength(byte: nat, n: nat): nat
      requires byte < BYTES_PER_READ
    {
      if byte == 0 && n >= BYTES_PER_READ then 0 else if n < BYTES_PER_READ - byte then n else BYTES_PER_READ - byte
    }

    /** How many zeros go behind n bytes: to the end of the last sector, if the file ends there and the sector is new. */
    static function RestLength(byte: nat, n: nat, appending: bool): nat
      requires byte < BYTES_PER_READ
    {
      Padding(n - HeadLength(byte, n), appending)
    }

    static function Padding(left: nat, appending: bool): nat {
      if appending && left % BYTES_PER_READ > 0 then BYTES_PER_READ - left % BYTES_PER_READ else 0
    }

    /** Where nothing is written nothing is filled up. */
    static lemma SameRest(byte: nat, n: nat, a: bool, b: bool)
      requires byte < BYTES_PER_READ && (n > 0 ==> a == b)
      ensures RestLength(byte, n, a) == RestLength(byte, n, b)
    {
    }

    /** Whole sectors written in between do not matter. */
    static lemma SamePadding(n: nat, a: nat, b: nat, appending: bool)
      requires a <= b <= n && (b - a) % BYTES_PER_READ == 0
      ensures Padding(n - b, appending) == Padding(n - a, appending)
    {
      assert (n - a) % BYTES_PER_READ == (n - b) % BYTES_PER_READ;
    }

    /** Moves to the cluster after the one just filled, allocating it if the chain ends there. */
    method Advance(pos: Position, ghost o: Origin, ghost ch: Chain, ghost j: nat, ghost d: seq<byte>)
      returns (pos': Position, ok: bool, ghost ch': Chain)
      requires partition.Valid() && InProgress(V(), o, partition.Fat(), partition.clusters, ch, d)
      requires j < |ch| && pos.cluster == ch[j] && pos.byte == 0 && o.start + |d| == Offset(j + 1, B())
      modifies partition
      ensures partition.Valid() && partition.clusters == old(partition.clusters)
      ensures InProgress(V(), o, partition.Fat(), partition.clusters, ch', d)
      ensures ok ==> At(V(), ch', j + 1, pos', o.start + |d|) && pos'.sector == 0
      ensures !ok ==> ch' == ch && Filled(V(), partition.table, ch, o.start + |d|)
      ensures partition.directs == old(partition.directs)
    {
      hide InProgress, Partition.Valid;
      partition.Shape();
      ProgressFacts(V(), o, partition.Fat(), partition.clusters, ch, d);
      ch' := ch;
      pos' := pos.(sector := 0);
      NextInChain(V(), partition.table, ch, j);
      var next := partition.NextCluster(pos.cluster);
      if next == CLUSTER_EOF || next == CLUSTER_FREE {
        ProgressGrow(V(), o, partition.Fat(), partition.clusters, ch, d);
        next := partition.LinkFreeCluster(pos.cluster);
        ch' := if next == CLUSTER_FREE then ch else ch + [next];
      }
      if next == CLUSTER_FREE {
        ok := false;
      } else {
        ok := true;
        pos' := pos'.(cluster := next);
      }
    }

    /** Whole sectors stored at the place reached. */
    method PutSectors(cluster: nat, sector: nat, count: nat, chunk: seq<byte>, ghost o: Origin, ghost ch: Chain, ghost j: nat, ghost d: seq<byte>)
      requires partition.Valid() && InProgress(V(), o, partition.Fat(), partition.clusters, ch, d)
      requires j < |ch| && cluster == ch[j] && o.start + |d| == Offset(j, B()) + BYTES_PER_READ * sector
      requires sector + count <= V().sectorsPerCluster && |chunk| == BYTES_PER_READ * count
      modifies partition
      ensures partition.Valid() && InProgress(V(), o, partition.Fat(), partition.clusters, ch, d + chunk)
    {
      hide InProgress, Splice, Partition.Valid;
      partition.Shape();
      ProgressWrite(V(), o, partition.Fat(), partition.clusters, ch, d, j, BYTES_PER_READ * sector, chunk);
      partition.WriteSectors(cluster, sector, count, chunk);
    }

    /** Part of a sector stored at the place reached. */
    method PutPart(pos: Position, chunk: seq<byte>, ghost o: Origin, ghost ch: Chain, ghost j: nat, ghost d: seq<byte>)
      requires partition.Valid() && InProgress(V(), o, partition.Fat(), partition.clusters, ch, d)
      requires At(V(), ch, j, pos, o.start + |d|) && pos.sector < V().sectorsPerCluster && pos.byte + |chunk| <= BYTES_PER_READ
      modifies partition
      ensures partition.Valid() && InProgress(V(), o, partition.Fat(), partition.clusters, ch, d + chunk)
      ensures partition.directs == old(partition.directs)
      ensures partition.history == old(partition.history) + SmallWrite(pos, chunk)
    {
      hide InProgress, Splice, Partition.Valid;
      partition.Shape();
      ProgressWrite(V(), o, partition.Fat(), partition.clusters, ch, d, j, BYTES_PER_READ * pos.sector + pos.byte, chunk);
      partition.WritePart(pos.cluster, pos.sector, pos.byte, chunk);
    }

    /** Part of a sector stored from its start, the rest of the sector zeroed. */
    method PutErased(pos: Position, chunk: seq<byte>, ghost o: Origin, ghost ch: Chain, ghost j: nat, ghost d: seq<byte>)
      requires partition.Valid() && InProgress(V(), o, partition.Fat(), partition.clusters, ch, d)
      requires At(V(), ch, j, pos, o.start + |d|) && pos.sector < V().sectorsPerCluster && pos.byte == 0 && |chunk| <= BYTES_PER_READ
      modifies partition
      ensures partition.Valid()
      ensures InProgress(V(), o, partition.Fat(), partition.clusters, ch, d + (chunk + Zeros(BYTES_PER_READ - |chunk|)))
      ensures partition.directs == old(partition.directs)
    {
      hide InProgress, Splice, Partition.Valid;
      partition.Shape();
      ProgressWrite(V(), o, partition.Fat(), partition.clusters, ch, d, j, BYTES_PER_READ * pos.sector, chunk + Zeros(BYTES_PER_READ - |chunk|));
      partition.EraseWritePart(pos.cluster, pos.sector, chunk);
    }

    /** The part of a sector up to its end, unless the whole sector is to be written. */
    method WriteHead(pos: Position, data: seq<byte>, ghost o: Origin, ghost ch: Chain, ghost j: nat)
      returns (pos': Position, done: nat)
      requires partition.Valid() && InProgress(V(), o, partition.Fat(), partition.clusters, ch, [])
      requires At(V(), ch, j, pos, o.start) && pos.sector < V().sectorsPerCluster
      modifies partition
      ensures partition.Valid() && done <= |data|
      ensures done == HeadLength(pos.byte, |data|)
      ensures InProgress(V(), o, partition.Fat(), partition.clusters, ch, data[..done])
      ensures At(V(), ch, j, pos', o.start + done)
      ensures pos'.byte == 0 || done == |data|
      ensures done > 0 ==> Inside(pos')
      ensures partition.directs == old(partition.directs)
      ensures InSector(pos, data) ==> done == |data| && partition.history == old(partition.history) + SmallWrite(pos, data)
    {
      hide InProgress, Partition.Valid;
      partition.Shape();
      pos' := pos;
      done := 0;
      var n := BYTES_PER_READ - pos.byte;
      if n > |data| {
        n := |data|;
      }
      if n < BYTES_PER_READ {
        TakeRest(data[..n], 0, []);
        assert n == |data| ==> data[..n] == data;
        PutPart(pos, data[..n], o, ch, j, []);
        done := n;
        pos' := pos'.(byte := pos.byte + n);
        if pos'.byte >= BYTES_PER_READ {
          pos' := pos'.(byte := 0, sector := pos.sector + 1);
        }
      } else {
        assert data[..0] == [];
      }
    }

    /** Whole sectors up to the end of the cluster. */
    method WriteRun(pos: Position, data: seq<byte>, done: nat, ghost o: Origin, ghost ch: Chain, ghost j: nat)
      returns (pos': Position, done': nat)
      requires partition.Valid() && done <= |data|
      requires InProgress(V(), o, partition.Fat(), partition.clusters, ch, data[..done])
      requires At(V(), ch, j, pos, o.start + done) && (pos.byte == 0 || done == |data|)
      modifies partition
      ensures partition.Valid() && done <= done' <= |data|
      ensures (done' - done) % BYTES_PER_READ == 0
      ensures InProgress(V(), o, partition.Fat(), partition.clusters, ch, data[..done'])
      ensures At(V(), ch, j, pos', o.start + done') && (pos'.byte == 0 || done' == |data|)
      ensures pos'.sector == V().sectorsPerCluster || |data| - done' < BYTES_PER_READ
      ensures if done' == done then pos' == pos else Inside(pos')
      ensures |data| - done < BYTES_PER_READ ==> partition.directs == old(partition.directs)
      ensures done == |data| ==> partition.history == old(partition.history)
    {
      hide InProgress, Filled, Partition.Valid;
      partition.Shape();
      pos', done' := pos, done;
      var remain := |data| - done;
      var n := if remain > (V().sectorsPerCluster - pos.sector) * BYTES_PER_READ
               then V().sectorsPerCluster - pos.sector else remain / BYTES_PER_READ;
      if n > 0 {
        done' := done + BYTES_PER_READ * n;
        TakeMore(data, done, done');
        PutSectors(pos.cluster, pos.sector, n, data[done..done'], o, ch, j, data[..done]);
        pos' := pos.(sector := pos.sector + n);
      }
    }

    /** Whole clusters, each found or allocated in turn. */
    method WriteClusters(pos: Position, data: seq<byte>, done: nat, ghost o: Origin, ghost ch: Chain, ghost j: nat)
      returns (pos': Position, done': nat, ok: bool, ghost ch': Chain, ghost j': nat)
      requires partition.Valid() && done <= |data|
      requires InProgress(V(), o, partition.Fat(), partition.clusters, ch, data[..done])
      requires At(V(), ch, j, pos, o.start + done)
      requires |data| - done >= BYTES_PER_READ ==> pos.sector == 0 && pos.byte == 0
      modifies partition
      ensures partition.Valid() && done <= done' <= |data|
      ensures (done' - done) % BYTES_PER_READ == 0
      ensures InProgress(V(), o, partition.Fat(), partition.clusters, ch', data[..done'])
      ensures !ok ==> done' < |data| && Filled(V(), partition.table, ch', o.start + done')
      ensures ok ==> At(V(), ch', j', pos', o.start + done') && |data| - done' < B()
      ensures ok && done' == done ==> pos' == pos
      ensures ok && done < done' < |data| ==> pos'.sector == 0 && pos'.byte == 0
      ensures ok && done < done' == |data| ==> Inside(pos')
      ensures |data| - done < BYTES_PER_READ ==> partition.directs == old(partition.directs)
      ensures done == |data| ==> partition.history == old(partition.history)
    {
      hide InProgress, Filled, Partition.Valid;
      partition.Shape();
      pos', done', ok, ch', j' := pos, done, true, ch, j;
      while |data| - done' >= B() && ok
        invariant partition.Valid() && done <= done' <= |data| && (done' - done) % BYTES_PER_READ == 0
        invariant InProgress(V(), o, partition.Fat(), partition.clusters, ch', data[..done'])
        invariant !ok ==> done' < |data| && Filled(V(), partition.table, ch', o.start + done')
        invariant ok ==> At(V(), ch', j', pos', o.start + done')
        invariant ok && done' < |data| && |data| - done' >= BYTES_PER_READ ==> pos'.sector == 0 && pos'.byte == 0
        invariant ok && done < done' == |data| ==> Inside(pos')
        invariant if done' == done then partition.directs == old(partition.directs) else |data| - done >= B()
        invariant done' == done && ok ==> partition.history == old(partition.history)
        invariant ok && done' == done ==> pos' == pos
        invariant ok && done < done' < |data| ==> pos'.sector == 0 && pos'.byte == 0
        decreases |data| - done', ok
      {
        pos', done', ok, ch', j' := WriteCluster(pos', data, done', o, ch', j');
      }
    }

    /** One whole cluster, and the move to the next one if there is more to write. */
    method WriteCluster(pos: Position, data: seq<byte>, done: nat, ghost o: Origin, ghost ch: Chain, ghost j: nat)
      returns (pos': Position, done': nat, ok: bool, ghost ch': Chain, ghost j': nat)
      requires partition.Valid() && done + B() <= |data|
      requires InProgress(V(), o, partition.Fat(), partition.clusters, ch, data[..done])
      requires At(V(), ch, j, pos, o.start + done) && pos.sector == 0 && pos.byte == 0
      modifies partition
      ensures partition.Valid() && done' == done + B()
      ensures InProgress(V(), o, partition.Fat(), partition.clusters, ch', data[..done'])
      ensures !ok ==> done' < |data| && Filled(V(), partition.table, ch', o.start + done')
      ensures ok ==> At(V(), ch', j', pos', o.start + done')
      ensures ok && done' < |data| ==> pos'.sector == 0 && pos'.byte == 0
      ensures ok && done' == |data| ==> Inside(pos')
    {
      hide InProgress, Filled, Partition.Valid;
      partition.Shape();
      pos', ok, ch', j' := pos, true, ch, j;
      done' := done + B();
      TakeMore(data, done, done');
      PutSectors(pos.cluster, 0, V().sectorsPerCluster, data[done..done'], o, ch, j, data[..done]);
      if |data| - done' > 0 {
        pos', ok, ch' := Advance(pos, o, ch, j, data[..done']);
        j' := j + 1;
      } else {
        pos' := pos.(sector := V().sectorsPerCluster);
      }
    }

    /** The remaining whole sectors, at the start of a cluster. */
    method WriteTailSectors(pos: Position, data: seq<byte>, done: nat, ghost o: Origin, ghost ch: Chain, ghost j: nat)
      returns (pos': Position, done': nat)
      requires partition.Valid() && done <= |data| && |data| - done < B()
      requires InProgress(V(), o, partition.Fat(), partition.clusters, ch, data[..done])
      requires At(V(), ch, j, pos, o.start + done) && (pos.byte == 0 || done == |data|)
      requires |data| - done >= BYTES_PER_READ ==> pos.sector == 0
      requires done < |data| ==> pos.sector < V().sectorsPerCluster
      modifies partition
      ensures partition.Valid() && done <= done' <= |data| && |data| - done' < BYTES_PER_READ
      ensures (done' - done) % BYTES_PER_READ == 0
      ensures InProgress(V(), o, partition.Fat(), partition.clusters, ch, data[..done'])
      ensures At(V(), ch, j, pos', o.start + done') && (pos'.byte == 0 || done' == |data|)
      ensures done' < |data| ==> pos'.sector < V().sectorsPerCluster
      ensures if done' == done then pos' == pos else Inside(pos')
      ensures |data| - done < BYTES_PER_READ ==> partition.directs == old(partition.directs)
      ensures done == |data| ==> partition.history == old(partition.history)
    {
      hide InProgress, Filled, Partition.Valid;
      partition.Shape();
      pos', done' := pos, done;
      var n := (|data| - done) / BYTES_PER_READ;
      if n > 0 {
        done' := done + BYTES_PER_READ * n;
        TakeMore(data, done, done');
        PutSectors(pos.cluster, 0, n, data[done..done'], o, ch, j, data[..done]);
        pos' := pos.(sector := pos.sector + n);
      }
    }

    /** The last part of a sector; past the old end of the file the rest of the sector is zeroed. */
    method WriteLast(pos: Position, data: seq<byte>, done: nat, appending: bool, ghost o: Origin, ghost ch: Chain, ghost j: nat)
      returns (pos': Position, ghost rest: seq<byte>)
      requires partition.Valid() && done <= |data| && |data| - done < BYTES_PER_READ
      requires InProgress(V(), o, partition.Fat(), partition.clusters, ch, data[..done])
      requires At(V(), ch, j, pos, o.start + done) && (pos.byte == 0 || done == |data|)
      requires done < |data| ==> pos.sector < V().sectorsPerCluster
      modifies partition
      ensures partition.Valid()
      ensures InProgress(V(), o, partition.Fat(), partition.clusters, ch, data + rest)
      ensures At(V(), ch, j, pos', o.start + |data|) && (rest != [] ==> appending)
      ensures rest == [] || (pos'.byte > 0 && rest == Zeros(BYTES_PER_READ - pos'.byte))
      ensures |rest| == if appending && done < |data| then BYTES_PER_READ - (|data| - done) else 0
      ensures Snug(V(), o.chain, ch, o.start + |data|)
      ensures if done == |data| then pos' == pos else Inside(pos')
      ensures partition.directs == old(partition.directs)
      ensures done == |data| ==> partition.history == old(partition.history)
    {
      hide InProgress, Snug, Partition.Valid;
      partition.Shape();
      ProgressSnug(V(), o, partition.Fat(), partition.clusters, ch, data[..done], o.start + |data|);
      rest := [];
      TakeRest(data, done, rest);
      if |data| - done > 0 {
        pos' := pos.(byte := pos.byte + (|data| - done));
        if appending {
          rest := Zeros(BYTES_PER_READ - (|data| - done));
          TakeRest(data, done, rest);
          PutErased(pos, data[done..], o, ch, j, data[..done]);
        } else {
          PutPart(pos, data[done..], o, ch, j, data[..done]);
        }
      } else {
        pos' := pos;
        assert data[..done] == data;
      }
    }

    lemma TransferStarts(pos: Position, o: Origin, j: nat)
      requires partition.Valid() && Safe(V(), o.fat, o.chain) && At(V(), o.chain, j, pos, o.start)
      requires o.fat == partition.Fat() && o.clusters == partition.clusters
      ensures InProgress(V(), o, o.fat, o.clusters, o.chain, []) && InProgress(V(), o, o.fat, o.clusters, o.chain, Zeros(0))
    {
      hide InProgress, Partition.Tracked, Clusters;
      AtInside(V(), o.chain, j, pos, o.start);
      ProgressStarts(V(), o);
      assert Zeros(0) == [];
    }

    /** Writing from a position on; `done` bytes get stored, all of them unless the disc is full. */
    method WriteBytes(pos: Position, data: seq<byte>, appending: bool, ghost o: Origin, ghost j: nat)
      returns (pos': Position, done: nat, ok: bool, ghost ch': Chain, ghost j': nat, ghost rest: seq<byte>)
      requires partition.Valid() && Safe(V(), partition.Fat(), o.chain) && At(V(), o.chain, j, pos, o.start)
      requires o.fat == partition.Fat() && o.clusters == partition.clusters
      modifies partition
      ensures partition.Valid() && done <= |data|
      ensures InProgress(V(), o, partition.Fat(), partition.clusters, ch', data[..done] + rest)
      ensures Snug(V(), o.chain, ch', o.start + done)
      ensures rest != [] ==> appending && done == |data|
      ensures rest == Zeros(|rest|) && |rest| < BYTES_PER_READ
      ensures |rest| == if ok then RestLength(pos.byte, |data|, appending) else 0
      ensures ok ==> done == |data| && At(V(), ch', j', pos', o.start + done) && (data != [] ==> Inside(pos'))
      ensures !ok ==> (done < |data| || data == []) && Filled(V(), partition.table, ch', o.start + done)
      ensures |data| < BYTES_PER_READ ==> partition.directs == old(partition.directs)
      ensures InSector(pos, data) ==> partition.history == old(partition.history) + SmallWrite(pos, data)
    {
      hide InProgress, Snug, Filled, Safe, Partition.Valid;
      partition.Shape();
      TransferStarts(pos, o, j);
      TakeRest(data[..0], 0, []);
      rest := [];
      pos', ok, ch', j' := pos, true, o.chain, j;
      if pos.sector >= V().sectorsPerCluster {
        pos', ok, ch' := Advance(pos, o, o.chain, j, []);
        j' := j + 1;
      }
      if ok {
        pos', done, ok, ch', j', rest := WriteFrom(pos', data, appending, o, ch', j');
      } else {
        done := 0;
        ProgressFacts(V(), o, partition.Fat(), partition.clusters, ch', []);
      }
    }

    /** What is left once the whole clusters are written. */
    method WriteEnd(pos: Position, data: seq<byte>, done: nat, appending: bool, ghost o: Origin, ghost ch: Chain, ghost j: nat)
      returns (pos': Position, ghost rest: seq<byte>)
      requires partition.Valid() && done <= |data| && |data| - done < B()
      requires InProgress(V(), o, partition.Fat(), partition.clusters, ch, data[..done])
      requires At(V(), ch, j, pos, o.start + done) && (pos.byte == 0 || done == |data|)
      requires |data| - done >= BYTES_PER_READ ==> pos.sector == 0
      requires done < |data| ==> pos.sector < V().sectorsPerCluster
      modifies partition
      ensures partition.Valid() && InProgress(V(), o, partition.Fat(), partition.clusters, ch, data + rest)
      ensures At(V(), ch, j, pos', o.start + |data|) && (rest != [] ==> appending)
      ensures rest == Zeros(|rest|) && |rest| < BYTES_PER_READ
      ensures |rest| == Padding(|data| - done, appending)
      ensures Snug(V(), o.chain, ch, o.start + |data|)
      ensures if done == |data| then pos' == pos else Inside(pos')
      ensures |data| - done < BYTES_PER_READ ==> partition.directs == old(partition.directs)
      ensures done == |data| ==> partition.history == old(partition.history)
    {
      hide InProgress, Snug, At, Partition.Valid;
      var done';
      pos', done' := WriteTailSectors(pos, data, done, o, ch, j);
      pos', rest := WriteLast(pos', data, done', appending, o, ch, j);
    }

    /** What follows the first cluster. */
    method WriteOn(pos: Position, data: seq<byte>, done: nat, appending: bool, ghost o: Origin, ghost ch: Chain, ghost j: nat)
      returns (pos': Position, done': nat, ok: bool, ghost ch': Chain, ghost j': nat, ghost rest: seq<byte>)
      requires partition.Valid() && done <= |data|
      requires InProgress(V(), o, partition.Fat(), partition.clusters, ch, data[..done])
      requires At(V(), ch, j, pos, o.start + done) && (pos.byte == 0 || done == |data|)
      requires |data| - done >= BYTES_PER_READ ==> pos.sector == 0
      requires done < |data| ==> pos.sector < V().sectorsPerCluster
      modifies partition
      ensures partition.Valid() && done' <= |data|
      ensures InProgress(V(), o, partition.Fat(), partition.clusters, ch', data[..done'] + rest)
      ensures Snug(V(), o.chain, ch', o.start + done')
      ensures rest != [] ==> appending && done' == |data|
      ensures rest == Zeros(|rest|) && |rest| < BYTES_PER_READ
      ensures |rest| == if ok then Padding(|data| - done, appending) else 0
      ensures ok ==> done' == |data| && At(V(), ch', j', pos', o.start + done')
      ensures ok ==> if done == |data| then pos' == pos else Inside(pos')
      ensures !ok ==> done' < |data| && Filled(V(), partition.table, ch', o.start + done')
      ensures |data| - done < BYTES_PER_READ ==> partition.directs == old(partition.directs)
      ensures done == |data| ==> ok && partition.history == old(partition.history)
    {
      hide InProgress, Splice, Snug, Filled, Padding, Partition.Valid;
      partition.Shape();
      rest := [];
      pos', done', ok, ch', j' := WriteClusters(pos, data, done, o, ch, j);
      if ok {
        SamePadding(|data|, done, done', appending);
        pos', rest := WriteEnd(pos', data, done', appending, o, ch', j');
        done' := |data|;
        assert data[..done'] == data;
      } else {
        TakeRest(data[..done'], 0, []);
        ProgressFacts(V(), o, partition.Fat(), partition.clusters, ch', data[..done']);
      }
    }

    /** All data, in order, from a place inside a cluster. */
    method WriteFrom(pos: Position, data: seq<byte>, appending: bool, ghost o: Origin, ghost ch: Chain, ghost j: nat)
      returns (pos': Position, done: nat, ok: bool, ghost ch': Chain, ghost j': nat, ghost rest: seq<byte>)
      requires partition.Valid() && InProgress(V(), o, partition.Fat(), partition.clusters, ch, [])
      requires At(V(), ch, j, pos, o.start) && pos.sector < V().sectorsPerCluster
      modifies partition
      ensures partition.Valid() && done <= |data|
      ensures InProgress(V(), o, partition.Fat(), partition.clusters, ch', data[..done] + rest)
      ensures Snug(V(), o.chain, ch', o.start + done)
      ensures rest != [] ==> appending && done == |data|
      ensures rest == Zeros(|rest|) && |rest| < BYTES_PER_READ
      ensures |rest| == if ok then RestLength(pos.byte, |data|, appending) else 0
      ensures ok ==> done == |data| && At(V(), ch', j', pos', o.start + done) && (data != [] ==> Inside(pos'))
      ensures !ok ==> (done < |data| || data == []) && Filled(V(), partition.table, ch', o.start + done)
      ensures |data| < BYTES_PER_READ ==> partition.directs == old(partition.directs)
      ensures InSector(pos, data) ==> partition.history == old(partition.history) + SmallWrite(pos, data)
    {
      hide InProgress, Splice, Snug, Filled, InSector, SmallWrite, HeadLength, Padding, Partition.Valid;
      partition.Shape();
      rest := [];
      pos', done, ok, ch', j' := WriteFirstCluster(pos, data, o, ch, j);
      if ok {
        SamePadding(|data|, HeadLength(pos.byte, |data|), done, appending);
        pos', done, ok, ch', j', rest := WriteOn(pos', data, done, appending, o, ch', j');
      } else {
        TakeRest(data[..done], 0, []);
        ProgressFacts(V(), o, partition.Fat(), partition.clusters, ch', data[..done]);
      }
    }

    /** To the end of the sector, to the end of the cluster, and on to the next cluster if there is more to write. */
    method WriteFirstCluster(pos: Position, data: seq<byte>, ghost o: Origin, ghost ch: Chain, ghost j: nat)
      returns (pos': Position, done: nat, ok: bool, ghost ch': Chain, ghost j': nat)
      requires partition.Valid() && InProgress(V(), o, partition.Fat(), partition.clusters, ch, [])
      requires At(V(), ch, j, pos, o.start) && pos.sector < V().sectorsPerCluster
      modifies partition
      ensures partition.Valid() && done <= |data|
      ensures HeadLength(pos.byte, |data|) <= done && (done - HeadLength(pos.byte, |data|)) % BYTES_PER_READ == 0
      ensures InProgress(V(), o, partition.Fat(), partition.clusters, ch', data[..done])
      ensures !ok ==> done < |data| && Filled(V(), partition.table, ch', o.start + done)
      ensures ok ==> At(V(), ch', j', pos', o.start + done) && (pos'.byte == 0 || done == |data|)
      ensures ok && done < |data| ==> pos'.sector < V().sectorsPerCluster
      ensures ok && |data| - done >= BYTES_PER_READ ==> pos'.sector == 0
      ensures ok && done == |data| > 0 ==> Inside(pos')
      ensures |data| < BYTES_PER_READ ==> partition.directs == old(partition.directs)
      ensures InSector(pos, data) ==> ok && done == |data| && partition.history == old(partition.history) + SmallWrite(pos, data)
    {
      hide InProgress, Filled, Partition.Valid;
      partition.Shape();
      ok, ch', j' := true, ch, j;
      pos', done := WriteHead(pos, data, o, ch, j);
      pos', done := WriteRun(pos', data, done, o, ch, j);
      if pos'.sector >= V().sectorsPerCluster && |data| - done > 0 {
        pos', ok, ch' := Advance(pos', o, ch, j, data[..done]);
        j' := j + 1;
      }
    }

    // ---- extending ----

    /** Whole zero sectors up to less than a sector from the end; false when the disc is full. */
    method ZeroSectors(pos: Position, remain: nat, ghost o: Origin, ghost ch: Chain, ghost j: nat, ghost z: nat)
      returns (pos': Position, remain': nat, ok: bool, ghost ch': Chain, ghost j': nat, ghost z': nat)
      requires partition.Valid() && InProgress(V(), o, partition.Fat(), partition.clusters, ch, Zeros(z))
      requires At(V(), ch, j, pos, o.start + z) && pos.byte == 0
      modifies partition
      ensures partition.Valid() && z' + remain' == z + remain
      ensures InProgress(V(), o, partition.Fat(), partition.clusters, ch', Zeros(z'))
      ensures ok ==> remain' < BYTES_PER_READ && At(V(), ch', j', pos', o.start + z') && pos'.byte == 0
      ensures !ok ==> remain' > 0 && Filled(V(), partition.table, ch', o.start + z')
      ensures remain < BYTES_PER_READ ==> partition.directs == old(partition.directs)
    {
      hide InProgress, Filled, Partition.Valid;
      partition.Shape();
      pos', remain', ok, ch', j', z' := pos, remain, true, ch, j, z;
      while remain' >= BYTES_PER_READ
        invariant partition.Valid() && z' + remain' == z + remain
        invariant InProgress(V(), o, partition.Fat(), partition.clusters, ch', Zeros(z'))
        invariant At(V(), ch', j', pos', o.start + z') && pos'.byte == 0
        invariant if z' == z then partition.directs == old(partition.directs) else remain >= BYTES_PER_READ
      {
        if pos'.sector >= V().sectorsPerCluster {
          pos', ok, ch' := Advance(pos', o, ch', j', Zeros(z'));
          if !ok {
            return;
          }
          j' := j' + 1;
        }
        PutSectors(pos'.cluster, pos'.sector, 1, Zeros(BYTES_PER_READ), o, ch', j', Zeros(z'));
        ZerosSum(z', BYTES_PER_READ);
        z' := z' + BYTES_PER_READ;
        remain' := remain' - BYTES_PER_READ;
        pos' := pos'.(sector := pos'.sector + 1);
      }
    }

    /** Zeros from a position on, ending at a place where a byte can be read or written. */
    method WriteZeros(pos: Position, count: nat, ghost o: Origin, ghost j: nat)
      returns (pos': Position, ok: bool, ghost ch': Chain, ghost j': nat, ghost z: nat)
      requires partition.Valid() && Safe(V(), partition.Fat(), o.chain)
      requires At(V(), o.chain, j, pos, o.start) && pos.sector < V().sectorsPerCluster
      requires o.fat == partition.Fat() && o.clusters == partition.clusters
      modifies partition
      ensures partition.Valid() && z <= count
      ensures InProgress(V(), o, partition.Fat(), partition.clusters, ch', Zeros(z))
      ensures ok ==> z == count && At(V(), ch', j', pos', o.start + count) && pos'.sector < V().sectorsPerCluster
      ensures !ok ==> Filled(V(), partition.table, ch', o.start + z)
      ensures count < BYTES_PER_READ ==> partition.directs == old(partition.directs)
    {
      hide InProgress, Filled, Safe, Partition.Valid;
      partition.Shape();
      TransferStarts(pos, o, j);
      pos', ok, ch', j', z := pos, true, o.chain, j, 0;
      var remain := count;
      if remain + pos'.byte < BYTES_PER_READ {
        ZerosSum(0, remain);
        PutPart(pos', Zeros(remain), o, ch', j', Zeros(0));
        z := remain;
        pos' := pos'.(byte := pos'.byte + remain);
        return;
      }
      if pos'.byte > 0 {
        pos', remain, z := ZeroHead(pos', remain, o, ch', j');
      }
      pos', remain, ok, ch', j', z := ZeroSectors(pos', remain, o, ch', j', z);
      if ok {
        pos', ok, ch', j', z := ZeroRest(pos', remain, o, ch', j', z);
      }
    }

    /** On to the next cluster if this one is full, and the zeros that do not fill a sector. */
    method ZeroRest(pos: Position, remain: nat, ghost o: Origin, ghost ch: Chain, ghost j: nat, ghost z: nat)
      returns (pos': Position, ok: bool, ghost ch': Chain, ghost j': nat, ghost z': nat)
      requires partition.Valid() && InProgress(V(), o, partition.Fat(), partition.clusters, ch, Zeros(z))
      requires remain < BYTES_PER_READ && At(V(), ch, j, pos, o.start + z) && pos.byte == 0
      modifies partition
      ensures partition.Valid() && z' <= z + remain
      ensures InProgress(V(), o, partition.Fat(), partition.clusters, ch', Zeros(z'))
      ensures ok ==> z' == z + remain && At(V(), ch', j', pos', o.start + z') && pos'.sector < V().sectorsPerCluster
      ensures !ok ==> Filled(V(), partition.table, ch', o.start + z')
      ensures partition.directs == old(partition.directs)
    {
      hide InProgress, Filled, Partition.Valid;
      partition.Shape();
      pos', ok, ch', j', z' := pos, true, ch, j, z;
      if pos'.sector >= V().sectorsPerCluster {
        pos', ok, ch' := Advance(pos', o, ch', j', Zeros(z));
        if !ok {
          return;
        }
        j' := j' + 1;
      }
      if remain > 0 {
        ZerosSum(z, remain);
        PutPart(pos', Zeros(remain), o, ch', j', Zeros(z));
        z' := z + remain;
        pos' := pos'.(byte := remain);
      }
    }

    method ZeroHead(pos: Position, remain: nat, ghost o: Origin, ghost ch: Chain, ghost j: nat)
      returns (pos': Position, remain': nat, ghost z: nat)
      requires partition.Valid() && InProgress(V(), o, partition.Fat(), partition.clusters, ch, Zeros(0))
      requires At(V(), ch, j, pos, o.start) && pos.sector < V().sectorsPerCluster
      requires remain + pos.byte >= BYTES_PER_READ
      modifies partition
      ensures partition.Valid() && z + remain' == remain
      ensures InProgress(V(), o, partition.Fat(), partition.clusters, ch, Zeros(z))
      ensures At(V(), ch, j, pos', o.start + z) && pos'.byte == 0 && z <= remain
      ensures partition.directs == old(partition.directs)
    {
      hide InProgress, Filled, Partition.Valid;
      partition.Shape();
      z := BYTES_PER_READ - pos.byte;
      ZerosSum(0, z);
      PutPart(pos, Zeros(BYTES_PER_READ - pos.byte), o, ch, j, Zeros(0));
      remain' := remain - (BYTES_PER_READ - pos.byte);
      pos' := pos.(byte := 0, sector := pos.sector + 1);
    }

    // ---- the file ----

    /** The file's chain holds at least as many bytes as the file has. */
    ghost predicate Sound(ch: Chain)
      reads this, partition
    {
      && partition.Valid() && Safe(V(), partition.Fat(), ch) && ch[0] == startCluster
      && filesize <= Offset(|ch|, B()) && filesize < 0x1_0000_0000
    }

    /** The bytes of the file. */
    ghost function Contents(ch: Chain): seq<byte>
      reads this, partition
    {
      Content(partition.clusters, ch, B(), filesize)
    }

    /** All bytes of the file's clusters, those behind its end included. */
    ghost function Whole(ch: Chain): seq<byte>
      reads this, partition
    {
      Content(partition.clusters, ch, B(), Offset(|ch|, B()))
    }

    /** No cluster outside the chain has changed. */
    twostate predicate SparesOthers(ch: Chain)
      reads partition
    {
      |partition.clusters| == |old(partition.clusters)| &&
      forall c :: 0 <= c < |partition.clusters| && c !in ch ==> partition.clusters[c] == old(partition.clusters)[c]
    }

    /** The state before a transfer that starts at `place`. */
    ghost function Before(ch: Chain, place: nat): Origin
      reads partition
    {
      Origin(partition.Fat(), partition.clusters, ch, place)
    }

    /** Where extending starts: at the remainder of the size, but in the last cluster of the chain. */
    function ExtendStart(ch: Chain): nat
      reads this
    {
      if ch == [] || B() == 0 then 0 else Offset(|ch| - 1, B()) + filesize % B()
    }

    /** The chain has one cluster more than full clusters in the file. */
    predicate OneMore(ch: Chain)
      reads this
    {
      B() > 0 && |ch| == filesize / B() + 1
    }

    /** The zeros are put behind the last byte exactly when the chain has one cluster more than full ones. */
    lemma ExtendStartIsEnd(ch: Chain)
      requires Sound(ch)
      ensures V().Ok() && B() > 0 && ch != [] && ch[0] == startCluster && |Whole(ch)| == Offset(|ch|, B())
      ensures ExtendStart(ch) == filesize <==> OneMore(ch)
      ensures Offset(|ch| - 1, B()) <= ExtendStart(ch) < Offset(|ch|, B())
      ensures |ch| == filesize / B() ==> ExtendStart(ch) == filesize - B()
    {
      ContentLength(partition.clusters, ch, B(), Offset(|ch|, B()));
      StartIsSize(V(), |ch|, filesize);
      PartsOf(V(), filesize);
      SectorAndByte(V(), filesize);
    }

    /**
     * Makes the file as long as the current position. As many zeros are stored as the file is to grow by, from
     * ExtendStart on; that is behind its last byte exactly when the chain has one cluster more than full clusters in
     * the file, and only then does the position agree with the new size. Extending succeeds exactly when enough
     * clusters are free; otherwise the zeros reach to the end of the chain, which has taken every free cluster.
     */
    method Extend(ghost ch: Chain) returns (ok: bool, ghost ch': Chain, ghost j: nat, ghost z: nat)
      requires Sound(ch) && filesize < currentPosition < 0x1_0000_0000
      modifies this`filesize, this`rwPosition, partition
      ensures partition.Valid() && Grown(V(), old(partition.Fat()), ch, partition.Fat(), ch') && SparesOthers(ch')
      ensures Safe(V(), partition.Fat(), ch') && ch' != [] && ch'[0] == startCluster && z <= currentPosition - old(filesize)
      ensures InProgress(V(), old(Before(ch, ExtendStart(ch))), partition.Fat(), partition.clusters, ch', Zeros(z))
      ensures ok ==> filesize == currentPosition && z == currentPosition - old(filesize)
      ensures ok ==> At(V(), ch', j, rwPosition, old(ExtendStart(ch)) + z) && rwPosition.sector < V().sectorsPerCluster
      ensures !ok ==> filesize == old(filesize) && rwPosition == old(rwPosition)
      ensures !ok ==> Filled(V(), partition.table, ch', old(ExtendStart(ch)) + z)
      ensures ok <==> (old(ExtendStart(ch)) + (currentPosition - old(filesize))) / B() < |ch| + FreeCount(V(), old(partition.table))
      ensures |ch'| == if ok then (old(ExtendStart(ch)) + z) / B() + 1 else |ch| + FreeCount(V(), old(partition.table))
      ensures ok ==> (Agree(V(), ch', rwPosition, currentPosition) <==> old(OneMore(ch)))
      ensures WrittenOver(V(), old(Before(ch, ExtendStart(ch))), partition.clusters, ch', Zeros(z))
      ensures old(OneMore(ch)) ==> Sound(ch') && old(filesize) + z <= Offset(|ch'|, B())
      ensures old(OneMore(ch)) ==> Content(partition.clusters, ch', B(), old(filesize) + z) == old(Contents(ch)) + Zeros(z)
      ensures old(OneMore(ch)) ==> Contents(ch') == old(Contents(ch)) + if ok then Zeros(z) else []
      ensures currentPosition - old(filesize) < BYTES_PER_READ ==> partition.directs == old(partition.directs)
    {
      hide WrittenOver, InProgress, Content, Grown, At, Snug, Overwrite, Safe, Agree, Filled, Partition.Valid;
      ExtendStartIsEnd(ch);
      ghost var size, start, o := filesize, ExtendStart(ch), Before(ch, ExtendStart(ch));
      var pos;
      pos, ok, ch', j, z := ExtendChain(ch);
      ExtendedFacts(o, ch', Zeros(z));
      GrownExactly(V(), o, partition.Fat(), partition.clusters, ch', z, currentPosition - filesize, ok, j, pos);
      if ok {
        AgreeIffAt(V(), ch', j, pos, start + z, currentPosition);
        rwPosition := pos;
        filesize := currentPosition;
      }
      WholeAfter(V(), o, partition.Fat(), partition.clusters, ch', Zeros(z));
      if start == size {
        ContentAfterZeros(V(), o, partition.Fat(), partition.clusters, ch', z);
        TakeRest(Content(partition.clusters, ch', B(), size), 0, []);
      }
    }

    /** The zeros, and where they end; the file's own fields stay. */
    method ExtendChain(ghost ch: Chain) returns (pos: Position, ok: bool, ghost ch': Chain, ghost j: nat, ghost z: nat)
      requires Sound(ch) && filesize < currentPosition < 0x1_0000_0000
      modifies partition
      ensures partition.Valid() && z <= currentPosition - filesize
      ensures InProgress(V(), old(Before(ch, ExtendStart(ch))), partition.Fat(), partition.clusters, ch', Zeros(z))
      ensures ok ==> z == currentPosition - filesize && At(V(), ch', j, pos, ExtendStart(ch) + z) && pos.sector < V().sectorsPerCluster
      ensures !ok ==> Filled(V(), partition.table, ch', ExtendStart(ch) + z)
      ensures currentPosition - filesize < BYTES_PER_READ ==> partition.directs == old(partition.directs)
    {
      hide InProgress, Grown, At, Filled, Partition.Valid;
      ghost var o := Before(ch, ExtendStart(ch));
      var last := partition.LastCluster(startCluster, ch, 0);
      pos := Position(last, filesize % B() / BYTES_PER_READ, filesize % BYTES_PER_READ);
      ExtendStartAt(ch, pos);
      pos, ok, ch', j, z := WriteZeros(pos, currentPosition - filesize, o, |ch| - 1);
    }

    lemma ExtendStartAt(ch: Chain, pos: Position)
      requires Sound(ch) && pos == Position(Last(ch), filesize % B() / BYTES_PER_READ, filesize % BYTES_PER_READ)
      ensures At(V(), ch, |ch| - 1, pos, ExtendStart(ch)) && pos.sector < V().sectorsPerCluster
    {
      PartsOf(V(), filesize);
      SectorAndByte(V(), filesize);
    }

    /** What a transfer leaves of the chain and of the clusters. */
    lemma ExtendedFacts(o: Origin, ch': Chain, d: seq<byte>)
      requires partition.Valid() && InProgress(V(), o, partition.Fat(), partition.clusters, ch', d)
      ensures FatOk(V(), o.fat) && Grown(V(), o.fat, o.chain, partition.Fat(), ch') && Safe(V(), partition.Fat(), ch')
      ensures o.chain <= ch' && ch' != [] && o.chain != [] && ch'[0] == o.chain[0] && Distinct(ch')
      ensures |partition.clusters| == |o.clusters|
      ensures forall c :: 0 <= c < |partition.clusters| && c !in ch' ==> partition.clusters[c] == o.clusters[c]
    {
      ProgressFacts(V(), o, partition.Fat(), partition.clusters, ch', d);
    }

    // ---- writing ----

    /** Where writing starts. */
    function Place(): nat
      reads this
    {
      if append then filesize else currentPosition
    }

    /** The place in the chain where the bytes go; behind the end, what extending leaves. */
    function WritePlace(ch: Chain): nat
      reads this
    {
      if append || currentPosition <= filesize then Place() else ExtendStart(ch) + (currentPosition - filesize)
    }

    /** A write that is not behind the end, or for which extending puts its zeros behind the last byte. */
    predicate Fits(ch: Chain)
      reads this
    {
      append || currentPosition <= filesize || OneMore(ch)
    }

    /** The end of the transfer can be told in 32 bits. */
    predicate At32(data: seq<byte>)
      reads this
    {
      Place() + |data| < 0x1_0000_0000
    }

    ghost function AgreeCluster(ch: Chain, pos: Position, p: nat): (j: nat)
      requires V().Ok() && Agree(V(), ch, pos, p)
      ensures At(V(), ch, j, pos, p)
    {
      if Normal(V(), ch, pos, p) then
        NormalIsAt(V(), ch, pos, p);
        p / B()
      else
        EndFormIsAt(V(), ch, pos, p);
        p / B() - 1
    }

    /** The byte within a sector can be read off the offset. */
    lemma ByteOfPlace(ch: Chain, j: nat, pos: Position, p: nat)
      requires At(V(), ch, j, pos, p)
      ensures pos.byte == p % BYTES_PER_READ
    {
      hide Volume.BytesPerCluster;
      OffsetIs(j, B());
      OffsetSectors(j);
      DivMod(p, BYTES_PER_READ, j * V().sectorsPerCluster + pos.sector, pos.byte);
    }

    lemma OffsetSectors(j: nat)
      ensures j * B() == BYTES_PER_READ * (j * V().sectorsPerCluster)
    {
    }

    /** Stores bytes at the stored position, which stands for offset `place`, and moves it behind them. */
    method WriteRaw(data: seq<byte>, ghost ch: Chain, ghost j: nat, ghost place: nat)
      returns (r: nat, ghost ok: bool, ghost ch': Chain, ghost j': nat, ghost rest: seq<byte>)
      requires partition.Valid() && Safe(V(), partition.Fat(), ch)
      requires At(V(), ch, j, if append then appendPosition else rwPosition, place)
      modifies this`filesize, this`rwPosition, this`appendPosition, this`currentPosition, partition
      ensures partition.Valid() && r <= |data|
      ensures InProgress(V(), old(Before(ch, place)), partition.Fat(), partition.clusters, ch', data[..r] + rest)
      ensures Snug(V(), ch, ch', place + r)
      ensures rest == Zeros(|rest|) && |rest| < BYTES_PER_READ
      ensures |rest| == if ok then RestLength(place % BYTES_PER_READ, |data|, append || |data| + old(currentPosition) > old(filesize)) else 0
      ensures rest != [] ==> r == |data| && (append || |data| + old(currentPosition) > old(filesize))
      ensures ok ==> r == |data| && At(V(), ch', j', if append then appendPosition else rwPosition, place + r)
      ensures ok && data != [] ==> Inside(if append then appendPosition else rwPosition)
      ensures !ok ==> (r < |data| || data == []) && Filled(V(), partition.table, ch', place + r)
      ensures append ==> filesize == old(filesize) + r && currentPosition == old(currentPosition) && rwPosition == old(rwPosition)
      ensures !append ==> currentPosition == old(currentPosition) + r && appendPosition == old(appendPosition)
      ensures !append ==> filesize == Larger(old(filesize), currentPosition)
      ensures |data| < BYTES_PER_READ ==> partition.directs == old(partition.directs)
      ensures var pos := old(if append then appendPosition else rwPosition);
        InSector(pos, data) ==> partition.history == old(partition.history) + SmallWrite(pos, data)
    {
      hide RestLength, InProgress, Snug, Safe, At, Filled, Partition.Valid;
      ghost var o := Before(ch, place);
      ByteOfPlace(ch, j, if append then appendPosition else rwPosition, place);
      var position := if append then appendPosition else rwPosition;
      var appending := append || |data| + currentPosition > filesize;
      position, r, ok, ch', j', rest := WriteBytes(position, data, appending, o, j);
      if append {
        appendPosition := position;
        filesize := filesize + r;
      } else {
        rwPosition := position;
        currentPosition := currentPosition + r;
        if filesize < currentPosition {
          filesize := currentPosition;
        }
      }
    }

    /**
     * Writes at the current position, or at the end of a file opened for appending. The position must lie
     * within the file. The bytes counted are exactly those stored: all of them, or as many as there is room
     * for in the chain and in the free clusters. A write that ends with a full cluster leaves the position at
     * the end of that cluster, every other one in normal form.
     */
    method WriteHere(data: seq<byte>, ghost ch: Chain) returns (r: nat, ghost ok: bool, ghost ch': Chain, ghost rest: seq<byte>)
      requires Sound(ch) && At32(data)
      requires append ==> Agree(V(), ch, appendPosition, filesize)
      requires !append ==> currentPosition <= filesize && Agree(V(), ch, rwPosition, currentPosition)
      modifies this`filesize, this`rwPosition, this`appendPosition, this`currentPosition, partition
      ensures Sound(ch') && Grown(V(), old(partition.Fat()), ch, partition.Fat(), ch') && SparesOthers(ch')
      ensures Snug(V(), ch, ch', old(Place()) + r)
      ensures r == Smaller(|data|, Room(V(), old(partition.Fat()), ch, old(Place()))) && |old(Contents(ch))| == old(filesize)
      ensures Contents(ch') == Overwrite(old(Contents(ch)), old(Place()), data[..r])
      ensures filesize == Larger(old(filesize), old(Place()) + r)
      ensures ok ==> r == |data|
      ensures !ok ==> (r < |data| || data == []) && Filled(V(), partition.table, ch', old(Place()) + r)
      ensures append ==> currentPosition == old(currentPosition) && rwPosition == old(rwPosition)
      ensures append && ok ==> Agree(V(), ch', appendPosition, filesize)
      ensures !append ==> currentPosition == old(currentPosition) + r && appendPosition == old(appendPosition)
      ensures !append && ok ==> Agree(V(), ch', rwPosition, currentPosition)
      ensures !append && ok && data != [] ==> (Normal(V(), ch', rwPosition, currentPosition) <==> currentPosition % B() != 0)
      ensures rest == Zeros(|rest|) && |rest| < BYTES_PER_READ
      ensures |rest| == if ok then RestLength(old(Place()) % BYTES_PER_READ, |data|, append || |data| + old(currentPosition) > old(filesize)) else 0
      ensures InProgress(V(), old(Before(ch, Place())), partition.Fat(), partition.clusters, ch', data[..r] + rest)
      ensures |data| < BYTES_PER_READ ==> partition.directs == old(partition.directs)
      ensures !append && InSector(old(rwPosition), data) ==> partition.history == old(partition.history) + SmallWrite(old(rwPosition), data)
    {
      hide RestLength, InProgress, Content, Grown, At, Snug, Overwrite, Safe, Agree, Normal, EndForm, Filled, Room, Partition.Valid;
      SoundLength(ch);
      ghost var place, size := Place(), filesize;
      ghost var o := Before(ch, place);
      ghost var j := AgreeCluster(ch, if append then appendPosition else rwPosition, place);
      ghost var j';
      r, ok, ch', j', rest := WriteRaw(data, ch, j, place);
      WrittenFacts(o, ch', data[..r], rest, size);
      CountedExactly(V(), o, partition.Fat(), ch', r, |data|, ok, j', if append then appendPosition else rwPosition);
      if ok {
        PositionAfter(ch', j', if append then appendPosition else rwPosition, place + r, data != []);
      }
    }

    /** A position that stands for an offset agrees with it, in normal form unless a cluster has just been filled. */
    lemma PositionAfter(ch: Chain, j: nat, pos: Position, p: nat, inside: bool)
      requires V().Ok() && Distinct(ch) && At(V(), ch, j, pos, p) && (inside ==> Inside(pos))
      ensures Agree(V(), ch, pos, p)
      ensures inside ==> (Normal(V(), ch, pos, p) <==> p % B() != 0)
    {
      hide At, Normal, EndForm;
      AgreeIffAt(V(), ch, j, pos, p, p);
      if inside { InsideIsNormal(V(), ch, j, pos, p); }
    }

    lemma WrittenFacts(o: Origin, ch': Chain, d: seq<byte>, rest: seq<byte>, size: nat)
      requires partition.Valid() && InProgress(V(), o, partition.Fat(), partition.clusters, ch', d + rest)
      requires o.start <= size <= Offset(|o.chain|, B()) && (rest != [] ==> o.start + |d| >= size)
      ensures FatOk(V(), o.fat) && Grown(V(), o.fat, o.chain, partition.Fat(), ch') && Safe(V(), partition.Fat(), ch')
      ensures ch' != [] && ch'[0] == o.chain[0] && Distinct(ch')
      ensures |partition.clusters| == |o.clusters| && forall c :: 0 <= c < |partition.clusters| && c !in ch' ==> partition.clusters[c] == o.clusters[c]
      ensures |Content(o.clusters, o.chain, B(), size)| == size && Larger(size, o.start + |d|) <= Offset(|ch'|, B())
      ensures Content(partition.clusters, ch', B(), Larger(size, o.start + |d|)) == Overwrite(Content(o.clusters, o.chain, B(), size), o.start, d)
    {
      hide InProgress, Content, Grown;
      ProgressFacts(V(), o, partition.Fat(), partition.clusters, ch', d + rest);
      ContentAfter(V(), o, partition.Fat(), partition.clusters, ch', d, rest, size, Larger(size, o.start + |d|));
    }

    /** What a file of these bytes reads when it is made at least `size` long. */
    static function Padded(s: seq<byte>, size: nat): (r: seq<byte>)
      ensures |r| == if |s| < size then size else |s|
    {
      if |s| < size then s + Zeros(size - |s|) else s
    }

    static lemma PaddedOverwrite(s: seq<byte>, n: nat, d: seq<byte>)
      ensures Overwrite(s, |s|, Zeros(n) + d) == Overwrite(Padded(s, |s| + n), |s| + n, d)
    {
    }

    /**
     * Writing anywhere: a position behind the end first extends the file with zeros. -1 is returned when
     * the file is not open for writing. If there is no room even for the zeros, nothing is written. Where extending
     * would not start behind the last byte, the zeros and the data are still stored in one piece, from ExtendStart on.
     */
    method Write(data: seq<byte>, ghost ch: Chain)
      returns (r: int, ghost extended: bool, ghost ok: bool, ghost ch': Chain, ghost rest: seq<byte>)
      requires Sound(ch) && At32(data)
      requires append ==> Agree(V(), ch, appendPosition, filesize)
      requires !append && currentPosition <= filesize ==> Agree(V(), ch, rwPosition, currentPosition)
      modifies this`filesize, this`rwPosition, this`appendPosition, this`currentPosition, partition
      ensures partition.Valid() && Safe(V(), partition.Fat(), ch') && ch' != [] && ch'[0] == startCluster
      ensures Grown(V(), old(partition.Fat()), ch, partition.Fat(), ch') && SparesOthers(ch')
      ensures old(Fits(ch)) ==> Sound(ch')
      ensures r == -1 <==> !inUse || !write
      ensures !extended ==> !ok && -1 <= r <= 0
      ensures !extended && r == 0 ==> DiscFull(V(), partition.table) && old(WritePlace(ch)) / B() >= |ch| + FreeCount(V(), old(partition.table))
      ensures !extended && old(Fits(ch)) ==> Contents(ch') == old(Contents(ch))
      ensures extended ==> r == Smaller(|data|, Room(V(), old(partition.Fat()), ch, old(WritePlace(ch)))) >= 0
      ensures |old(Contents(ch))| == old(filesize)
      ensures extended && old(Fits(ch)) ==> Contents(ch') == Overwrite(Padded(old(Contents(ch)), old(Place())), old(Place()), data[..r])
      ensures extended && !old(Fits(ch)) ==>
                InProgress(V(), old(Before(ch, ExtendStart(ch))), partition.Fat(), partition.clusters, ch',
                           Zeros(old(currentPosition - filesize)) + data[..r] + rest)
      ensures extended ==> filesize == Larger(old(filesize), old(Place()) + r)
      ensures rest == Zeros(|rest|) && |rest| < BYTES_PER_READ
      ensures |rest| == if ok then RestLength(old(WritePlace(ch)) % BYTES_PER_READ, |data|, append || |data| + old(currentPosition) > old(filesize)) else 0
      ensures extended && old(append || currentPosition <= filesize) ==>
                InProgress(V(), old(Before(ch, Place())), partition.Fat(), partition.clusters, ch', data[..r] + rest)
      ensures ok ==> r == |data|
      ensures ok && append ==> Agree(V(), ch', appendPosition, filesize)
      ensures ok && !append && old(Fits(ch)) ==> Agree(V(), ch', rwPosition, currentPosition)
      ensures ok && !append && old(Fits(ch)) && data != [] ==> (Normal(V(), ch', rwPosition, currentPosition) <==> currentPosition % B() != 0)
      ensures extended && !ok ==> (r < |data| || data == []) && Filled(V(), partition.table, ch', old(WritePlace(ch)) + r)
      ensures extended ==> Snug(V(), ch, ch', old(WritePlace(ch)) + r)
      ensures currentPosition == old(currentPosition) + if append || r < 0 then 0 else r
      ensures |data| < BYTES_PER_READ && old(append || currentPosition < filesize + BYTES_PER_READ) ==> partition.directs == old(partition.directs)
      ensures r >= 0 && !append && old(currentPosition) <= old(filesize) && InSector(old(rwPosition), data) ==>
                partition.history == old(partition.history) + SmallWrite(old(rwPosition), data)
    {
      hide RestLength, Content, Grown, At, Agree, Normal, Safe, DiscFull, Filled, Room, InProgress, Snug, Overwrite,
        Partition.Valid;
      SoundLength(ch);
      rest := [];
      if !inUse || !write {
        NotGrown(V(), partition.Fat(), ch);
        r, extended, ok, ch' := -1, false, false, ch;
      } else if !append && currentPosition > filesize {
        r, extended, ok, ch', rest := WriteBeyond(data, ch);
      } else {
        extended := true;
        r, ok, ch', rest := WriteHere(data, ch);
        SoundLength(ch');
      }
    }

    /** Writing behind the end: zeros up to the position, then the data. */
    method WriteBeyond(data: seq<byte>, ghost ch: Chain)
      returns (r: nat, ghost extended: bool, ghost ok: bool, ghost ch': Chain, ghost rest: seq<byte>)
      requires Sound(ch) && At32(data) && !append && currentPosition > filesize
      modifies this`filesize, this`rwPosition, this`appendPosition, this`currentPosition, partition
      ensures partition.Valid() && Safe(V(), partition.Fat(), ch') && ch' != [] && ch'[0] == startCluster
      ensures Grown(V(), old(partition.Fat()), ch, partition.Fat(), ch') && SparesOthers(ch')
      ensures !extended ==> !ok && r == 0 && DiscFull(V(), partition.table) && filesize == old(filesize)
      ensures !extended ==> old(WritePlace(ch)) / B() >= |ch| + FreeCount(V(), old(partition.table))
      ensures extended ==> r == Smaller(|data|, Room(V(), old(partition.Fat()), ch, old(WritePlace(ch))))
      ensures extended ==>
                InProgress(V(), old(Before(ch, ExtendStart(ch))), partition.Fat(), partition.clusters, ch',
                           Zeros(old(currentPosition - filesize)) + data[..r] + rest)
      ensures extended ==> filesize == currentPosition
      ensures rest == Zeros(|rest|) && |rest| < BYTES_PER_READ && r <= |data|
      ensures |rest| == if ok then RestLength(old(WritePlace(ch)) % BYTES_PER_READ, |data|, true) else 0
      ensures |old(Contents(ch))| == old(filesize)
      ensures old(OneMore(ch)) ==> Sound(ch')
      ensures !extended && old(OneMore(ch)) ==> Contents(ch') == old(Contents(ch))
      ensures extended && old(OneMore(ch)) ==> Contents(ch') == Overwrite(Padded(old(Contents(ch)), old(Place())), old(Place()), data[..r])
      ensures ok ==> r == |data|
      ensures ok && old(OneMore(ch)) ==> Agree(V(), ch', rwPosition, currentPosition)
      ensures ok && old(OneMore(ch)) && data != [] ==> (Normal(V(), ch', rwPosition, currentPosition) <==> currentPosition % B() != 0)
      ensures extended && !ok ==> (r < |data| || data == []) && Filled(V(), partition.table, ch', old(WritePlace(ch)) + r)
      ensures extended ==> Snug(V(), ch, ch', old(WritePlace(ch)) + r)
      ensures currentPosition == old(currentPosition) + r && appendPosition == old(appendPosition)
      ensures |data| < BYTES_PER_READ && old(currentPosition - filesize) < BYTES_PER_READ ==> partition.directs == old(partition.directs)
    {
      hide RestLength, WrittenOver, Content, Grown, At, Agree, Normal, Safe, DiscFull, InProgress, Snug, Overwrite, Room,
        Partition.Valid;
      SoundLength(ch);
      ExtendStartIsEnd(ch);
      ghost var size, place, o := filesize, WritePlace(ch), Before(ch, ExtendStart(ch));
      ghost var n, one := currentPosition - filesize, OneMore(ch);
      rest := [];
      ghost var j, z;
      var longer;
      longer, ch', j, z := Extend(ch);
      extended, ok, r := longer, false, 0;
      if longer {
        r, ok, ch', rest := WriteBehind(data, o, ch', j, place, n, size);
        if one { PaddedOverwrite(Content(o.clusters, o.chain, B(), size), n, data[..r]); }
      }
    }

    /** The data behind the zeros just stored. */
    method WriteBehind(data: seq<byte>, ghost o: Origin, ghost ch: Chain, ghost j: nat, ghost place: nat, ghost n: nat, ghost size: nat)
      returns (r: nat, ghost ok: bool, ghost ch': Chain, ghost rest: seq<byte>)
      requires partition.Valid() && Safe(V(), partition.Fat(), ch) && !append && currentPosition == filesize
      requires InProgress(V(), o, partition.Fat(), partition.clusters, ch, Zeros(n)) && place == o.start + n
      requires At(V(), ch, j, rwPosition, place)
      requires size <= Offset(|o.chain|, B()) && |Content(o.clusters, o.chain, B(), size)| == size
      modifies this`filesize, this`rwPosition, this`appendPosition, this`currentPosition, partition
      ensures partition.Valid() && r <= |data|
      ensures InProgress(V(), o, partition.Fat(), partition.clusters, ch', Zeros(n) + data[..r] + rest)
      ensures Grown(V(), o.fat, o.chain, partition.Fat(), ch') && Safe(V(), partition.Fat(), ch')
      ensures ch' != [] && o.chain != [] && ch'[0] == o.chain[0]
      ensures |partition.clusters| == |o.clusters| && forall c :: 0 <= c < |partition.clusters| && c !in ch' ==> partition.clusters[c] == o.clusters[c]
      ensures r == Smaller(|data|, Room(V(), o.fat, o.chain, place)) && Snug(V(), o.chain, ch', place + r)
      ensures o.start == size ==>
        && place + r <= Offset(|ch'|, B())
        && Content(partition.clusters, ch', B(), place + r) == Overwrite(Content(o.clusters, o.chain, B(), size), size, Zeros(n) + data[..r])
      ensures rest == Zeros(|rest|) && |rest| < BYTES_PER_READ
      ensures |rest| == if ok then RestLength(place % BYTES_PER_READ, |data|, true) else 0
      ensures ok ==> r == |data| && Agree(V(), ch', rwPosition, place + r)
      ensures ok && data != [] ==> (Normal(V(), ch', rwPosition, place + r) <==> (place + r) % B() != 0)
      ensures !ok ==> (r < |data| || data == []) && Filled(V(), partition.table, ch', place + r)
      ensures filesize == currentPosition == old(currentPosition) + r && appendPosition == old(appendPosition)
      ensures |data| < BYTES_PER_READ ==> partition.directs == old(partition.directs)
    {
      hide RestLength, Content, Grown, At, Agree, Normal, Safe, Filled, InProgress, Snug, Overwrite, Room, Partition.Valid;
      ghost var s, cl := partition.Fat(), partition.clusters;
      SameRest(place % BYTES_PER_READ, |data|, append || |data| + currentPosition > filesize, true);
      ghost var j';
      r, ok, ch', j', rest := WriteRaw(data, ch, j, place);
      BeyondFacts(o, s, cl, ch, ch', Zeros(n), data[..r], rest, size, place, |data|, ok, j', rwPosition);
      if ok {
        partition.Shape();
        PositionAfter(ch', j', rwPosition, place + r, data != []);
      }
    }

    /** What zeros and data in one piece have made of the file. */
    lemma BeyondFacts(o: Origin, s1: Fat, cl1: seq<seq<byte>>, ch1: Chain, ch': Chain, zeros: seq<byte>, d: seq<byte>, rest: seq<byte>,
                      size: nat, place: nat, n: nat, ok: bool, j: nat, pos: Position)
      requires partition.Valid() && place == o.start + |zeros| && size <= Offset(|o.chain|, B())
      requires |Content(o.clusters, o.chain, B(), size)| == size
      requires InProgress(V(), o, s1, cl1, ch1, zeros)
      requires InProgress(V(), Origin(s1, cl1, ch1, place), partition.Fat(), partition.clusters, ch', d + rest)
      requires |d| <= n && Snug(V(), ch1, ch', place + |d|)
      requires ok ==> |d| == n && At(V(), ch', j, pos, place + |d|)
      requires !ok ==> Filled(V(), partition.table, ch', place + |d|)
      ensures InProgress(V(), o, partition.Fat(), partition.clusters, ch', zeros + d + rest)
      ensures Grown(V(), o.fat, o.chain, partition.Fat(), ch') && Safe(V(), partition.Fat(), ch')
      ensures ch' != [] && o.chain != [] && ch'[0] == o.chain[0] && Distinct(ch')
      ensures |partition.clusters| == |o.clusters| && forall c :: 0 <= c < |partition.clusters| && c !in ch' ==> partition.clusters[c] == o.clusters[c]
      ensures |d| == Smaller(n, Room(V(), o.fat, o.chain, place))
      ensures Snug(V(), o.chain, ch', place + |d|)
      ensures o.start == size ==>
        && place + |d| <= Offset(|ch'|, B())
        && Content(partition.clusters, ch', B(), place + |d|) == Overwrite(Content(o.clusters, o.chain, B(), size), size, zeros + d)
    {
      hide InProgress, Content, Grown, At, Snug, Safe, Filled, Room, Overwrite, Partition.Valid;
      ProgressTwice(V(), o, s1, cl1, ch1, zeros, partition.Fat(), partition.clusters, ch', d + rest);
      assert zeros + (d + rest) == zeros + d + rest;
      ProgressFacts(V(), o, s1, cl1, ch1, zeros);
      ProgressFacts(V(), Origin(s1, cl1, ch1, place), partition.Fat(), partition.clusters, ch', d + rest);
      ProgressFacts(V(), o, partition.Fat(), partition.clusters, ch', zeros + d + rest);
      SnugTwice(V(), o.chain, ch1, ch', place, place + |d|);
      CountedExactly(V(), Origin(o.fat, o.clusters, o.chain, place), partition.Fat(), ch', |d|, n, ok, j, pos);
      if o.start == size {
        ContentAfter(V(), o, partition.Fat(), partition.clusters, ch', zeros + d, rest, size, place + |d|);
      }
    }

    lemma AgreeNormal(ch: Chain, pos: Position, p: nat)
      requires V().Ok() && Normal(V(), ch, pos, p)
      ensures Agree(V(), ch, pos, p)
    {
    }

    lemma SoundLength(ch: Chain)
      requires Sound(ch)
      ensures |Contents(ch)| == filesize && V().Ok() && B() > 0 && ch != [] && ch[0] == startCluster
    {
      ContentLength(partition.clusters, ch, B(), filesize);
    }

    // ---- reading ----

    /** The first sector behind a cluster is the first sector of the next higher cluster number. */
    lemma SectorBehind(c: nat)
      requires CLUSTER_FIRST <= c
      ensures BYTES_PER_READ * (V().ClusterToSector(c) + V().sectorsPerCluster) == V().ClusterAddress(c + 1)
    {
      SectorAddress(V(), c, V().sectorsPerCluster);
      assert (c - 1) * B() == (c - 2) * B() + B();
    }

    /**
     * The part of a sector up to its end, unless the whole sector is wanted. At the end of a cluster the
     * sector read is the one behind it on the disc, the first of the next higher cluster number.
     */
    method ReadHead(pos: Position, remain: nat, ghost ch: Chain, ghost j: nat, ghost p: nat)
      returns (pos': Position, buf: seq<byte>)
      requires partition.Valid() && Safe(V(), partition.Fat(), ch) && At(V(), ch, j, pos, p)
      modifies partition`history
      ensures partition.Valid()
      ensures |buf| <= remain && Reached(V(), ch, j, pos', p + |buf|)
      ensures pos.sector < V().sectorsPerCluster || remain >= BYTES_PER_READ ==> Got(partition.clusters, ch, B(), p, buf)
      ensures pos.sector == V().sectorsPerCluster && remain < BYTES_PER_READ ==>
                pos.cluster + 1 < |partition.clusters| && remain <= |partition.clusters[pos.cluster + 1]|
                && buf == partition.clusters[pos.cluster + 1][..remain]
      ensures |buf| == remain || (pos'.byte == 0 && |buf| < BYTES_PER_READ)
      ensures pos'.sector == V().sectorsPerCluster && pos'.byte > 0 ==> pos.sector == V().sectorsPerCluster
      ensures pos.byte == 0 && remain >= BYTES_PER_READ ==> pos' == pos && buf == [] && partition.history == old(partition.history)
    {
      hide Safe, Offset, Got, Partition.Valid;
      partition.Shape();
      AtInside(V(), ch, j, pos, p);
      GotEmpty(ch, p);
      pos', buf := pos, [];
      var n := BYTES_PER_READ - pos.byte;
      if n > remain {
        n := remain;
      }
      if n < BYTES_PER_READ {
        buf := FetchPart(pos, n, ch, j, p);
        pos' := pos'.(byte := pos.byte + n);
        if pos'.byte >= BYTES_PER_READ {
          pos' := pos'.(byte := 0, sector := pos.sector + 1);
        }
      }
    }

    method FetchPart(pos: Position, n: nat, ghost ch: Chain, ghost j: nat, ghost p: nat) returns (buf: seq<byte>)
      requires partition.Valid() && Safe(V(), partition.Fat(), ch) && At(V(), ch, j, pos, p)
      requires pos.byte + n <= BYTES_PER_READ && n < BYTES_PER_READ
      modifies partition`history
      ensures partition.Valid()
      ensures Fetched(pos, n, ch, p, buf)
    {
      hide Got, Safe, At, Partition.Tracked, Clusters, AllSized, FatOk;
      partition.Shape();
      var sector := V().ClusterToSector(pos.cluster) + pos.sector;
      FetchFacts(pos, n, ch, j, p, sector, BYTES_PER_READ * sector + pos.byte);
      buf := partition.ReadPartialSector(sector, pos.byte, n);
    }

    /** The file's bytes, or at the end of a cluster the first bytes of the next higher cluster number. */
    ghost predicate Fetched(pos: Position, n: nat, ch: Chain, p: nat, buf: seq<byte>)
      reads partition
    {
      && |buf| == n
      && (pos.sector < V().sectorsPerCluster ==> Got(partition.clusters, ch, B(), p, buf))
      && (pos.sector == V().sectorsPerCluster ==>
            pos.cluster + 1 < |partition.clusters| && n <= |partition.clusters[pos.cluster + 1]|
            && buf == partition.clusters[pos.cluster + 1][..n])
    }

    lemma FetchFacts(pos: Position, n: nat, ch: Chain, j: nat, p: nat, sector: nat, a: nat)
      requires partition.Valid() && Safe(V(), partition.Fat(), ch) && At(V(), ch, j, pos, p)
      requires pos.byte + n <= BYTES_PER_READ && n < BYTES_PER_READ
      requires sector == V().ClusterToSector(pos.cluster) + pos.sector && a == BYTES_PER_READ * sector + pos.byte
      ensures BYTES_PER_READ * sector < |partition.store| && a + n <= |partition.store|
      ensures Fetched(pos, n, ch, p, partition.store[a..a + n])
    {
      hide Got, Safe, Partition.Valid;
      if pos.sector < V().sectorsPerCluster {
        FetchInside(pos, n, ch, j, p);
      } else {
        FetchBehind(pos, n, ch, j, p);
      }
    }

    lemma FetchInside(pos: Position, n: nat, ch: Chain, j: nat, p: nat)
      requires partition.Valid() && Safe(V(), partition.Fat(), ch) && At(V(), ch, j, pos, p)
      requires pos.byte + n <= BYTES_PER_READ && pos.sector < V().sectorsPerCluster
      ensures var a := BYTES_PER_READ * (V().ClusterToSector(pos.cluster) + pos.sector) + pos.byte;
        a - pos.byte < |partition.store| && a + n <= |partition.store| && Got(partition.clusters, ch, B(), p, partition.store[a..a + n])
    {
      hide Got, Partition.Tracked, Clusters, FatOk;
      var o := BYTES_PER_READ * pos.sector + pos.byte;
      SafeImage(V(), partition.Fat(), partition.clusters, ch);
      GotPart(partition.clusters, ch, B(), j, o, n);
      SectorAddress(V(), pos.cluster, pos.sector);
      SectorOnDisc(V(), pos.cluster, pos.sector);
      ClusterRead(V(), partition.store, pos.cluster, o, n);
    }

    lemma FetchBehind(pos: Position, n: nat, ch: Chain, j: nat, p: nat)
      requires partition.Valid() && Safe(V(), partition.Fat(), ch) && At(V(), ch, j, pos, p)
      requires n < BYTES_PER_READ && pos.sector == V().sectorsPerCluster
      ensures pos.cluster + 1 < |partition.clusters| && n <= |partition.clusters[pos.cluster + 1]|
      ensures var a := BYTES_PER_READ * (V().ClusterToSector(pos.cluster) + pos.sector) + pos.byte;
        a - pos.byte < |partition.store| && a + n <= |partition.store| && partition.clusters[pos.cluster + 1][..n] == partition.store[a..a + n]
    {
      assert pos.cluster != V().lastCluster;
      SectorBehind(pos.cluster);
      SectorOnDisc(V(), pos.cluster + 1, 0);
      SectorAddress(V(), pos.cluster + 1, 0);
      ClusterRead(V(), partition.store, pos.cluster + 1, 0, n);
    }

    /** Whole sectors of one cluster. */
    method FetchSectors(cluster: nat, sector: nat, count: nat, ghost ch: Chain, ghost j: nat) returns (buf: seq<byte>)
      requires partition.Valid() && Safe(V(), partition.Fat(), ch) && j < |ch| && cluster == ch[j]
      requires sector + count <= V().sectorsPerCluster
      modifies partition`history, partition`directs
      ensures partition.Valid()
      ensures |buf| == BYTES_PER_READ * count
      ensures Got(partition.clusters, ch, B(), Offset(j, B()) + BYTES_PER_READ * sector, buf)
      ensures partition.history == old(partition.history) + DirectReads(V().ClusterToSector(cluster) + sector, buf)
    {
      hide Got, Partition.Tracked, Clusters, FatOk;
      SafeImage(V(), partition.Fat(), partition.clusters, ch);
      GotPart(partition.clusters, ch, B(), j, BYTES_PER_READ * sector, BYTES_PER_READ * count);
      buf := partition.ReadSectors(cluster, sector, count);
    }

    /** Moves to the next cluster when one is used up; at the end of the chain, only to the end of the cluster. */
    method NextForRead(pos: Position, remain: nat, ghost ch: Chain, ghost j: nat, ghost p: nat)
      returns (pos': Position, ok: bool, ghost j': nat)
      requires partition.Valid() && Safe(V(), partition.Fat(), ch)
      requires j < |ch| && pos.cluster == ch[j] && pos.byte < BYTES_PER_READ && p == Offset(j + 1, B()) + pos.byte
      requires remain > 0 || pos.byte > 0 ==> j + 1 < |ch|
      modifies partition`history
      ensures partition.Valid()
      ensures ok && At(V(), ch, j', pos', p) && pos'.byte == pos.byte
      ensures pos'.sector == 0 || (pos'.sector == V().sectorsPerCluster && remain == 0 && p == Offset(|ch|, B()))
      ensures OnlyReads(old(partition.history), partition.history)
    {
      ok := true;
      pos' := pos;
      NextInChain(V(), partition.table, ch, j);
      var next := partition.NextCluster(pos.cluster);
      if remain == 0 && next == CLUSTER_EOF {
        pos' := pos'.(sector := V().sectorsPerCluster);
        j' := j;
      } else if next == CLUSTER_FREE {
        ok := false;
      } else {
        pos' := pos'.(sector := 0, cluster := next);
        j' := j + 1;
      }
    }

    /** Whole sectors up to the end of the cluster, and the move to the next one. */
    method ReadRun(pos: Position, remain: nat, ghost ch: Chain, ghost j: nat, ghost p: nat)
      returns (pos': Position, buf: seq<byte>, ghost j': nat)
      requires partition.Valid() && Safe(V(), partition.Fat(), ch) && Reached(V(), ch, j, pos, p)
      requires p + remain <= Offset(|ch|, B()) && (pos.byte == 0 || remain == 0)
      requires pos.sector == V().sectorsPerCluster && pos.byte > 0 ==> j + 1 < |ch|
      modifies partition`history, partition`directs
      ensures partition.Valid() && (remain < BYTES_PER_READ ==> partition.directs == old(partition.directs))
      ensures |buf| <= remain && Got(partition.clusters, ch, B(), p, buf)
      ensures At(V(), ch, j', pos', p + |buf|) && (pos'.byte == 0 || |buf| == remain)
      ensures pos'.sector == V().sectorsPerCluster ==> |buf| == remain && p + |buf| == Offset(|ch|, B())
      ensures remain - |buf| >= BYTES_PER_READ ==> pos'.sector == 0
      ensures OnlyReads(old(partition.history) + DirectReads(SectorOf(pos), buf), partition.history)
      ensures remain == BYTES_PER_READ && pos.sector < V().sectorsPerCluster ==> |buf| == remain
    {
      hide Got, Safe, DirectReads, Partition.Valid;
      partition.Shape();
      j' := j;
      pos', buf := RunSectors(pos, remain, ch, j, p);
      if pos'.sector >= V().sectorsPerCluster {
        OffsetMono(j + 1, |ch|, B());
        var ok;
        pos', ok, j' := NextForRead(pos', remain - |buf|, ch, j, p + |buf|);
      }
    }

    /** As many whole sectors as are left in the cluster and in the request. */
    method RunSectors(pos: Position, remain: nat, ghost ch: Chain, ghost j: nat, ghost p: nat) returns (pos': Position, buf: seq<byte>)
      requires partition.Valid() && Safe(V(), partition.Fat(), ch) && Reached(V(), ch, j, pos, p)
      requires p + remain <= Offset(|ch|, B()) && (pos.byte == 0 || remain == 0)
      modifies partition`history, partition`directs
      ensures partition.Valid() && (remain < BYTES_PER_READ ==> partition.directs == old(partition.directs))
      ensures |buf| <= remain && Got(partition.clusters, ch, B(), p, buf)
      ensures Reached(V(), ch, j, pos', p + |buf|) && pos'.byte == pos.byte
      ensures pos'.sector == V().sectorsPerCluster || (remain - |buf| < BYTES_PER_READ && pos'.sector <= V().sectorsPerCluster)
      ensures partition.history == old(partition.history) + DirectReads(SectorOf(pos), buf)
      ensures remain == BYTES_PER_READ && pos.sector < V().sectorsPerCluster ==> |buf| == remain
      ensures remain == 0 ==> pos' == pos && buf == []
    {
      hide Got, Safe, Offset, Partition.Valid;
      partition.Shape();
      pos', buf := pos, [];
      var n := if remain > (V().sectorsPerCluster - pos.sector) * BYTES_PER_READ
               then V().sectorsPerCluster - pos.sector else remain / BYTES_PER_READ;
      if n > 0 {
        buf := FetchSectors(pos.cluster, pos.sector, n, ch, j);
        pos' := pos.(sector := pos.sector + n);
      } else {
        GotEmpty(ch, p);
      }
    }

    lemma GotEmpty(ch: Chain, p: nat)
      requires partition.Valid() && Safe(V(), partition.Fat(), ch) && p <= Offset(|ch|, B())
      ensures Got(partition.clusters, ch, B(), p, [])
    {
      SafeImage(V(), partition.Fat(), partition.clusters, ch);
    }

    /** Whole clusters. */
    method ReadClusters(pos: Position, remain: nat, ghost ch: Chain, ghost j: nat, ghost p: nat)
      returns (pos': Position, buf: seq<byte>, ghost j': nat)
      requires partition.Valid() && Safe(V(), partition.Fat(), ch) && At(V(), ch, j, pos, p)
      requires p + remain <= Offset(|ch|, B()) && (pos.byte == 0 || remain == 0)
      requires remain >= BYTES_PER_READ ==> pos.sector == 0
      requires pos.sector == V().sectorsPerCluster ==> remain == 0 && p == Offset(|ch|, B())
      modifies partition`history, partition`directs
      ensures partition.Valid() && (remain < BYTES_PER_READ ==> partition.directs == old(partition.directs))
      ensures |buf| <= remain && remain - |buf| < B() && Got(partition.clusters, ch, B(), p, buf)
      ensures At(V(), ch, j', pos', p + |buf|) && (pos'.byte == 0 || |buf| == remain)
      ensures pos'.sector == V().sectorsPerCluster ==> |buf| == remain && p + |buf| == Offset(|ch|, B())
      ensures remain - |buf| >= BYTES_PER_READ ==> pos'.sector == 0
      ensures remain == 0 ==> partition.history == old(partition.history)
    {
      hide Got, Safe, FatOk, DirectReads, Partition.Valid;
      partition.Shape();
      pos', buf, j' := pos, [], j;
      GotEmpty(ch, p);
      AtInside(V(), ch, j, pos, p);
      var ok := true;
      while remain - |buf| >= B() && ok
        invariant remain == 0 ==> partition.history == old(partition.history)
        invariant partition.Valid() && |buf| <= remain && Got(partition.clusters, ch, B(), p, buf) && ok
        invariant if buf == [] then partition.directs == old(partition.directs) else remain >= BYTES_PER_READ
        invariant At(V(), ch, j', pos', p + |buf|) && (pos'.byte == 0 || |buf| == remain)
        invariant pos'.sector == V().sectorsPerCluster ==> |buf| == remain && p + |buf| == Offset(|ch|, B())
        invariant remain - |buf| >= BYTES_PER_READ ==> pos'.sector == 0
        decreases remain - |buf|
      {
        var chunk := FetchSectors(pos'.cluster, 0, V().sectorsPerCluster, ch, j');
        GotJoin(partition.clusters, ch, B(), p, buf, chunk);
        buf := buf + chunk;
        OffsetMono(j' + 1, |ch|, B());
        pos', ok, j' := NextForRead(pos', remain - |buf|, ch, j', p + |buf|);
      }
    }

    /** The remaining whole sectors and the last part of a sector. */
    method ReadTail(pos: Position, remain: nat, ghost ch: Chain, ghost j: nat, ghost p: nat)
      returns (pos': Position, buf: seq<byte>)
      requires partition.Valid() && Safe(V(), partition.Fat(), ch) && At(V(), ch, j, pos, p)
      requires remain < B() && (pos.byte == 0 || remain == 0)
      requires remain >= BYTES_PER_READ ==> pos.sector == 0
      requires pos.sector == V().sectorsPerCluster ==> remain == 0
      modifies partition`history, partition`directs
      ensures partition.Valid() && (remain < BYTES_PER_READ ==> partition.directs == old(partition.directs))
      ensures |buf| == remain && Got(partition.clusters, ch, B(), p, buf)
      ensures At(V(), ch, j, pos', p + remain)
      ensures pos'.sector == V().sectorsPerCluster ==> pos.sector == V().sectorsPerCluster
      ensures remain == 0 ==> partition.history == old(partition.history)
    {
      hide Got, Safe, Partition.Valid;
      partition.Shape();
      pos' := pos;
      AtInside(V(), ch, j, pos, p);
      GotEmpty(ch, p);
      buf := [];
      var n := remain / BYTES_PER_READ;
      if n > 0 {
        buf := FetchSectors(pos.cluster, 0, n, ch, j);
        pos' := pos.(sector := pos.sector + n);
      }
      if remain - |buf| > 0 {
        var chunk := FetchPart(pos', remain - |buf|, ch, j, p + |buf|);
        GotJoin(partition.clusters, ch, B(), p, buf, chunk);
        buf := buf + chunk;
        pos' := pos'.(byte := pos'.byte + |chunk|);
      }
    }

    /**
     * Reads from the current position, not past the end of the file. In every case the position moves on by
     * what was read and names the next byte unless the chain ends there.
     */
    method Read(len: nat, ghost ch: Chain) returns (data: seq<byte>)
      requires Sound(ch) && len < 0x8000_0000
      requires inUse && read && currentPosition < filesize ==> currentPosition + len < 0x1_0000_0000
      requires inUse && read && currentPosition < filesize ==> Agree(V(), ch, rwPosition, currentPosition)
      modifies this`rwPosition, this`currentPosition, partition`history, partition`directs
      ensures Sound(ch) && (len < BYTES_PER_READ ==> partition.directs == old(partition.directs))
      ensures !inUse || !read || old(currentPosition) >= filesize ==>
        data == [] && currentPosition == old(currentPosition) && rwPosition == old(rwPosition)
      ensures inUse && read && old(currentPosition) < filesize ==>
        && |data| == Clip(len, old(currentPosition), filesize) && currentPosition == old(currentPosition) + |data| <= filesize
        && ReadGives(V(), partition.clusters, ch, filesize, old(rwPosition), old(currentPosition), |data|, data)
        && Agree(V(), ch, rwPosition, currentPosition)
        && (currentPosition < Offset(|ch|, B()) ==> Normal(V(), ch, rwPosition, currentPosition))
      ensures inUse && read && |data| == BYTES_PER_READ && old(rwPosition).byte == 0 && old(rwPosition).sector < V().sectorsPerCluster ==>
                OnlyReads(old(partition.history) + DirectReads(SectorOf(old(rwPosition)), data), partition.history)
    {
      hide ReadGives, Agree, Normal, Safe, Offset, Partition.Valid;
      partition.Shape();
      if !inUse || !read {
        return [];
      }
      if currentPosition >= filesize {
        return [];
      }
      var n := if (len + currentPosition) % 0x1_0000_0000 > filesize then filesize - currentPosition else len;
      var pos;
      pos, data := ReadBytes(rwPosition, n, ch, currentPosition);
      rwPosition := pos;
      currentPosition := currentPosition + n;
    }

    method ReadBytes(position: Position, n: nat, ghost ch: Chain, ghost p: nat) returns (pos: Position, data: seq<byte>)
      requires Sound(ch) && p < filesize && p + n <= filesize && Agree(V(), ch, position, p)
      modifies partition`history, partition`directs
      ensures partition.Valid() && (n < BYTES_PER_READ ==> partition.directs == old(partition.directs))
      ensures |data| == n && Agree(V(), ch, pos, p + n)
      ensures p + n < Offset(|ch|, B()) ==> Normal(V(), ch, pos, p + n)
      ensures ReadGives(V(), partition.clusters, ch, filesize, position, p, n, data)
      ensures n == BYTES_PER_READ && position.byte == 0 && position.sector < V().sectorsPerCluster ==>
                OnlyReads(old(partition.history) + DirectReads(SectorOf(position), data), partition.history)
    {
      hide Got, Content, ReadGives, Normal, EndForm, Safe, Agree, Partition.Valid;
      partition.Shape();
      BehindHead(ch, AgreeCluster(ch, position, p), position, p);
      ghost var j := AgreeCluster(ch, position, p);
      var head, rest;
      pos, head := ReadHead(position, n, ch, j, p);
      pos, rest, j := ReadRest(pos, n - |head|, ch, j, p + |head|);
      assert [] + rest == rest;
      data := head + rest;
      AtIsAgree(V(), ch, j, pos, p + n);
      ReadJoined(V(), partition.clusters, ch, filesize, position, p, n, head, rest);
    }

    /** All that follows the first part of a sector. */
    method ReadRest(position: Position, remain: nat, ghost ch: Chain, ghost at: nat, ghost p: nat)
      returns (pos: Position, data: seq<byte>, ghost j: nat)
      requires partition.Valid() && Safe(V(), partition.Fat(), ch) && Reached(V(), ch, at, position, p)
      requires p + remain <= Offset(|ch|, B()) && (position.byte == 0 || remain == 0)
      requires position.sector == V().sectorsPerCluster && position.byte > 0 ==> at + 1 < |ch|
      modifies partition`history, partition`directs
      ensures partition.Valid() && (remain < BYTES_PER_READ ==> partition.directs == old(partition.directs))
      ensures |data| == remain && Got(partition.clusters, ch, B(), p, data)
      ensures At(V(), ch, j, pos, p + remain)
      ensures pos.sector == V().sectorsPerCluster ==> p + remain == Offset(|ch|, B())
      ensures remain == BYTES_PER_READ && position.sector < V().sectorsPerCluster ==>
                OnlyReads(old(partition.history) + DirectReads(SectorOf(position), data), partition.history)
    {
      hide Got, Safe, Offset, Partition.Valid;
      partition.Shape();
      var run, whole, tail;
      pos, run, j := ReadRun(position, remain, ch, at, p);
      pos, whole, j := ReadClusters(pos, remain - |run|, ch, j, p + |run|);
      pos, tail := ReadTail(pos, remain - |run| - |whole|, ch, j, p + |run| + |whole|);
      GotJoin(partition.clusters, ch, B(), p, run, whole);
      GotJoin(partition.clusters, ch, B(), p, run + whole, tail);
      data := run + whole + tail;
    }

    /** A position at the end of a cluster and inside the file has a cluster after it. */
    lemma BehindHead(ch: Chain, j: nat, pos: Position, p: nat)
      requires Sound(ch) && p < filesize && At(V(), ch, j, pos, p)
      ensures pos.sector == V().sectorsPerCluster ==> j + 1 < |ch|
    {
      assert Offset(j + 1, B()) == Offset(j, B()) + B();
    }

    // ---- seeking ----

    /** A sum of an unsigned and a signed 32-bit number, taken as a signed one. */
    static function Int32(x: int): int {
      var y := x % 0x1_0000_0000;
      if y >= 0x8000_0000 then y - 0x1_0000_0000 else y
    }

    function Target(pos: int, dir: Whence): int
      reads this
    {
      match dir
      case Set => pos
      case Cur => Int32(currentPosition + pos)
      case End => Int32(filesize + pos)
    }

    /**
     * Moves the current position. Inside the file the stored position then names the target byte exactly when
     * it named a byte before or the walk starts at the first cluster; from the end of a cluster the forward
     * walk comes out one cluster short.
     */
    method Seek(pos: int, dir: Whence, ghost ch: Chain) returns (r: int)
      requires Sound(ch) && -0x8000_0000 <= pos < 0x8000_0000
      requires currentPosition <= Target(pos, dir) < filesize ==> Agree(V(), ch, rwPosition, currentPosition)
      modifies this`rwPosition, this`currentPosition, partition`history
      ensures Sound(ch)
      ensures !inUse || old(Target(pos, dir)) < 0 ==> r == -1 && rwPosition == old(rwPosition) && currentPosition == old(currentPosition)
      ensures inUse && old(Target(pos, dir)) >= 0 ==> r == old(Target(pos, dir)) == currentPosition
      ensures inUse && dir == Set ==> r == if pos >= 0 then pos else -1
      ensures inUse && dir == Cur ==>
                var sum := (old(currentPosition) + pos) % 0x1_0000_0000; r == if sum < 0x8000_0000 then sum else -1
      ensures inUse && dir == End ==>
                var sum := (filesize + pos) % 0x1_0000_0000; r == if sum < 0x8000_0000 then sum else -1
      ensures inUse && old(Target(pos, dir)) >= filesize ==> rwPosition == old(rwPosition)
      ensures inUse && 0 <= old(Target(pos, dir)) < filesize ==>
        (Normal(V(), ch, rwPosition, currentPosition)
         <==> currentPosition < old(currentPosition) || Normal(V(), ch, old(rwPosition), old(currentPosition)))
      ensures OnlyReads(old(partition.history), partition.history)
    {
      if !inUse {
        return -1;
      }
      var position := Target(pos, dir);
      if pos > 0 && position < 0 {
        return -1;
      }
      if position < 0 {
        return -1;
      }
      if filesize > position {
        rwPosition := SeekInside(position, ch);
      }
      currentPosition := position;
      return position;
    }

    method SeekInside(position: nat, ghost ch: Chain) returns (rw: Position)
      requires Sound(ch) && position < filesize
      requires currentPosition <= position ==> Agree(V(), ch, rwPosition, currentPosition)
      modifies partition`history
      ensures Sound(ch)
      ensures Normal(V(), ch, rw, position) <==> position < currentPosition || Normal(V(), ch, rwPosition, currentPosition)
      ensures OnlyReads(old(partition.history), partition.history)
    {
      rw := rwPosition.(sector := position % B() / BYTES_PER_READ, byte := position % BYTES_PER_READ);
      IndexInside(V(), ch, position);
      var count: nat := position / B();
      var cluster := startCluster;
      ghost var at := 0;
      if position >= currentPosition {
        var from := currentPosition / B();
        QuotientMono(V(), currentPosition, position);
        assert from <= count;
        count := count - from;
        cluster := rw.cluster;
        at := AgreeCluster(ch, rwPosition, currentPosition);
      }
      var atClusterEnd := rw.(sector := V().sectorsPerCluster, byte := 0);
      var next, left;
      cluster, next, left := partition.Walk(cluster, count, ch, at);
      if left > 0 && (write || append) {
        rw := atClusterEnd;
      }
      rw := rw.(cluster := cluster);
    }

    // ---- truncating ----

    /**
     * Cuts the file to `len` bytes, or makes it longer with zeros. Growing succeeds exactly when as many clusters are
     * free as the new size has full clusters more than the old one. The size field is set even when it fails: the
     * chain has then taken every free cluster and holds zeros behind the old end, and the new size may exceed it.
     * All this for a chain with one cluster more than full clusters in the file; for every other one the zeros go
     * where Extend puts them, and as many clusters are needed as the end of the zeros tells.
     */
    method Ftruncate(len: int, ghost ch: Chain) returns (r: int, ghost ch': Chain)
      requires Sound(ch) && partition.table[0] == CLUSTER_EOF
      modifies this`filesize, this`startCluster, this`rwPosition, this`appendPosition, this`currentPosition, partition
      ensures partition.Valid() && Safe(V(), partition.Fat(), ch') && ch' != [] && ch'[0] == startCluster
      ensures currentPosition == old(currentPosition) && |old(Contents(ch))| == old(filesize)
      ensures Refused(len) ==> r == -1 && ch' == ch && Sound(ch) && Contents(ch) == old(Contents(ch)) && filesize == old(filesize)
      ensures !Refused(len) ==> filesize == len && (r == 0 || (r == -1 && len > old(filesize) && DiscFull(V(), partition.table)))
      ensures r == 0 ==> !Refused(len)
      ensures r == 0 && (len <= old(filesize) || old(OneMore(ch))) ==> Sound(ch') && Contents(ch') == Resized(old(Contents(ch)), len)
      ensures r == -1 && old(OneMore(ch)) ==> Content(partition.clusters, ch', B(), old(filesize)) == old(Contents(ch))
      ensures !Refused(len) && len > old(filesize) && old(OneMore(ch)) ==>
                (r == 0 <==> FreeCount(V(), old(partition.table)) >= len / B() - old(filesize) / B())
      ensures !Refused(len) && len > old(filesize) ==>
                (r == 0 <==> (old(ExtendStart(ch)) + (len - old(filesize))) / B() < |ch| + FreeCount(V(), old(partition.table)))
      ensures !Refused(len) && len > old(filesize) && old(OneMore(ch)) ==>
                (filesize > Offset(|ch'|, B()) <==> FreeCount(V(), old(partition.table)) < (len - 1) / B() + 1 - |ch|)
      ensures !Refused(len) && len > old(filesize) ==>
                |ch'| == if r == 0 then (old(ExtendStart(ch)) + (len - old(filesize))) / B() + 1 else |ch| + FreeCount(V(), old(partition.table))
      ensures !Refused(len) && len > old(filesize) ==>
                var end := if r == 0 then old(ExtendStart(ch)) + (len - old(filesize)) else Offset(|ch'|, B());
                && end >= old(ExtendStart(ch))
                && WrittenOver(V(), old(Before(ch, ExtendStart(ch))), partition.clusters, ch', Zeros(end - old(ExtendStart(ch))))
      ensures r == -1 && !Refused(len) && old(OneMore(ch)) ==>
                && old(filesize) <= Offset(|ch'|, B()) <= len
                && Content(partition.clusters, ch', B(), Offset(|ch'|, B())) == old(Contents(ch)) + Zeros(Offset(|ch'|, B()) - old(filesize))
      ensures !Refused(len) && len > old(filesize) ==>
                Grown(V(), old(partition.Fat()), ch, partition.Fat(), ch') && SparesOthers(ch')
      ensures r == 0 && len > old(filesize) && append ==>
                Normal(V(), ch', appendPosition, old(ExtendStart(ch)) + (len - old(filesize)))
      ensures !Refused(len) && 0 < len < old(filesize) ==> CutState(V(), old(partition.Fat()), ch, partition.Fat(), ch', len)
      ensures !Refused(len) && 0 < len < old(filesize) && append ==> Agree(V(), ch', appendPosition, len)
      ensures !Refused(len) && len == 0 < old(filesize) ==>
                RestartState(V(), old(partition.Fat()), ch, partition.Fat(), startCluster) && ch' == [startCluster]
      ensures !Refused(len) && len == 0 < old(filesize) ==> Normal(V(), ch', rwPosition, 0) && appendPosition == Position(0, 0, 0)
      ensures Refused(len) || len <= old(filesize) ==> partition.clusters == old(partition.clusters)
      ensures Refused(len) || len == old(filesize) ==> ch' == ch && partition.Fat() == old(partition.Fat())
      ensures Refused(len) || len != 0 || old(filesize) == 0 ==> rwPosition == old(rwPosition)
      ensures !append && (Refused(len) || len != 0 || old(filesize) == 0) ==> appendPosition == old(appendPosition)
      ensures Refused(len) || len < old(filesize) + BYTES_PER_READ ==> partition.directs == old(partition.directs)
    {
      hide Content, Safe, Agree, DiscFull, CutState, RestartState, Normal, Grown, Offset, WrittenOver, Partition.Valid;
      ch' := ch;
      SoundLength(ch);
      if len < 0 {
        return -1, ch';
      }
      if len > 0xFFFF_FFFF {
        return -1, ch';
      }
      if !inUse {
        return -1, ch';
      }
      if !write {
        return -1, ch';
      }
      r := 0;
      if len > filesize {
        r, ch' := Lengthen(len, ch);
      } else if len < filesize {
        ch' := Shorten(len, ch);
      }
      filesize := len;
    }

    predicate Refused(len: int)
      reads this
    {
      len < 0 || len > 0xFFFF_FFFF || !inUse || !write
    }

    static function Resized(s: seq<byte>, len: int): seq<byte> {
      if len < 0 then s else if len <= |s| then s[..len] else s + Zeros(len - |s|)
    }

    /** The growing branch: extends from the old end and leaves the current position as it was. */
    method Lengthen(len: nat, ghost ch: Chain) returns (r: int, ghost ch': Chain)
      requires Sound(ch) && filesize < len <= 0xFFFF_FFFF
      modifies this`filesize, this`rwPosition, this`appendPosition, this`currentPosition, partition
      ensures partition.Valid() && Safe(V(), partition.Fat(), ch') && ch' != [] && ch'[0] == startCluster == old(startCluster)
      ensures currentPosition == old(currentPosition) && rwPosition == old(rwPosition)
      ensures r == 0 || r == -1
      ensures filesize == if r == 0 then len else old(filesize)
      ensures r == 0 <==> (old(ExtendStart(ch)) + (len - old(filesize))) / B() < |ch| + FreeCount(V(), old(partition.table))
      ensures |ch'| == if r == 0 then (old(ExtendStart(ch)) + (len - old(filesize))) / B() + 1
                       else |ch| + FreeCount(V(), old(partition.table))
      ensures r == -1 ==> DiscFull(V(), partition.table)
      ensures var end := if r == 0 then old(ExtendStart(ch)) + (len - old(filesize)) else Offset(|ch'|, B());
                && end >= old(ExtendStart(ch))
                && WrittenOver(V(), old(Before(ch, ExtendStart(ch))), partition.clusters, ch', Zeros(end - old(ExtendStart(ch))))
      ensures old(OneMore(ch)) ==> Sound(ch') && old(ExtendStart(ch)) == old(filesize)
      ensures old(OneMore(ch)) ==> (r == 0 <==> FreeCount(V(), old(partition.table)) >= len / B() - old(filesize) / B())
      ensures old(OneMore(ch)) ==> (len > Offset(|ch'|, B()) <==> FreeCount(V(), old(partition.table)) < (len - 1) / B() + 1 - |ch|)
      ensures r == 0 && old(OneMore(ch)) ==> Contents(ch') == old(Contents(ch)) + Zeros(len - old(filesize))
      ensures r == -1 && old(OneMore(ch)) ==> Contents(ch') == old(Contents(ch))
      ensures r == -1 && old(OneMore(ch)) ==>
                && filesize <= Offset(|ch'|, B()) <= len
                && Content(partition.clusters, ch', B(), Offset(|ch'|, B())) == old(Contents(ch)) + Zeros(Offset(|ch'|, B()) - filesize)
      ensures Grown(V(), old(partition.Fat()), ch, partition.Fat(), ch') && SparesOthers(ch')
      ensures r == 0 && append ==> Normal(V(), ch', appendPosition, old(ExtendStart(ch)) + (len - old(filesize)))
      ensures !append ==> appendPosition == old(appendPosition)
      ensures len < old(filesize) + BYTES_PER_READ ==> partition.directs == old(partition.directs)
    {
      hide Content, Grown, Agree, Normal, Safe, Overwrite, InProgress, WrittenOver, At, FreeCount, Offset, Partition.Valid;
      SoundLength(ch);
      ExtendStartIsEnd(ch);
      ghost var end, one := ExtendStart(ch) + (len - filesize), OneMore(ch);
      var savedPosition, savedOffset := rwPosition, currentPosition;
      currentPosition := len;
      r := 0;
      var ok;
      ghost var j, z;
      ok, ch', j, z := Extend(ch);
      if !ok {
        r := -1;
      } else {
        PlaceIsNormal(ch', j, rwPosition, end);
      }
      if one { FitsOrNot(V(), |ch'|, len, ok); }
      if append {
        appendPosition := rwPosition;
      }
      rwPosition := savedPosition;
      currentPosition := savedOffset;
    }

    lemma PlaceIsNormal(ch: Chain, j: nat, pos: Position, p: nat)
      requires V().Ok() && At(V(), ch, j, pos, p) && pos.sector < V().sectorsPerCluster
      ensures Normal(V(), ch, pos, p)
    {
      AtIsAgree(V(), ch, j, pos, p);
    }

    /** The cutting branch; the size field is set by the caller. */
    method Shorten(len: nat, ghost ch: Chain) returns (ghost ch': Chain)
      requires Sound(ch) && partition.table[0] == CLUSTER_EOF && len < filesize
      modifies this`startCluster, this`rwPosition, this`appendPosition, partition
      ensures partition.Valid() && Safe(V(), partition.Fat(), ch') && ch' != [] && ch'[0] == startCluster && len <= Offset(|ch'|, B())
      ensures Content(partition.clusters, ch', B(), len) == Resized(old(Contents(ch)), len)
      ensures len > 0 ==> CutState(V(), old(partition.Fat()), ch, partition.Fat(), ch', len)
      ensures len > 0 && append ==> Agree(V(), ch', appendPosition, len)
      ensures len == 0 ==> RestartState(V(), old(partition.Fat()), ch, partition.Fat(), startCluster)
      ensures len == 0 ==> ch' == [startCluster] && Normal(V(), ch', rwPosition, 0) && appendPosition == Position(0, 0, 0)
      ensures partition.clusters == old(partition.clusters)
      ensures len > 0 ==> rwPosition == old(rwPosition) && (!append ==> appendPosition == old(appendPosition))
      ensures partition.directs == old(partition.directs)
    {
      hide Content, Agree, Safe, CutState, RestartState, Normal, Offset, Partition.Valid;
      partition.Shape();
      SoundLength(ch);
      if len == 0 {
        ch' := Restart(ch);
        appendPosition := Position(CLUSTER_FREE, 0, 0);
        rwPosition := Position(startCluster, 0, 0);
        StartOfFile(ch');
      } else {
        ch' := Cut(len, ch);
      }
    }

    method Cut(len: nat, ghost ch: Chain) returns (ghost ch': Chain)
      requires Sound(ch) && 0 < len < filesize
      modifies this`appendPosition, partition
      ensures partition.Valid() && Safe(V(), partition.Fat(), ch') && ch' != [] && ch'[0] == startCluster && len <= Offset(|ch'|, B())
      ensures |old(Contents(ch))| == filesize && Content(partition.clusters, ch', B(), len) == old(Contents(ch))[..len]
      ensures CutState(V(), old(partition.Fat()), ch, partition.Fat(), ch', len)
      ensures append ==> Agree(V(), ch', appendPosition, len)
      ensures partition.clusters == old(partition.clusters) && (!append ==> appendPosition == old(appendPosition))
      ensures partition.directs == old(partition.directs)
    {
      hide Content, Agree, CutState, EndOfFile, Offset, Safe, IsChain, Partition.Valid;
      partition.Shape();
      var chainLength := (len - 1) / B() + 1;
      CutFacts(len, ch, chainLength);
      ch' := ch[..chainLength];
      var lastCluster := partition.TrimChain(startCluster, chainLength, ch);
      if append {
        appendPosition := Position(lastCluster,
                                   if len % B() == 0 then V().sectorsPerCluster else len % B() / BYTES_PER_READ,
                                   len % BYTES_PER_READ);
        IsEndOfFile(ch', len, appendPosition);
      }
    }

    /** The clusters kept, before any is freed. */
    lemma CutFacts(len: nat, ch: Chain, k: nat)
      requires Sound(ch) && 0 < len < filesize && k == (len - 1) / B() + 1
      ensures IsChain(V(), partition.table, ch) && ch[0] == startCluster && 0 < k <= |ch| && Last(ch[..k]) == ch[k - 1]
      ensures len <= Offset(k, B()) && |Contents(ch)| == filesize
      ensures var s := TrimChain(partition.Fat(), ch, k);
        && Safe(V(), s, ch[..k]) && CutState(V(), partition.Fat(), ch, s, ch[..k], len)
        && Content(partition.clusters, ch[..k], B(), len) == Contents(ch)[..len]
      ensures Agree(V(), ch[..k], EndOfFile(V(), ch[..k], len), len)
    {
      hide Content, Agree, Partition.Tracked, Clusters;
      CeilingCovers(V(), ch, len);
      SafeImage(V(), partition.Fat(), partition.clusters, ch);
      CutKeepsSafe(V(), partition.Fat(), ch, k);
      CutKeepsContent(V(), partition.clusters, ch, filesize, len, k);
      EndOfFileAgrees(V(), ch[..k], len);
    }

    lemma IsEndOfFile(ch: Chain, len: nat, pos: Position)
      requires V().Ok() && ch != [] && Agree(V(), ch, EndOfFile(V(), ch, len), len)
      requires pos.cluster == Last(ch) && pos.byte == len % BYTES_PER_READ
      requires pos.sector == if len % B() == 0 then V().sectorsPerCluster else len % B() / BYTES_PER_READ
      ensures Agree(V(), ch, pos, len)
    {
      hide Agree;
    }

    lemma StartOfFile(ch: Chain)
      requires partition.Valid() && Safe(V(), partition.Fat(), ch)
      ensures Normal(V(), ch, Position(ch[0], 0, 0), 0) && Content(partition.clusters, ch, B(), 0) == []
    {
      DivMod(0, B(), 0, 0);
    }

    /** Frees the whole chain and takes one cluster for the empty file. */
    method Restart(ghost ch: Chain) returns (ghost ch': Chain)
      requires Sound(ch) && partition.table[0] == CLUSTER_EOF
      modifies this`startCluster, partition
      ensures partition.Valid() && Safe(V(), partition.Fat(), ch') && ch' == [startCluster]
      ensures RestartState(V(), old(partition.Fat()), ch, partition.Fat(), startCluster)
      ensures partition.clusters == old(partition.clusters)
      ensures partition.directs == old(partition.directs)
    {
      RestartFacts(V(), partition.Fat(), ch);
      var _ := partition.ClearLinks(startCluster, ch);
      var n := partition.LinkFreeCluster(CLUSTER_FREE);
      startCluster := n;
      ch' := [n];
    }
  }

  datatype Whence = Set | Cur | End
}
