/**
 * Whole runs on an open file: reads, writes, seeks and truncations, in any order and number, do to the file on one
 * coherent sector store what they do to a plain sequence of bytes with a place in it, and nothing to any other file.
 * Whether the store stays coherent when some accesses go through a cache and others past it is another matter: module
 * FileOverCache tells which runs mean the same over a cache and a disc.
 */
module FileRuns {
  import opened Arith
  import opened Bytes
  import opened Geometry
  import opened Chains
  import opened FileImage
  import opened FileSteps
  import opened FatPartition
  import opened FatFile
  import FlatDisc

  datatype Op = ReadOp(n: nat) | WriteOp(data: seq<byte>) | SeekOp(pos: int, dir: Whence) | TruncateOp(len: int)

  /** A plain file: its bytes and the place of the next transfer. */
  datatype Flat = Flat(bytes: seq<byte>, at: nat)

  function SeekTarget(size: nat, at: nat, pos: int, dir: Whence): int {
    match dir case Set => pos case Cur => at + pos case End => size + pos
  }

  predicate ValidLength(len: int) { 0 <= len <= 0xFFFF_FFFF }

  /**
   * Reading stops at the end, writing behind the end fills up with zeros, seeking before the start does nothing, and
   * truncating cuts off bytes or appends zeros.
   */
  function FlatStep(f: Flat, op: Op): Flat {
    match op
    case ReadOp(n) => Flat(f.bytes, f.at + |FlatResult(f, op)|)
    case WriteOp(d) => Flat(Overwrite(FileStruct.Padded(f.bytes, f.at), f.at, d), f.at + |d|)
    case SeekOp(pos, dir) =>
      var t := SeekTarget(|f.bytes|, f.at, pos, dir);
      if t >= 0 then Flat(f.bytes, t) else f
    case TruncateOp(len) => if ValidLength(len) then Flat(FileStruct.Resized(f.bytes, len), f.at) else f
  }

  function FlatResult(f: Flat, op: Op): seq<byte> {
    match op
    case ReadOp(n) =>
      if f.at >= |f.bytes| then [] else if f.at + n <= |f.bytes| then f.bytes[f.at..f.at + n] else f.bytes[f.at..]
    case _ => []
  }

  function FlatRun(f: Flat, ops: seq<Op>): Flat {
    if ops == [] then f else FlatStep(FlatRun(f, ops[..|ops| - 1]), ops[|ops| - 1])
  }

  function FlatResults(f: Flat, ops: seq<Op>): seq<seq<byte>> {
    if ops == [] then []
    else FlatResults(f, ops[..|ops| - 1]) + [FlatResult(FlatRun(f, ops[..|ops| - 1]), ops[|ops| - 1])]
  }

  // ---- where the stored position stands ----

  /**
   * The stored position is at the current place, in normal form inside the file; or behind the last byte of the cluster
   * just filled; or somewhere else.
   */
  datatype Stand = Here | Behind | Lost

  /** Where the position stands after an operation, told from the plain file and the operation alone. */
  function StandAfter(size: nat, at: nat, stand: Stand, op: Op, b: nat): Stand
    requires b > 0
  {
    match op
    case ReadOp(_) => if at < size then Here else stand
    case WriteOp(d) => if (at + |d|) % b == 0 then Behind else Here
    case SeekOp(pos, dir) =>
      var t := SeekTarget(size, at, pos, dir);
      if t < 0 || t == at then stand else if t < size then Here else Lost
    case TruncateOp(len) =>
      if !ValidLength(len) || len >= size then stand
      else if len == 0 then (if at == 0 then Here else Lost)
      else if at < len then stand else Lost
  }

  function StandRun(f: Flat, stand: Stand, ops: seq<Op>, b: nat): Stand
    requires b > 0
  {
    if ops == [] then stand
    else
      var before := FlatRun(f, ops[..|ops| - 1]);
      StandAfter(|before.bytes|, before.at, StandRun(f, stand, ops[..|ops| - 1], b), ops[|ops| - 1], b)
  }

  /**
   * Where an operation can be trusted, on one coherent store. The condition is told from the size of the file, the
   * place in it and the operations made so far: numbers stay within 32 bits and something is written; a transfer inside
   * the file finds the stored position there; a read of less than a sector and a seek forward do not start behind the
   * cluster just filled; a file that is written behind its end or made longer does not end with a full cluster.
   */
  predicate Trusted(size: nat, at: nat, stand: Stand, op: Op, b: nat)
    requires b > 0
  {
    match op
    case ReadOp(n) =>
      && n < 0x8000_0000 && at + n < 0x1_0000_0000
      && (at < size ==> stand.Here? || (stand.Behind? && BYTES_PER_READ <= n <= size - at))
    case WriteOp(d) =>
      && d != [] && at + |d| < 0x1_0000_0000
      && (at <= size ==> !stand.Lost?)
      && (at > size ==> size == 0 || size % b != 0)
    case SeekOp(pos, dir) =>
      var t := SeekTarget(size, at, pos, dir);
      && -0x8000_0000 <= pos < 0x8000_0000 && -0x8000_0000 <= t < 0x8000_0000
      && (at <= t < size ==> stand.Here?)
    case TruncateOp(len) => ValidLength(len) && len > size ==> size == 0 || size % b != 0
  }

  /** Transfers of less than a sector, which go through the cache only. */
  predicate Short(f: Flat, op: Op) {
    match op
    case ReadOp(n) => n < BYTES_PER_READ
    case WriteOp(d) => |d| < BYTES_PER_READ && f.at < |f.bytes| + BYTES_PER_READ
    case SeekOp(_, _) => true
    case TruncateOp(len) => len < |f.bytes| + BYTES_PER_READ
  }

  predicate ShortRun(f: Flat, ops: seq<Op>) {
    ops == [] || (ShortRun(f, ops[..|ops| - 1]) && Short(FlatRun(f, ops[..|ops| - 1]), ops[|ops| - 1]))
  }

  lemma RunMore(f: Flat, stand: Stand, ops: seq<Op>, k: nat, b: nat)
    requires b > 0 && k < |ops|
    ensures var now := FlatRun(f, ops[..k]);
      && FlatRun(f, ops[..k + 1]) == FlatStep(now, ops[k])
      && FlatResults(f, ops[..k + 1]) == FlatResults(f, ops[..k]) + [FlatResult(now, ops[k])]
      && StandRun(f, stand, ops[..k + 1], b) == StandAfter(|now.bytes|, now.at, StandRun(f, stand, ops[..k], b), ops[k], b)
      && (ShortRun(f, ops[..k + 1]) <==> ShortRun(f, ops[..k]) && Short(now, ops[k]))
  {
    hide FlatStep, FlatResult, StandAfter, Short;
    assert ops[..k + 1][..k] == ops[..k];
  }

  lemma RunNothing(f: Flat, stand: Stand, ops: seq<Op>, b: nat)
    requires b > 0
    ensures FlatRun(f, ops[..0]) == f && FlatResults(f, ops[..0]) == [] && StandRun(f, stand, ops[..0], b) == stand
  {
  }

  // ---- what the open file stands for ----

  predicate StandsAt(v: Volume, ch: Chain, pos: Position, size: nat, at: nat, stand: Stand)
    requires v.Ok()
  {
    match stand
    case Here => at <= size && Agree(v, ch, pos, at) && (at < size ==> Normal(v, ch, pos, at))
    case Behind => at <= size && EndForm(v, ch, pos, at)
    case Lost => true
  }

  /** The open file stands for a plain one, and its chain has no cluster that starts behind the end. */
  ghost predicate Represents(f: FileStruct, ch: Chain, flat: Flat, stand: Stand)
    reads f, f.partition
  {
    && f.Sound(ch) && f.inUse && f.read && f.write && !f.append
    && f.partition.table[0] == CLUSTER_EOF && Offset(|ch| - 1, f.B()) <= f.filesize
    && f.Contents(ch) == flat.bytes && f.currentPosition == flat.at
    && StandsAt(f.V(), ch, f.rwPosition, f.filesize, f.currentPosition, stand)
  }

  /** A file just opened for reading and writing stands for its bytes, at the start. */
  lemma OpenedRepresents(f: FileStruct, ch: Chain)
    requires f.Sound(ch) && f.inUse && f.read && f.write && !f.append && f.currentPosition == 0
    requires f.partition.table[0] == CLUSTER_EOF
    requires At(f.V(), ch, 0, f.rwPosition, 0) && Offset(|ch| - 1, f.B()) <= f.filesize
    ensures Represents(f, ch, Flat(f.Contents(ch), 0), Here)
  {
    AtIsAgree(f.V(), ch, 0, f.rwPosition, 0);
  }

  // ---- other files ----

  predicate SameClusters(cl0: seq<seq<byte>>, cl: seq<seq<byte>>, ch: Chain) {
    |cl| == |cl0| && forall c :: c in ch && c < |cl| ==> cl[c] == cl0[c]
  }

  predicate StillApart(v: Volume, cl0: seq<seq<byte>>, s: Fat, cl: seq<seq<byte>>, ch: Chain, other: Chain) {
    |s.table| == v.lastCluster + 2 && IsChain(v, s.table, other) && Disjoint(ch, other) && SameClusters(cl0, cl, other)
  }

  /** Every chain apart from this file's is as it was, its clusters too, and apart from what the file has become. */
  ghost predicate Kept(v: Volume, s0: Fat, cl0: seq<seq<byte>>, ch0: Chain, s: Fat, cl: seq<seq<byte>>, ch: Chain) {
    && FatOk(v, s0) && FatOk(v, s) && |cl| == |cl0| && (Counted(v, s0) ==> Counted(v, s))
    && s.table[0] == s0.table[0]
    && forall other :: IsChain(v, s0.table, other) && Disjoint(ch0, other) ==> StillApart(v, cl0, s, cl, ch, other)
  }

  lemma KeptTwice(v: Volume, s0: Fat, cl0: seq<seq<byte>>, ch0: Chain, s1: Fat, cl1: seq<seq<byte>>, ch1: Chain,
                  s2: Fat, cl2: seq<seq<byte>>, ch2: Chain)
    requires Kept(v, s0, cl0, ch0, s1, cl1, ch1) && Kept(v, s1, cl1, ch1, s2, cl2, ch2)
    ensures Kept(v, s0, cl0, ch0, s2, cl2, ch2)
  {
    hide IsChain, Disjoint, Counted;
    forall other | IsChain(v, s0.table, other) && Disjoint(ch0, other) ensures StillApart(v, cl0, s2, cl2, ch2, other) {
      assert StillApart(v, cl0, s1, cl1, ch1, other);
      assert StillApart(v, cl1, s2, cl2, ch2, other);
    }
  }

  /** Another file keeps its chain and every byte. */
  lemma OtherFileKept(v: Volume, s0: Fat, cl0: seq<seq<byte>>, ch0: Chain, s: Fat, cl: seq<seq<byte>>, ch: Chain,
                      other: Chain, size: nat)
    requires Kept(v, s0, cl0, ch0, s, cl, ch) && AllSized(v, cl0)
    requires v.Ok() && IsChain(v, s0.table, other) && Disjoint(ch0, other)
    ensures IsChain(v, s.table, other) && Disjoint(ch, other)
    ensures Content(cl, other, v.BytesPerCluster(), size) == Content(cl0, other, v.BytesPerCluster(), size)
  {
    assert StillApart(v, cl0, s, cl, ch, other);
    ChainSized(v, cl0, other);
    forall i | 0 <= i < |other| ensures other[i] < |cl| && cl[other[i]] == cl0[other[i]] { assert other[i] in other; }
    ImageFrame(cl0, cl, other, v.BytesPerCluster());
  }

  lemma NothingChanged(v: Volume, s: Fat, cl: seq<seq<byte>>, ch: Chain)
    requires FatOk(v, s)
    ensures Kept(v, s, cl, ch, s, cl, ch)
  {
  }

  /** Growth keeps all other files. */
  lemma GrownKeeps(v: Volume, s0: Fat, cl0: seq<seq<byte>>, ch0: Chain, s: Fat, cl: seq<seq<byte>>, ch: Chain)
    requires FatOk(v, s0) && Safe(v, s0, ch0) && Grown(v, s0, ch0, s, ch) && s0.table[0] == CLUSTER_EOF
    requires |cl| == |cl0| && forall c :: 0 <= c < |cl| && c !in ch ==> cl[c] == cl0[c]
    ensures Kept(v, s0, cl0, ch0, s, cl, ch)
  {
    forall other | IsChain(v, s0.table, other) && Disjoint(ch0, other) ensures StillApart(v, cl0, s, cl, ch, other) {
      GrowthSparesOthers(v, s0, ch0, s, ch, other);
    }
  }

  /** So does cutting. */
  lemma CutKeeps(v: Volume, s0: Fat, cl: seq<seq<byte>>, ch0: Chain, s: Fat, ch: Chain, n: nat)
    requires FatOk(v, s0) && Safe(v, s0, ch0) && CutState(v, s0, ch0, s, ch, n)
    ensures Kept(v, s0, cl, ch0, s, cl, ch)
  {
    var k := Ceiling(v, n);
    if Counted(v, s0) { TrimCounts(v, s0, ch0, k); }
    CutTable(v, s0, ch0, k);
    forall other | IsChain(v, s0.table, other) && Disjoint(ch0, other) ensures StillApart(v, cl, s, cl, ch, other) {
      OthersSurvive(v, s0.table, s.table, ch0, other);
      forall c | c in ch ensures c !in other { assert c in ch0; }
    }
  }

  lemma CutTable(v: Volume, s: Fat, ch: Chain, k: nat)
    requires FatOk(v, s) && Safe(v, s, ch) && 0 < k <= |ch|
    ensures FatOk(v, TrimChain(s, ch, k)) && TouchesOnly(s.table, TrimChain(s, ch, k).table, ch)
    ensures TrimChain(s, ch, k).table[0] == s.table[0]
  {
    CutKeepsSafe(v, s, ch, k);
    assert forall c :: c in ch[k..] ==> c in ch;
    assert ch[k - 1] in ch;
  }

  /** And starting afresh. */
  lemma RestartKeeps(v: Volume, s0: Fat, cl: seq<seq<byte>>, ch0: Chain, s: Fat, start: nat)
    requires FatOk(v, s0) && Safe(v, s0, ch0) && s0.table[0] == CLUSTER_EOF && RestartState(v, s0, ch0, s, start)
    ensures Kept(v, s0, cl, ch0, s, cl, [start])
  {
    var s1 := ClearChain(s0, ch0);
    RestartFacts(v, s0, ch0);
    assert s1.table[ch0[0]] == CLUSTER_FREE;
    LinkStarts(v, s1);
    SearchIsComplete(v, s1);
    if Counted(v, s0) {
      forall c | c in ch0 ensures s0.table[c] != CLUSTER_FREE { ChainEntriesInUse(v, s0.table, ch0, c); }
      ClearCounts(v, s0, ch0);
      LinkCounts(v, s1, CLUSTER_FREE);
    }
    forall other | IsChain(v, s0.table, other) && Disjoint(ch0, other) ensures StillApart(v, cl, s, cl, [start], other) {
      OthersSurvive(v, s0.table, s.table, ch0, other);
      if start in other { ChainEntriesInUse(v, s0.table, other, start); }
    }
  }

  // ---- the operations ----

  /** A file that does not end with a full cluster has one cluster more than full ones. */
  lemma OneMoreThanFull(v: Volume, ch: Chain, size: nat)
    requires v.Ok() && ch != [] && Offset(|ch| - 1, v.BytesPerCluster()) <= size <= Offset(|ch|, v.BytesPerCluster())
    requires size == 0 || size % v.BytesPerCluster() != 0
    ensures |ch| == size / v.BytesPerCluster() + 1
  {
    var b, k := v.BytesPerCluster(), |ch| - 1;
    OffsetIs(k, b);
    OffsetIs(|ch|, b);
    assert Offset(|ch|, b) == Offset(k, b) + b;
    if size == Offset(|ch|, b) {
      DivMod(size, b, |ch|, 0);
    } else {
      DivMod(size, b, k, size - Offset(k, b));
    }
  }

  lemma StillSnug(v: Volume, ch0: Chain, ch: Chain, size: nat, end: nat, size': nat)
    requires ch0 != [] && ch0 <= ch && Offset(|ch0| - 1, v.BytesPerCluster()) <= size
    requires Snug(v, ch0, ch, end) && size <= size' && end <= size'
    ensures Offset(|ch| - 1, v.BytesPerCluster()) <= size'
  {
  }

  /** What standing somewhere says in the terms of the file layer. */
  lemma StandFacts(v: Volume, ch: Chain, pos: Position, size: nat, at: nat, stand: Stand)
    requires v.Ok() && StandsAt(v, ch, pos, size, at, stand)
    ensures stand != Lost ==> Agree(v, ch, pos, at)
    ensures stand == Here && at < size ==> Normal(v, ch, pos, at)
  {
  }

  lemma NowHere(v: Volume, ch: Chain, pos: Position, size: nat, at: nat)
    requires v.Ok() && at <= size <= Offset(|ch|, v.BytesPerCluster()) && Agree(v, ch, pos, at)
    requires at < Offset(|ch|, v.BytesPerCluster()) ==> Normal(v, ch, pos, at)
    ensures StandsAt(v, ch, pos, size, at, Here)
  {
  }

  method PerformRead(f: FileStruct, n: nat, ghost stand: Stand, ghost ch: Chain, ghost flat: Flat) returns (result: seq<byte>)
    requires Represents(f, ch, flat, stand) && Trusted(f.filesize, f.currentPosition, stand, ReadOp(n), f.B())
    modifies f`rwPosition, f`currentPosition, f.partition`history, f.partition`directs
    ensures Represents(f, ch, FlatStep(flat, ReadOp(n)), StandAfter(|flat.bytes|, flat.at, stand, ReadOp(n), f.B())) && result == FlatResult(flat, ReadOp(n))
    ensures n < BYTES_PER_READ ==> f.partition.directs == old(f.partition.directs)
  {
    hide Content, Agree, Normal, Safe, ReadGives, Offset, StandsAt, FlatDisc.OnlyReads, FlatDisc.DirectReads,
      Partition.Valid;
    f.SoundLength(ch);
    ghost var pos, p := f.rwPosition, f.currentPosition;
    StandFacts(f.V(), ch, pos, f.filesize, p, stand);
    result := f.Read(n, ch);
    if p < f.filesize {
      ReadGivesContent(f.V(), f.partition.clusters, ch, f.filesize, pos, p, |result|, result);
      NowHere(f.V(), ch, f.rwPosition, f.filesize, f.currentPosition);
    }
  }

  method PerformWrite(f: FileStruct, d: seq<byte>, ghost stand: Stand, ghost ch: Chain, ghost flat: Flat)
      returns (fine: bool, ghost ch': Chain)
    requires Represents(f, ch, flat, stand) && Trusted(f.filesize, f.currentPosition, stand, WriteOp(d), f.B())
    modifies f`filesize, f`rwPosition, f`appendPosition, f`currentPosition, f.partition
    ensures f.partition.Valid()
    ensures Kept(f.V(), old(f.partition.Fat()), old(f.partition.clusters), ch, f.partition.Fat(), f.partition.clusters, ch')
    ensures fine ==> Represents(f, ch', FlatStep(flat, WriteOp(d)), StandAfter(|flat.bytes|, flat.at, stand, WriteOp(d), f.B()))
    ensures !fine ==> DiscFull(f.V(), f.partition.table)
    ensures |d| < BYTES_PER_READ && old(f.currentPosition < f.filesize + BYTES_PER_READ) ==> f.partition.directs == old(f.partition.directs)
  {
    hide Content, Agree, Normal, EndForm, Safe, Grown, DiscFull, Room, Overwrite, FileStruct.Padded,
      FileStruct.InSector, Offset, Snug, InProgress, Kept, Partition.Valid;
    ghost var size, at := f.filesize, f.currentPosition;
    f.SoundLength(ch);
    f.partition.Shape();
    StandFacts(f.V(), ch, f.rwPosition, size, at, stand);
    if at > size {
      OneMoreThanFull(f.V(), ch, size);
      f.ExtendStartIsEnd(ch);
    }
    ghost var s0, cl0 := f.partition.Fat(), f.partition.clusters;
    ghost var extended, ok, rest;
    var r;
    r, extended, ok, ch', rest := f.Write(d, ch);
    fine := r == |d|;
    f.partition.Shape();
    GrownKeeps(f.V(), s0, cl0, ch, f.partition.Fat(), f.partition.clusters, ch');
    if fine {
      assert d[..|d|] == d;
      f.SoundLength(ch');
      GrownPrefix(f.V(), s0, ch, f.partition.Fat(), ch');
      StillSnug(f.V(), ch, ch', size, f.currentPosition, f.filesize);
      AgreeIsOneOf(f.V(), ch', f.rwPosition, f.currentPosition);
      EntryZeroKept(f.V(), s0, cl0, ch, f.partition.Fat(), f.partition.clusters, ch');
    }
  }

  lemma AgreeIsOneOf(v: Volume, ch: Chain, pos: Position, p: nat)
    requires v.Ok() && Agree(v, ch, pos, p)
    ensures Normal(v, ch, pos, p) || EndForm(v, ch, pos, p)
  {
  }

  lemma EntryZeroKept(v: Volume, s0: Fat, cl0: seq<seq<byte>>, ch0: Chain, s: Fat, cl: seq<seq<byte>>, ch: Chain)
    requires Kept(v, s0, cl0, ch0, s, cl, ch)
    ensures s0.table != [] && s.table != [] && s.table[0] == s0.table[0]
  {
  }

  /** Within 32 bits the target is the plain sum. */
  lemma TargetIs(f: FileStruct, pos: int, dir: Whence)
    ensures var t := SeekTarget(f.filesize, f.currentPosition, pos, dir);
      -0x8000_0000 <= t < 0x8000_0000 ==> f.Target(pos, dir) == t
  {
  }

  method PerformSeek(f: FileStruct, pos: int, dir: Whence, ghost stand: Stand, ghost ch: Chain, ghost flat: Flat)
    requires Represents(f, ch, flat, stand) && Trusted(f.filesize, f.currentPosition, stand, SeekOp(pos, dir), f.B())
    modifies f`rwPosition, f`currentPosition, f.partition`history
    ensures Represents(f, ch, FlatStep(flat, SeekOp(pos, dir)), StandAfter(|flat.bytes|, flat.at, stand, SeekOp(pos, dir), f.B()))
  {
    hide Content, Agree, Safe, Normal, EndForm, FileStruct.Target, Partition.Valid, Offset;
    f.SoundLength(ch);
    StandFacts(f.V(), ch, f.rwPosition, f.filesize, f.currentPosition, stand);
    TargetIs(f, pos, dir);
    var r := f.Seek(pos, dir, ch);
    if r >= 0 && f.currentPosition < f.filesize { f.AgreeNormal(ch, f.rwPosition, f.currentPosition); }
  }

  /** A length that is refused, or the length the file has. */
  method TruncateNothing(f: FileStruct, len: int, ghost stand: Stand, ghost ch: Chain, ghost flat: Flat) returns (ghost ch': Chain)
    requires Represents(f, ch, flat, stand) && (!ValidLength(len) || len == f.filesize)
    modifies f`filesize, f`startCluster, f`rwPosition, f`appendPosition, f`currentPosition, f.partition
    ensures f.partition.Valid()
    ensures Kept(f.V(), old(f.partition.Fat()), old(f.partition.clusters), ch, f.partition.Fat(), f.partition.clusters, ch')
    ensures Represents(f, ch', FlatStep(flat, TruncateOp(len)), StandAfter(|flat.bytes|, flat.at, stand, TruncateOp(len), f.B()))
    ensures f.partition.directs == old(f.partition.directs)
  {
    hide Content, Agree, Normal, EndForm, Safe, Grown, DiscFull, Offset, Kept, CutState, RestartState, StandsAt,
      Represents, Partition.Valid, FileStruct.Sound, FileStruct.Resized, FileStruct.ExtendStart, WrittenOver, FreeCount,
      Overwrite, FlatResult;
    ghost var size, at, rw, s0, cl0 := f.filesize, f.currentPosition, f.rwPosition, f.partition.Fat(), f.partition.clusters;
    RepresentedFacts(f, ch, flat, stand);
    var r;
    r, ch' := f.Ftruncate(len, ch);
    f.partition.Shape();
    NothingChanged(f.V(), s0, cl0, ch);
    if ValidLength(len) { WholeIsResized(flat.bytes, len); }
    EntryZeroKept(f.V(), s0, cl0, ch, f.partition.Fat(), f.partition.clusters, ch');
    RepresentsNow(f, ch', FlatStep(flat, TruncateOp(len)), StandAfter(|flat.bytes|, flat.at, stand, TruncateOp(len), f.B()));
  }

  method TruncateLonger(f: FileStruct, len: int, ghost stand: Stand, ghost ch: Chain, ghost flat: Flat)
      returns (fine: bool, ghost ch': Chain)
    requires Represents(f, ch, flat, stand) && f.filesize < len <= 0xFFFF_FFFF
    requires f.filesize == 0 || f.filesize % f.B() != 0
    modifies f`filesize, f`startCluster, f`rwPosition, f`appendPosition, f`currentPosition, f.partition
    ensures f.partition.Valid()
    ensures Kept(f.V(), old(f.partition.Fat()), old(f.partition.clusters), ch, f.partition.Fat(), f.partition.clusters, ch')
    ensures fine ==> Represents(f, ch', FlatStep(flat, TruncateOp(len)), StandAfter(|flat.bytes|, flat.at, stand, TruncateOp(len), f.B()))
    ensures !fine ==> DiscFull(f.V(), f.partition.table)
    ensures len < old(f.filesize) + BYTES_PER_READ ==> f.partition.directs == old(f.partition.directs)
  {
    hide Content, Agree, Normal, EndForm, Safe, Grown, DiscFull, Offset, Kept, CutState, RestartState, StandsAt,
      Represents, Partition.Valid, FileStruct.Sound, FileStruct.Resized, FileStruct.ExtendStart, WrittenOver, FreeCount,
      Overwrite, FlatResult;
    ghost var size, at, rw, s0, cl0 := f.filesize, f.currentPosition, f.rwPosition, f.partition.Fat(), f.partition.clusters;
    RepresentedFacts(f, ch, flat, stand);
    OneMoreThanFull(f.V(), ch, size);
    f.ExtendStartIsEnd(ch);
    var r;
    r, ch' := f.Ftruncate(len, ch);
    fine := r == 0;
    f.partition.Shape();
    GrownKeeps(f.V(), s0, cl0, ch, f.partition.Fat(), f.partition.clusters, ch');
    GrownPrefix(f.V(), s0, ch, f.partition.Fat(), ch');
    EntryZeroKept(f.V(), s0, cl0, ch, f.partition.Fat(), f.partition.clusters, ch');
    if fine {
      TightGrown(f.V(), |ch'|, len);
      StandsLonger(f.V(), ch, ch', rw, size, len, at, stand);
      RepresentsNow(f, ch', FlatStep(flat, TruncateOp(len)), StandAfter(|flat.bytes|, flat.at, stand, TruncateOp(len), f.B()));
    }
  }

  method TruncateShorter(f: FileStruct, len: int, ghost stand: Stand, ghost ch: Chain, ghost flat: Flat) returns (ghost ch': Chain)
    requires Represents(f, ch, flat, stand) && 0 < len < f.filesize
    modifies f`filesize, f`startCluster, f`rwPosition, f`appendPosition, f`currentPosition, f.partition
    ensures f.partition.Valid()
    ensures Kept(f.V(), old(f.partition.Fat()), old(f.partition.clusters), ch, f.partition.Fat(), f.partition.clusters, ch')
    ensures Represents(f, ch', FlatStep(flat, TruncateOp(len)), StandAfter(|flat.bytes|, flat.at, stand, TruncateOp(len), f.B()))
    ensures f.partition.directs == old(f.partition.directs)
  {
    hide Content, Agree, Normal, EndForm, Safe, Grown, DiscFull, Offset, Kept, CutState, RestartState, StandsAt,
      Represents, Partition.Valid, FileStruct.Sound, FileStruct.Resized, FileStruct.ExtendStart, WrittenOver, FreeCount,
      Overwrite, FlatResult;
    ghost var size, at, rw, s0, cl0 := f.filesize, f.currentPosition, f.rwPosition, f.partition.Fat(), f.partition.clusters;
    RepresentedFacts(f, ch, flat, stand);
    var r;
    r, ch' := f.Ftruncate(len, ch);
    f.partition.Shape();
    CutKeeps(f.V(), s0, cl0, ch, f.partition.Fat(), ch', len);
    TightCut(f.V(), s0, ch, f.partition.Fat(), ch', len);
    SoundFits(f, ch');
    StandsCut(f.V(), ch, ch', rw, size, len, at, stand);
    EntryZeroKept(f.V(), s0, cl0, ch, f.partition.Fat(), f.partition.clusters, ch');
    RepresentsNow(f, ch', FlatStep(flat, TruncateOp(len)), StandAfter(|flat.bytes|, flat.at, stand, TruncateOp(len), f.B()));
  }

  method TruncateToNothing(f: FileStruct, len: int, ghost stand: Stand, ghost ch: Chain, ghost flat: Flat) returns (ghost ch': Chain)
    requires Represents(f, ch, flat, stand) && len == 0 < f.filesize
    modifies f`filesize, f`startCluster, f`rwPosition, f`appendPosition, f`currentPosition, f.partition
    ensures f.partition.Valid()
    ensures Kept(f.V(), old(f.partition.Fat()), old(f.partition.clusters), ch, f.partition.Fat(), f.partition.clusters, ch')
    ensures Represents(f, ch', FlatStep(flat, TruncateOp(len)), StandAfter(|flat.bytes|, flat.at, stand, TruncateOp(len), f.B()))
    ensures f.partition.directs == old(f.partition.directs)
  {
    hide Content, Agree, Normal, EndForm, Safe, Grown, DiscFull, Offset, Kept, CutState, RestartState, StandsAt,
      Represents, Partition.Valid, FileStruct.Sound, FileStruct.Resized, FileStruct.ExtendStart, WrittenOver, FreeCount,
      Overwrite, FlatResult;
    ghost var size, at, rw, s0, cl0 := f.filesize, f.currentPosition, f.rwPosition, f.partition.Fat(), f.partition.clusters;
    RepresentedFacts(f, ch, flat, stand);
    var r;
    r, ch' := f.Ftruncate(len, ch);
    f.partition.Shape();
    RestartKeeps(f.V(), s0, cl0, ch, f.partition.Fat(), f.startCluster);
    StandsAtStart(f.V(), ch', f.rwPosition, at);
    TightStart(f.V());
    EntryZeroKept(f.V(), s0, cl0, ch, f.partition.Fat(), f.partition.clusters, ch');
    RepresentsNow(f, ch', FlatStep(flat, TruncateOp(len)), StandAfter(|flat.bytes|, flat.at, stand, TruncateOp(len), f.B()));
  }

  method PerformTruncate(f: FileStruct, len: int, ghost stand: Stand, ghost ch: Chain, ghost flat: Flat)
      returns (fine: bool, ghost ch': Chain)
    requires Represents(f, ch, flat, stand) && Trusted(f.filesize, f.currentPosition, stand, TruncateOp(len), f.B())
    modifies f`filesize, f`startCluster, f`rwPosition, f`appendPosition, f`currentPosition, f.partition
    ensures f.partition.Valid()
    ensures Kept(f.V(), old(f.partition.Fat()), old(f.partition.clusters), ch, f.partition.Fat(), f.partition.clusters, ch')
    ensures fine ==> Represents(f, ch', FlatStep(flat, TruncateOp(len)), StandAfter(|flat.bytes|, flat.at, stand, TruncateOp(len), f.B()))
    ensures !fine ==> DiscFull(f.V(), f.partition.table)
    ensures len < old(f.filesize) + BYTES_PER_READ ==> f.partition.directs == old(f.partition.directs)
  {
    hide Represents, Kept, DiscFull, FlatStep, StandAfter;
    fine := true;
    if !ValidLength(len) || len == f.filesize {
      ch' := TruncateNothing(f, len, stand, ch, flat);
    } else if len > f.filesize {
      fine, ch' := TruncateLonger(f, len, stand, ch, flat);
    } else if len > 0 {
      ch' := TruncateShorter(f, len, stand, ch, flat);
    } else {
      ch' := TruncateToNothing(f, len, stand, ch, flat);
    }
  }

  lemma WholeIsResized(s: seq<byte>, len: int)
    requires len == |s|
    ensures FileStruct.Resized(s, len) == s
  {
  }

  lemma RepresentedFacts(f: FileStruct, ch: Chain, flat: Flat, stand: Stand)
    requires Represents(f, ch, flat, stand)
    ensures f.Sound(ch) && f.inUse && f.read && f.write && !f.append && f.V().Ok() && f.B() > 0
    ensures f.partition.Valid() && FatOk(f.V(), f.partition.Fat()) && Safe(f.V(), f.partition.Fat(), ch) && ch != []
    ensures f.partition.table != [] && f.partition.table[0] == CLUSTER_EOF && Offset(|ch| - 1, f.B()) <= f.filesize
    ensures f.filesize <= Offset(|ch|, f.B()) && |flat.bytes| == f.filesize
    ensures f.Contents(ch) == flat.bytes && f.currentPosition == flat.at
    ensures StandsAt(f.V(), ch, f.rwPosition, f.filesize, f.currentPosition, stand)
  {
    f.SoundLength(ch);
  }

  lemma RepresentsNow(f: FileStruct, ch: Chain, flat: Flat, stand: Stand)
    requires f.Sound(ch) && f.inUse && f.read && f.write && !f.append && ch != []
    requires f.partition.table != [] && f.partition.table[0] == CLUSTER_EOF && Offset(|ch| - 1, f.B()) <= f.filesize
    requires f.Contents(ch) == flat.bytes && f.currentPosition == flat.at && f.V().Ok()
    requires StandsAt(f.V(), ch, f.rwPosition, f.filesize, f.currentPosition, stand)
    ensures Represents(f, ch, flat, stand)
  {
  }

  lemma SoundFits(f: FileStruct, ch: Chain)
    requires f.Sound(ch)
    ensures f.filesize <= Offset(|ch|, f.B())
  {
  }

  lemma TightStart(v: Volume)
    ensures Offset(0, v.BytesPerCluster()) == 0
  {
  }

  lemma TightGrown(v: Volume, k: nat, len: nat)
    requires v.Ok() && k == len / v.BytesPerCluster() + 1
    ensures k > 0 && Offset(k - 1, v.BytesPerCluster()) <= len
  {
    SectorAndByte(v, len);
    OffsetIs(k - 1, v.BytesPerCluster());
  }

  lemma TightCut(v: Volume, s0: Fat, ch0: Chain, s: Fat, ch: Chain, n: nat)
    requires v.Ok() && FatOk(v, s0) && CutState(v, s0, ch0, s, ch, n) && n > 0
    ensures ch != [] && Offset(|ch| - 1, v.BytesPerCluster()) <= n && ch <= ch0
  {
    SectorAndByte(v, n - 1);
    OffsetIs(|ch| - 1, v.BytesPerCluster());
  }

  /** The stored position after the chain has grown behind a file that did not end with a full cluster. */
  lemma StandsLonger(v: Volume, ch: Chain, ch': Chain, pos: Position, size: nat, size': nat, at: nat, stand: Stand)
    requires v.Ok() && ch <= ch' && size <= size' && (size == 0 || size % v.BytesPerCluster() != 0)
    requires StandsAt(v, ch, pos, size, at, stand)
    ensures StandsAt(v, ch', pos, size', at, stand)
  {
    hide Normal, EndForm, Offset;
    if stand == Here {
      if EndForm(v, ch, pos, at) { EndFormLonger(v, ch, ch', pos, at); }
      if Normal(v, ch, pos, at) { NormalLonger(v, ch, ch', pos, at); }
    } else if stand == Behind {
      EndFormLonger(v, ch, ch', pos, at);
    }
  }

  lemma NormalLonger(v: Volume, ch: Chain, ch': Chain, pos: Position, p: nat)
    requires v.Ok() && ch <= ch' && Normal(v, ch, pos, p)
    ensures Normal(v, ch', pos, p)
  {
  }

  lemma EndFormLonger(v: Volume, ch: Chain, ch': Chain, pos: Position, p: nat)
    requires v.Ok() && ch <= ch' && EndForm(v, ch, pos, p)
    ensures EndForm(v, ch', pos, p) && p > 0 && p % v.BytesPerCluster() == 0
  {
  }

  /** The stored position after the chain has been cut, for a place before the new end. */
  lemma StandsCut(v: Volume, ch: Chain, ch': Chain, pos: Position, size: nat, len: nat, at: nat, stand: Stand)
    requires v.Ok() && ch' <= ch && len <= Offset(|ch'|, v.BytesPerCluster()) && len <= size
    requires StandsAt(v, ch, pos, size, at, stand)
    ensures StandsAt(v, ch', pos, len, at, if at < len then stand else Lost)
  {
    if at < len { IndexInside(v, ch', at); }
  }

  lemma StandsAtStart(v: Volume, ch: Chain, pos: Position, at: nat)
    requires v.Ok() && Normal(v, ch, pos, 0)
    ensures StandsAt(v, ch, pos, 0, at, if at == 0 then Here else Lost)
  {
  }

  /** One trusted operation; it fails only where the disc is full. */
  method Perform(f: FileStruct, op: Op, ghost stand: Stand, ghost ch: Chain, ghost flat: Flat)
      returns (result: seq<byte>, fine: bool, ghost ch': Chain)
    requires Represents(f, ch, flat, stand) && Trusted(f.filesize, f.currentPosition, stand, op, f.B())
    modifies f`filesize, f`startCluster, f`rwPosition, f`appendPosition, f`currentPosition, f.partition
    ensures f.partition.Valid()
    ensures Kept(f.V(), old(f.partition.Fat()), old(f.partition.clusters), ch, f.partition.Fat(), f.partition.clusters, ch')
    ensures fine ==> Represents(f, ch', FlatStep(flat, op), StandAfter(|flat.bytes|, flat.at, stand, op, f.B())) && result == FlatResult(flat, op)
    ensures !fine ==> DiscFull(f.V(), f.partition.table)
    ensures Short(flat, op) ==> f.partition.directs == old(f.partition.directs)
  {
    hide Represents, Trusted, Kept, DiscFull, FlatStep, StandAfter, Partition.Valid;
    RepresentedFacts(f, ch, flat, stand);
    NothingChanged(f.V(), f.partition.Fat(), f.partition.clusters, ch);
    result, fine, ch' := [], true, ch;
    match op {
      case ReadOp(n) =>
        result := PerformRead(f, n, stand, ch, flat);
      case WriteOp(d) =>
        fine, ch' := PerformWrite(f, d, stand, ch, flat);
      case SeekOp(pos, dir) =>
        PerformSeek(f, pos, dir, stand, ch, flat);
      case TruncateOp(len) =>
        fine, ch' := PerformTruncate(f, len, stand, ch, flat);
    }
    if !op.WriteOp? && !op.TruncateOp? { RepresentsValid(f, ch, FlatStep(flat, op), StandAfter(|flat.bytes|, flat.at, stand, op, f.B())); }
  }

  lemma RepresentsValid(f: FileStruct, ch: Chain, flat: Flat, stand: Stand)
    requires Represents(f, ch, flat, stand)
    ensures f.partition.Valid()
  {
  }

  /**
   * A run of any length on a file open for reading and writing. It stops before the first operation that is not
   * trusted, or at the first that finds the disc full. Every result is that of the plain file, and so is what the disc
   * then holds. A run of short transfers goes through the cache only.
   */
  method Run(f: FileStruct, ops: seq<Op>, start: Stand, ghost ch: Chain, ghost flat: Flat)
      returns (results: seq<seq<byte>>, done: nat, full: bool, ghost ch': Chain)
    requires Represents(f, ch, flat, start)
    modifies f`filesize, f`startCluster, f`rwPosition, f`appendPosition, f`currentPosition, f.partition
    ensures f.partition.Valid() && done <= |ops| && f.B() > 0
    ensures Kept(f.V(), old(f.partition.Fat()), old(f.partition.clusters), ch, f.partition.Fat(), f.partition.clusters, ch')
    ensures full ==> done < |ops| && DiscFull(f.V(), f.partition.table)
    ensures results == FlatResults(flat, ops[..done])
    ensures !full ==> Represents(f, ch', FlatRun(flat, ops[..done]), StandRun(flat, start, ops[..done], f.B()))
    ensures done < |ops| && !full ==>
              var now := FlatRun(flat, ops[..done]);
              !Trusted(|now.bytes|, now.at, StandRun(flat, start, ops[..done], f.B()), ops[done], f.B())
    ensures !full && ShortRun(flat, ops[..done]) ==> f.partition.directs == old(f.partition.directs)
  {
    hide Represents, Trusted, Kept, DiscFull, FlatStep, FlatResult, StandAfter, Short, FlatRun, FlatResults, StandRun,
      ShortRun, Partition.Valid;
    RepresentedFacts(f, ch, flat, start);
    RunNothing(flat, start, ops, f.B());
    ghost var s0, cl0, was := f.partition.Fat(), f.partition.clusters, flat;
    NothingChanged(f.V(), s0, cl0, ch);
    results, done, full, ch' := [], 0, false, ch;
    var stand, b := start, f.B();
    while done < |ops|
      invariant done <= |ops| && f.partition.Valid() && !full
      invariant Kept(f.V(), s0, cl0, ch, f.partition.Fat(), f.partition.clusters, ch')
      invariant results == FlatResults(flat, ops[..done]) && stand == StandRun(flat, start, ops[..done], b)
      invariant was == FlatRun(flat, ops[..done]) && Represents(f, ch', was, stand)
      invariant ShortRun(flat, ops[..done]) ==> f.partition.directs == old(f.partition.directs)
    {
      RepresentedFacts(f, ch', was, stand);
      if !Trusted(f.filesize, f.currentPosition, stand, ops[done], b) {
        return;
      }
      RunMore(flat, start, ops, done, b);
      ghost var s1, cl1, ch1 := f.partition.Fat(), f.partition.clusters, ch';
      var next := StandAfter(f.filesize, f.currentPosition, stand, ops[done], b);
      var result, fine;
      result, fine, ch' := Perform(f, ops[done], stand, ch1, was);
      KeptTwice(f.V(), s0, cl0, ch, s1, cl1, ch1, f.partition.Fat(), f.partition.clusters, ch');
      if !fine {
        full := true;
        return;
      }
      was := FlatStep(was, ops[done]);
      results := results + [result];
      stand := next;
      done := done + 1;
    }
  }
}
