/**
 * What reading, writing and extending a file keep from step to step: how the chain may grow and what
 * has been stored so far.
 */
module FileSteps {
  import opened Arith
  import opened Bytes
  import opened Geometry
  import opened FatEntry
  import opened Chains
  import opened FileImage
  import opened FatPartition

  /** The file's chain is sound and the last cluster of the volume and the entry behind it are in use elsewhere. */
  predicate Safe(v: Volume, s: Fat, ch: Chain) {
    && FatOk(v, s) && IsChain(v, s.table, ch)
    && v.lastCluster !in ch
    && s.table[v.lastCluster] != CLUSTER_FREE && s.table[v.lastCluster + 1] != CLUSTER_FREE
  }

  function Larger(a: nat, b: nat): nat { if a < b then b else a }

  function Smaller(a: int, b: int): int { if a < b then a else b }

  /** No cluster can be allocated. */
  predicate DiscFull(v: Volume, t: seq<nat>) {
    |t| == v.lastCluster + 2 && NoneFree(v, t)
  }

  /** No cluster can be allocated, and the chain is filled to its end. */
  predicate Filled(v: Volume, t: seq<nat>, ch: Chain, end: nat) {
    DiscFull(v, t) && end == Offset(|ch|, v.BytesPerCluster())
  }

  /**
   * The chain has grown at its end by clusters that were free; nothing else in the table has changed, no cluster has
   * leaked, and the counter stays right.
   */
  predicate Grown(v: Volume, s0: Fat, ch0: Chain, s: Fat, ch: Chain) {
    && Safe(v, s, ch) && ch0 <= ch
    && TouchesOnly(s0.table, s.table, ch0)
    && (forall i :: |ch0| <= i < |ch| ==> ch[i] < |s0.table| && s0.table[ch[i]] == CLUSTER_FREE)
    && FreeCount(v, s0.table) == FreeCount(v, s.table) + |ch| - |ch0|
    && (Counted(v, s0) ==> Counted(v, s))
  }

  /** If the chain has grown at all, its last cluster starts no later than `end`: none was taken before it was needed. */
  predicate Snug(v: Volume, ch0: Chain, ch: Chain, end: nat) {
    |ch| > |ch0| ==> Offset(|ch| - 1, v.BytesPerCluster()) <= end
  }

  lemma SnugTwice(v: Volume, ch0: Chain, ch1: Chain, ch2: Chain, m: nat, end: nat)
    requires ch0 <= ch1 <= ch2 && m <= end && Snug(v, ch0, ch1, m) && Snug(v, ch1, ch2, end)
    ensures Snug(v, ch0, ch2, end)
  {
  }

  lemma NotGrown(v: Volume, s: Fat, ch: Chain)
    requires Safe(v, s, ch)
    ensures Grown(v, s, ch, s, ch)
  {
  }

  lemma GrownPrefix(v: Volume, s0: Fat, ch0: Chain, s: Fat, ch: Chain)
    requires FatOk(v, s0) && Grown(v, s0, ch0, s, ch)
    ensures ch0 <= ch
  {
  }

  /** Growing goes on by one allocation behind the end. */
  lemma GrowStep(v: Volume, s0: Fat, ch0: Chain, s: Fat, ch: Chain)
    requires FatOk(v, s0) && Safe(v, s0, ch0) && Grown(v, s0, ch0, s, ch)
    ensures var (s', n) := LinkFree(v, s, Last(ch));
      && (n == CLUSTER_FREE ==> Grown(v, s0, ch0, s', ch) && DiscFull(v, s'.table))
      && (n != CLUSTER_FREE ==> n !in ch && CLUSTER_FIRST <= n < v.lastCluster && Grown(v, s0, ch0, s', ch + [n]))
  {
    assert Last(ch) in ch;
    LinkExtends(v, s, ch);
    ChainEntriesInUse(v, s.table, ch, Last(ch));
    if Counted(v, s) { LinkCounts(v, s, Last(ch)); }
    var (s', n) := LinkFree(v, s, Last(ch));
    if n == CLUSTER_FREE {
      SearchIsComplete(v, s);
    } else {
      ExtendedChain(v, s.table, ch, n);
      GrownByOne(v, s0, ch0, s, ch, s', n);
    }
  }

  lemma GrownByOne(v: Volume, s0: Fat, ch0: Chain, s: Fat, ch: Chain, s': Fat, n: nat)
    requires FatOk(v, s0) && Safe(v, s0, ch0) && Grown(v, s0, ch0, s, ch) && FatOk(v, s')
    requires CLUSTER_FIRST <= n <= v.lastCluster && s.table[n] == CLUSTER_FREE && n !in ch
    requires s'.table == s.table[Last(ch) := n][n := CLUSTER_EOF] && IsChain(v, s'.table, ch + [n])
    requires Counted(v, s) ==> Counted(v, s')
    ensures Grown(v, s0, ch0, s', ch + [n])
  {
    assert n !in ch0 by { assert ch[..|ch0|] == ch0; }
    EndWasOwnOrFree(v, s0, ch0, s, ch);
    ChainEntriesInUse(v, s.table, ch, Last(ch));
    UseCount(v, s.table, Last(ch), n);
    UseCount(v, s.table[Last(ch) := n], n, CLUSTER_EOF);
  }

  /** The end of the grown chain is a cluster of the old chain or was free. */
  lemma EndWasOwnOrFree(v: Volume, s0: Fat, ch0: Chain, s: Fat, ch: Chain)
    requires FatOk(v, s0) && Grown(v, s0, ch0, s, ch) && ch0 != []
    ensures Last(ch) in ch0 || s0.table[Last(ch)] == CLUSTER_FREE
  {
    if |ch| == |ch0| { assert ch == ch0; }
  }

  /** Other files survive growth: their chains stay and no cluster of theirs is taken. */
  lemma GrowthSparesOthers(v: Volume, s0: Fat, ch0: Chain, s: Fat, ch: Chain, other: Chain)
    requires FatOk(v, s0) && Grown(v, s0, ch0, s, ch) && IsChain(v, s0.table, other) && Disjoint(ch0, other)
    ensures IsChain(v, s.table, other) && Disjoint(ch, other)
  {
    OthersSurvive(v, s0.table, s.table, ch0, other);
    forall c | c in ch ensures c !in other {
      var i :| 0 <= i < |ch| && ch[i] == c;
      if i < |ch0| {
        assert ch0[i] == c;
      } else if c in other {
        ChainEntriesInUse(v, s0.table, other, c);
      }
    }
  }

  /** `d` has been written from offset p on, over what the clusters of the chain held, and no cluster outside the chain has changed. */
  predicate Stored(cl0: seq<seq<byte>>, cl: seq<seq<byte>>, ch: Chain, b: nat, p: nat, d: seq<byte>) {
    && |cl| == |cl0| && Sized(cl0, ch, b) && Sized(cl, ch, b)
    && p + |d| <= |Image(cl0, ch, b)|
    && Image(cl, ch, b) == Splice(Image(cl0, ch, b), p, d)
    && forall c :: 0 <= c < |cl| && c !in ch ==> cl[c] == cl0[c]
  }

  lemma StoredNothing(cl: seq<seq<byte>>, ch: Chain, b: nat, p: nat)
    requires Sized(cl, ch, b) && p <= |Image(cl, ch, b)|
    ensures Stored(cl, cl, ch, b, p, [])
  {
    SpliceNothing(Image(cl, ch, b), p);
  }

  lemma StoredGrown(cl0: seq<seq<byte>>, cl: seq<seq<byte>>, ch: Chain, n: nat, b: nat, p: nat, d: seq<byte>)
    requires Stored(cl0, cl, ch, b, p, d) && n !in ch && n < |cl0| && |cl0[n]| == b
    ensures Stored(cl0, cl, ch + [n], b, p, d)
  {
    assert cl[n] == cl0[n];
    assert Sized(cl0, ch + [n], b) && Sized(cl, ch + [n], b);
    ImageExtend(cl0, ch, n, b);
    ImageExtend(cl, ch, n, b);
    SpliceLeft(Image(cl0, ch, b), cl0[n], p, d);
  }

  lemma StoredMore(cl0: seq<seq<byte>>, cl: seq<seq<byte>>, ch: Chain, b: nat, p: nat, d: seq<byte>, j: nat, o: nat, e: seq<byte>)
    requires Stored(cl0, cl, ch, b, p, d) && Distinct(ch)
    requires j < |ch| && o + |e| <= b && Offset(j, b) + o == p + |d|
    ensures Stored(cl0, cl[ch[j] := Splice(cl[ch[j]], o, e)], ch, b, p, d + e)
  {
    ImageWrite(cl, ch, b, j, o, e);
    SpliceSplice(Image(cl0, ch, b), p, d, e);
  }

  /** The state before a transfer and the place where it starts. */
  datatype Origin = Origin(fat: Fat, clusters: seq<seq<byte>>, chain: Chain, start: nat)

  predicate InProgress(v: Volume, o: Origin, s: Fat, cl: seq<seq<byte>>, ch: Chain, d: seq<byte>) {
    && FatOk(v, o.fat) && Safe(v, o.fat, o.chain) && Grown(v, o.fat, o.chain, s, ch)
    && AllSized(v, o.clusters)
    && Stored(o.clusters, cl, ch, v.BytesPerCluster(), o.start, d)
    && Snug(v, o.chain, ch, o.start + |d|)
  }

  lemma ChainSized(v: Volume, cl: seq<seq<byte>>, ch: Chain)
    requires AllSized(v, cl) && InRange(v, ch)
    ensures Sized(cl, ch, v.BytesPerCluster())
  {
  }

  lemma ProgressStarts(v: Volume, o: Origin)
    requires Safe(v, o.fat, o.chain) && AllSized(v, o.clusters)
    requires o.start <= Offset(|o.chain|, v.BytesPerCluster())
    ensures InProgress(v, o, o.fat, o.clusters, o.chain, [])
  {
    ChainSized(v, o.clusters, o.chain);
    ImageLength(o.clusters, o.chain, v.BytesPerCluster());
    StoredNothing(o.clusters, o.chain, v.BytesPerCluster(), o.start);
  }

  lemma ProgressWrite(v: Volume, o: Origin, s: Fat, cl: seq<seq<byte>>, ch: Chain, d: seq<byte>, j: nat, at: nat, e: seq<byte>)
    requires InProgress(v, o, s, cl, ch, d)
    requires j < |ch| && at + |e| <= v.BytesPerCluster() && Offset(j, v.BytesPerCluster()) + at == o.start + |d|
    ensures CLUSTER_FIRST <= ch[j] <= v.lastCluster && ch[j] < |cl| && |cl[ch[j]]| == v.BytesPerCluster()
    ensures InProgress(v, o, s, cl[ch[j] := Splice(cl[ch[j]], at, e)], ch, d + e)
  {
    StoredMore(o.clusters, cl, ch, v.BytesPerCluster(), o.start, d, j, at, e);
  }

  lemma ProgressGrow(v: Volume, o: Origin, s: Fat, cl: seq<seq<byte>>, ch: Chain, d: seq<byte>)
    requires InProgress(v, o, s, cl, ch, d) && o.start + |d| == Offset(|ch|, v.BytesPerCluster())
    ensures var (s', n) := LinkFree(v, s, Last(ch));
      && (n == CLUSTER_FREE ==> InProgress(v, o, s', cl, ch, d) && DiscFull(v, s'.table))
      && (n != CLUSTER_FREE ==> CLUSTER_FIRST <= n < v.lastCluster && InProgress(v, o, s', cl, ch + [n], d))
  {
    GrowStep(v, o.fat, o.chain, s, ch);
    var (s', n) := LinkFree(v, s, Last(ch));
    if n != CLUSTER_FREE {
      StoredGrown(o.clusters, cl, ch, n, v.BytesPerCluster(), o.start, d);
    }
  }

  /** What a transfer has made of the file. */
  lemma ContentAfter(v: Volume, o: Origin, s: Fat, cl: seq<seq<byte>>, ch: Chain, d: seq<byte>, rest: seq<byte>, size: nat, end: nat)
    requires InProgress(v, o, s, cl, ch, d + rest)
    requires o.start <= size <= Offset(|o.chain|, v.BytesPerCluster())
    requires end == if o.start + |d| > size then o.start + |d| else size
    requires rest != [] ==> o.start + |d| >= size
    ensures var b := v.BytesPerCluster();
      && |Content(o.clusters, o.chain, b, size)| == size && end <= Offset(|ch|, b)
      && Content(cl, ch, b, end) == Overwrite(Content(o.clusters, o.chain, b, size), o.start, d)
  {
    hide InProgress, Stored, Grown, Safe, Image, Content, Overwrite;
    var b := v.BytesPerCluster();
    ProgressImage(v, o, s, cl, ch, d + rest);
    ContentSpliced(o.clusters, cl, o.chain, ch, b, o.start, d, rest, size, end);
  }

  lemma ProgressImage(v: Volume, o: Origin, s: Fat, cl: seq<seq<byte>>, ch: Chain, d: seq<byte>)
    requires InProgress(v, o, s, cl, ch, d)
    ensures o.chain <= ch && Stored(o.clusters, cl, ch, v.BytesPerCluster(), o.start, d)
  {
  }

  /** The first bytes of clusters that have been overwritten, for a chain that may have grown. */
  lemma ContentSpliced(cl0: seq<seq<byte>>, cl: seq<seq<byte>>, ch0: Chain, ch: Chain, b: nat, start: nat, d: seq<byte>, rest: seq<byte>,
                       size: nat, end: nat)
    requires ch0 <= ch && Stored(cl0, cl, ch, b, start, d + rest)
    requires start <= size <= Offset(|ch0|, b)
    requires end == if start + |d| > size then start + |d| else size
    requires rest != [] ==> start + |d| >= size
    ensures |Content(cl0, ch0, b, size)| == size && end <= Offset(|ch|, b)
    ensures Content(cl, ch, b, end) == Overwrite(Content(cl0, ch0, b, size), start, d)
  {
    hide Image, Overwrite, Splice;
    assert ch[..|ch0|] == ch0;
    ImageLength(cl0, ch, b);
    ImageLength(cl, ch, b);
    ImagePrefix(cl0, ch, b, |ch0|);
    OffsetMono(|ch0|, |ch|, b);
    ContentLength(cl0, ch0, b, size);
    ContentLength(cl, ch, b, end);
    var img := Image(cl0, ch, b);
    FirstOfFirst(img, Offset(|ch0|, b), size);
    SpliceIsOverwrite(img, size, start, d, rest, end);
  }

  lemma FirstOfFirst<T>(s: seq<T>, m: nat, n: nat)
    requires n <= m <= |s|
    ensures s[..m][..n] == s[..n]
  {
  }

  lemma GrownTrans(v: Volume, s0: Fat, ch0: Chain, s1: Fat, ch1: Chain, s2: Fat, ch2: Chain)
    requires FatOk(v, s0) && Safe(v, s0, ch0) && FatOk(v, s1)
    requires Grown(v, s0, ch0, s1, ch1) && Grown(v, s1, ch1, s2, ch2)
    ensures Grown(v, s0, ch0, s2, ch2)
  {
    assert ch2[..|ch1|] == ch1;
    forall i | |ch0| <= i < |ch2| ensures ch2[i] < |s0.table| && s0.table[ch2[i]] == CLUSTER_FREE {
      if i < |ch1| {
        assert ch2[i] == ch1[i];
      } else {
        FreeBefore(v, s0, ch0, s1, ch1, ch2[i]);
      }
    }
    forall c | 0 <= c < |s0.table| && s2.table[c] != s0.table[c] ensures c in ch0 || s0.table[c] == CLUSTER_FREE {
      if s1.table[c] == s0.table[c] && c in ch1 {
        var i :| 0 <= i < |ch1| && ch1[i] == c;
        if i < |ch0| { assert ch0[i] == c; }
      }
    }
  }

  /** On a full disc nothing is free, the entry behind the last cluster included. */
  lemma FullCount(v: Volume, s: Fat, ch: Chain)
    requires Safe(v, s, ch) && DiscFull(v, s.table)
    ensures FreeCount(v, s.table) == 0
  {
    assert FreeSet(v, s.table) == {};
  }

  /** What is free after growth and not in the chain was free before. */
  lemma FreeBefore(v: Volume, s0: Fat, ch0: Chain, s1: Fat, ch1: Chain, c: nat)
    requires FatOk(v, s0) && Safe(v, s0, ch0) && Grown(v, s0, ch0, s1, ch1)
    requires c < |s1.table| && s1.table[c] == CLUSTER_FREE
    ensures s0.table[c] == CLUSTER_FREE
  {
    if c in ch1 { ChainEntriesInUse(v, s1.table, ch1, c); }
    assert ch1[..|ch0|] == ch0;
  }

  lemma SafeImage(v: Volume, s: Fat, cl: seq<seq<byte>>, ch: Chain)
    requires Safe(v, s, ch) && AllSized(v, cl)
    ensures Sized(cl, ch, v.BytesPerCluster()) && |Image(cl, ch, v.BytesPerCluster())| == Offset(|ch|, v.BytesPerCluster())
  {
    ImageLength(cl, ch, v.BytesPerCluster());
  }

  lemma ProgressFacts(v: Volume, o: Origin, s: Fat, cl: seq<seq<byte>>, ch: Chain, d: seq<byte>)
    requires InProgress(v, o, s, cl, ch, d)
    ensures FatOk(v, o.fat) && Grown(v, o.fat, o.chain, s, ch) && Safe(v, s, ch) && o.chain <= ch
    ensures Distinct(ch) && ch != [] && o.chain != [] && ch[0] == o.chain[0] && Snug(v, o.chain, ch, o.start + |d|)
    ensures |cl| == |o.clusters| && forall c :: 0 <= c < |cl| && c !in ch ==> cl[c] == o.clusters[c]
  {
  }

  lemma ProgressSnug(v: Volume, o: Origin, s: Fat, cl: seq<seq<byte>>, ch: Chain, d: seq<byte>, end: nat)
    requires InProgress(v, o, s, cl, ch, d) && o.start + |d| <= end
    ensures Snug(v, o.chain, ch, end)
  {
  }

  /** What extending has made of the file: zeros behind the old end, and nothing else when they are not counted in. */
  lemma ContentAfterZeros(v: Volume, o: Origin, s: Fat, cl: seq<seq<byte>>, ch: Chain, z: nat)
    requires InProgress(v, o, s, cl, ch, Zeros(z)) && o.start <= Offset(|o.chain|, v.BytesPerCluster())
    ensures var b := v.BytesPerCluster();
      && o.start + z <= Offset(|ch|, b)
      && Content(cl, ch, b, o.start + z) == Content(o.clusters, o.chain, b, o.start) + Zeros(z)
      && Content(cl, ch, b, o.start) == Content(o.clusters, o.chain, b, o.start)
  {
    hide InProgress, Content;
    TakeRest(Zeros(z), 0, []);
    ContentAfter(v, o, s, cl, ch, Zeros(z), [], o.start, o.start + z);
    ContentAfter(v, o, s, cl, ch, [], Zeros(z), o.start, o.start);
  }

  /** The clusters of the old chain, and what the chain has grown by as far as `d` goes, hold what they held with `d` over it. */
  predicate WrittenOver(v: Volume, o: Origin, cl: seq<seq<byte>>, ch: Chain, d: seq<byte>) {
    var b := v.BytesPerCluster();
    var whole := Content(o.clusters, o.chain, b, Offset(|o.chain|, b));
    && |whole| == Offset(|o.chain|, b) && o.start <= |whole|
    && Content(cl, ch, b, Larger(|whole|, o.start + |d|)) == Overwrite(whole, o.start, d)
  }

  lemma WholeAfter(v: Volume, o: Origin, s: Fat, cl: seq<seq<byte>>, ch: Chain, d: seq<byte>)
    requires InProgress(v, o, s, cl, ch, d) && o.start <= Offset(|o.chain|, v.BytesPerCluster())
    ensures WrittenOver(v, o, cl, ch, d)
  {
    hide InProgress, Content, Overwrite;
    var whole := Offset(|o.chain|, v.BytesPerCluster());
    TakeRest(d, 0, []);
    ContentAfter(v, o, s, cl, ch, d, [], whole, Larger(whole, o.start + |d|));
  }

  // ---- how far a transfer gets ----

  /** An offset lies before the end of the first k clusters exactly when its quotient is below k. */
  lemma QuotientBelow(v: Volume, k: nat, p: nat)
    requires v.Ok()
    ensures p < Offset(k, v.BytesPerCluster()) <==> p / v.BytesPerCluster() < k
  {
    var b := v.BytesPerCluster();
    var q: nat := p / b;
    PartsOf(v, p);
    SectorAndByte(v, p);
    if q < k { OffsetMono(q, k, b); } else { OffsetMono(k, q, b); }
  }

  /**
   * A transfer of n bytes that stops only on a full disc, with the chain filled to its end, needs as many clusters as
   * its last position tells. So it succeeds exactly when so many are free, and otherwise it has taken every free one.
   */
  lemma GrownExactly(v: Volume, o: Origin, s: Fat, cl: seq<seq<byte>>, ch: Chain, z: nat, n: nat, ok: bool, j: nat, pos: Position)
    requires v.Ok() && InProgress(v, o, s, cl, ch, Zeros(z)) && FatOk(v, o.fat) && Safe(v, s, ch)
    requires o.chain != [] && Offset(|o.chain| - 1, v.BytesPerCluster()) <= o.start && z <= n
    requires ok ==> z == n && At(v, ch, j, pos, o.start + n) && pos.sector < v.sectorsPerCluster
    requires !ok ==> Filled(v, s.table, ch, o.start + z)
    ensures ok <==> (o.start + n) / v.BytesPerCluster() < |o.chain| + FreeCount(v, o.fat.table)
    ensures |ch| == if ok then (o.start + z) / v.BytesPerCluster() + 1 else |o.chain| + FreeCount(v, o.fat.table)
  {
    hide Stored, Safe, AllSized, Counted, FreeCount, Offset;
    var b := v.BytesPerCluster();
    if ok {
      AtIsAgree(v, ch, j, pos, o.start + n);
      OffsetMono(|o.chain| - 1, |ch| - 1, b);
      QuotientBelow(v, |ch| - 1, o.start + n);
    } else {
      FullCount(v, s, ch);
      OffsetMono(|o.chain|, |ch|, b);
      QuotientBelow(v, |ch|, o.start + n);
    }
  }

  /** Whether a size exceeds a chain that was made for it. */
  lemma FitsOrNot(v: Volume, k: nat, len: nat, ok: bool)
    requires v.Ok() && len > 0 && (ok ==> k == len / v.BytesPerCluster() + 1)
    ensures ok ==> len < Offset(k, v.BytesPerCluster())
    ensures len > Offset(k, v.BytesPerCluster()) <==> (len - 1) / v.BytesPerCluster() + 1 > k
    ensures (len - 1) / v.BytesPerCluster() <= len / v.BytesPerCluster()
  {
    hide Offset, Volume.BytesPerCluster;
    QuotientBelow(v, k, len);
    QuotientBelow(v, k, len - 1);
    QuotientMono(v, len - 1, len);
  }

  /** How many bytes there is room for from `place` on, in the chain and in the free clusters. */
  function Room(v: Volume, s: Fat, ch: Chain, place: nat): int {
    Offset(|ch| + FreeCount(v, s.table), v.BytesPerCluster()) - place
  }

  /** A transfer stores as many bytes as there is room for, and no fewer than asked for if there is room. */
  lemma CountedExactly(v: Volume, o: Origin, s: Fat, ch: Chain, r: nat, n: nat, ok: bool, j: nat, pos: Position)
    requires FatOk(v, o.fat) && Grown(v, o.fat, o.chain, s, ch) && Safe(v, s, ch) && r <= n
    requires ok ==> r == n && At(v, ch, j, pos, o.start + r)
    requires !ok ==> Filled(v, s.table, ch, o.start + r)
    ensures r == Smaller(n, Room(v, o.fat, o.chain, o.start))
  {
    hide Safe, Counted, FreeCount, Offset, TouchesOnly;
    var all := |o.chain| + FreeCount(v, o.fat.table);
    OffsetMono(|ch|, all, v.BytesPerCluster());
    if ok { AtInside(v, ch, j, pos, o.start + r); } else { FullCount(v, s, ch); }
  }

  /** A position behind the first byte of its cluster is in normal form exactly when the offset is no multiple of the cluster size. */
  lemma InsideIsNormal(v: Volume, ch: Chain, j: nat, pos: Position, p: nat)
    requires v.Ok() && At(v, ch, j, pos, p) && (pos.sector > 0 || pos.byte > 0)
    ensures Normal(v, ch, pos, p) <==> p % v.BytesPerCluster() != 0
    ensures EndForm(v, ch, pos, p) <==> p % v.BytesPerCluster() == 0
  {
    var b := v.BytesPerCluster();
    AtIsAgree(v, ch, j, pos, p);
    OffsetIs(j, b);
    if pos.sector < v.sectorsPerCluster {
      DivMod(p, b, j, BYTES_PER_READ * pos.sector + pos.byte);
    } else {
      OffsetIs(j + 1, b);
      DivMod(p, b, j + 1, 0);
    }
  }

  // ---- two transfers in a row ----

  lemma {:induction false} StoredLonger(cl0: seq<seq<byte>>, cl: seq<seq<byte>>, ch: Chain, k: nat, b: nat, p: nat, d: seq<byte>)
    requires k <= |ch| && Distinct(ch) && Stored(cl0, cl, ch[..k], b, p, d)
    requires forall i :: k <= i < |ch| ==> ch[i] < |cl0| && |cl0[ch[i]]| == b
    ensures Stored(cl0, cl, ch, b, p, d)
    decreases |ch| - k
  {
    hide Stored;
    if k == |ch| {
      assert ch[..k] == ch;
    } else {
      assert ch[k] !in ch[..k];
      StoredGrown(cl0, cl, ch[..k], ch[k], b, p, d);
      assert ch[..k] + [ch[k]] == ch[..k + 1];
      StoredLonger(cl0, cl, ch, k + 1, b, p, d);
    }
  }

  lemma StoredTwice(cl0: seq<seq<byte>>, cl1: seq<seq<byte>>, ch1: Chain, cl2: seq<seq<byte>>, ch2: Chain,
                    b: nat, p: nat, d: seq<byte>, e: seq<byte>)
    requires Stored(cl0, cl1, ch1, b, p, d) && Stored(cl1, cl2, ch2, b, p + |d|, e) && ch1 <= ch2 && Distinct(ch2)
    ensures Stored(cl0, cl2, ch2, b, p, d + e)
  {
    assert ch2[..|ch1|] == ch1;
    forall i | |ch1| <= i < |ch2| ensures ch2[i] < |cl0| && |cl0[ch2[i]]| == b {
      forall k | 0 <= k < |ch1| ensures ch1[k] != ch2[i] { assert ch1[k] == ch2[k]; }
      assert cl1[ch2[i]] == cl0[ch2[i]];
    }
    StoredLonger(cl0, cl1, ch2, |ch1|, b, p, d);
    SpliceSplice(Image(cl0, ch2, b), p, d, e);
  }

  /** A transfer that goes on where another has stopped: together they are one. */
  lemma ProgressTwice(v: Volume, o: Origin, s1: Fat, cl1: seq<seq<byte>>, ch1: Chain, d: seq<byte>,
                      s2: Fat, cl2: seq<seq<byte>>, ch2: Chain, e: seq<byte>)
    requires InProgress(v, o, s1, cl1, ch1, d) && InProgress(v, Origin(s1, cl1, ch1, o.start + |d|), s2, cl2, ch2, e)
    ensures InProgress(v, o, s2, cl2, ch2, d + e)
  {
    hide Stored, Grown, Safe, AllSized, Offset;
    ProgressFacts(v, Origin(s1, cl1, ch1, o.start + |d|), s2, cl2, ch2, e);
    ProgressFacts(v, o, s1, cl1, ch1, d);
    GrownTrans(v, o.fat, o.chain, s1, ch1, s2, ch2);
    StoredTwice(o.clusters, cl1, ch1, cl2, ch2, v.BytesPerCluster(), o.start, d, e);
    SnugTwice(v, o.chain, ch1, ch2, o.start + |d|, o.start + |d + e|);
  }

  // ---- extending where the chain is not as long as it should be ----

  /** Old bytes kept and new bytes zero, as far as the clusters reach. */
  predicate WellExtended(before: seq<byte>, after: seq<byte>, size: nat, n: nat) {
    && |after| == |before| >= size && after[..size] == before[..size]
    && forall i :: size <= i < size + n && i < |after| ==> after[i] == 0
  }

  lemma ZerosAtEnd(img: seq<byte>, size: nat, n: nat)
    requires size + n <= |img|
    ensures WellExtended(img, Overlaid(img, size, Zeros(n)), size, n)
  {
  }

  lemma ZerosElsewhere(ones: seq<byte>, start: nat, size: nat, n: nat)
    requires start + n <= |ones| && n > 0 && size <= |ones| && start != size
    requires forall k :: 0 <= k < |ones| ==> ones[k] == 1
    ensures !WellExtended(ones, Overlaid(ones, start, Zeros(n)), size, n)
  {
    var after := Overlaid(ones, start, Zeros(n));
    assert after[start] == 0;
    if start > size {
      assert after[size] == ones[size] == 1;
    } else {
      assert after[..size][start] == 0 && ones[..size][start] == 1;
    }
  }

  /** The bytes of the chain, for clusters of the right size. */
  function WholeOf(v: Volume, cl: seq<seq<byte>>, ch: Chain): (img: seq<byte>)
    requires AllSized(v, cl) && InRange(v, ch)
    ensures |img| == Offset(|ch|, v.BytesPerCluster())
  {
    ChainSized(v, cl, ch);
    ImageLength(cl, ch, v.BytesPerCluster());
    Image(cl, ch, v.BytesPerCluster())
  }

  /** Zeros from `start` on extend every file of this size rightly. */
  ghost predicate ExtendsRightly(v: Volume, ch: Chain, start: nat, size: nat, n: nat)
    requires InRange(v, ch)
  {
    forall cl :: AllSized(v, cl) ==> WellExtended(WholeOf(v, cl, ch), Overlaid(WholeOf(v, cl, ch), start, Zeros(n)), size, n)
  }

  lemma OnlyAtEnd(v: Volume, ch: Chain, start: nat, size: nat, n: nat)
    requires v.Ok() && InRange(v, ch) && n > 0
    requires size <= Offset(|ch|, v.BytesPerCluster()) && start + n <= Offset(|ch|, v.BytesPerCluster())
    ensures ExtendsRightly(v, ch, start, size, n) <==> start == size
  {
    hide WellExtended, Overlaid, WholeOf, Offset, AllSized;
    if start == size {
      forall cl | AllSized(v, cl) ensures WellExtended(WholeOf(v, cl, ch), Overlaid(WholeOf(v, cl, ch), start, Zeros(n)), size, n) {
        ZerosAtEnd(WholeOf(v, cl, ch), size, n);
      }
    } else {
      var ones := seq(v.lastCluster + 1, _ => seq(v.BytesPerCluster(), _ => 1));
      OnesWhole(v, ones, ch);
      ZerosElsewhere(WholeOf(v, ones, ch), start, size, n);
    }
  }

  /**
   * Zeros from the remainder of the size on, in the last cluster of the chain: whatever the clusters hold, the old bytes
   * are kept and zeros put behind them exactly when the chain has one cluster more than full ones.
   */
  lemma ExtendRightExactly(v: Volume, ch0: Chain, ch: Chain, start: nat, size: nat, n: nat)
    requires v.Ok() && ch0 != [] && ch0 <= ch && InRange(v, ch) && n > 0
    requires size <= Offset(|ch0|, v.BytesPerCluster())
    requires start == Offset(|ch0| - 1, v.BytesPerCluster()) + size % v.BytesPerCluster()
    requires start + n <= Offset(|ch|, v.BytesPerCluster())
    ensures ExtendsRightly(v, ch, start, size, n) <==> |ch0| == size / v.BytesPerCluster() + 1
  {
    hide ExtendsRightly;
    OffsetMono(|ch0|, |ch|, v.BytesPerCluster());
    StartIsSize(v, |ch0|, size);
    OnlyAtEnd(v, ch, start, size, n);
  }

  lemma OnesWhole(v: Volume, ones: seq<seq<byte>>, ch: Chain)
    requires v.Ok() && InRange(v, ch) && ones == seq(v.lastCluster + 1, _ => seq(v.BytesPerCluster(), _ => 1))
    ensures AllSized(v, ones) && forall k :: 0 <= k < |WholeOf(v, ones, ch)| ==> WholeOf(v, ones, ch)[k] == 1
  {
    ChainSized(v, ones, ch);
    OnesImage(ones, ch, v.BytesPerCluster());
  }

  /** An overwrite, as far as it fits. */
  function Overlaid(s: seq<byte>, at: nat, d: seq<byte>): seq<byte> {
    if at + |d| <= |s| then Splice(s, at, d) else s
  }

  lemma StartIsSize(v: Volume, k: nat, size: nat)
    requires v.Ok() && k > 0
    ensures Offset(k - 1, v.BytesPerCluster()) + size % v.BytesPerCluster() == size <==> k == size / v.BytesPerCluster() + 1
  {
    var b := v.BytesPerCluster();
    PartsOf(v, size);
    SectorAndByte(v, size);
    OffsetIs(size / b, b);
    OffsetInjective(k - 1, size / b, b);
  }

  lemma {:induction false} OnesImage(cl: seq<seq<byte>>, ch: Chain, b: nat)
    requires Sized(cl, ch, b) && forall i :: 0 <= i < |ch| ==> cl[ch[i]] == seq(b, _ => 1)
    ensures forall k :: 0 <= k < |Image(cl, ch, b)| ==> Image(cl, ch, b)[k] == 1
  {
    if ch != [] { OnesImage(cl, ch[..|ch| - 1], b); }
  }

  // ---- reading ----

  /** `buf` is what the file holds from offset p on. */
  predicate Got(cl: seq<seq<byte>>, ch: Chain, b: nat, p: nat, buf: seq<byte>) {
    Sized(cl, ch, b) && p + |buf| <= |Image(cl, ch, b)| && buf == Image(cl, ch, b)[p..p + |buf|]
  }

  lemma GotJoin(cl: seq<seq<byte>>, ch: Chain, b: nat, p: nat, buf: seq<byte>, more: seq<byte>)
    requires Got(cl, ch, b, p, buf) && Got(cl, ch, b, p + |buf|, more)
    ensures Got(cl, ch, b, p, buf + more)
  {
    SliceJoin(Image(cl, ch, b), p, p + |buf|, p + |buf| + |more|);
  }

  /** Part of a cluster is what the file holds there. */
  lemma GotPart(cl: seq<seq<byte>>, ch: Chain, b: nat, j: nat, o: nat, n: nat)
    requires Sized(cl, ch, b) && j < |ch| && o + n <= b
    ensures ch[j] < |cl| && |cl[ch[j]]| == b
    ensures Got(cl, ch, b, Offset(j, b) + o, cl[ch[j]][o..o + n])
  {
    ImagePart(cl, ch, b, j, o, n);
  }

  lemma SliceJoin<T>(s: seq<T>, a: nat, m: nat, e: nat)
    requires a <= m <= e <= |s|
    ensures s[a..m] + s[m..e] == s[a..e]
  {
  }

  lemma GotContent(cl: seq<seq<byte>>, ch: Chain, b: nat, p: nat, buf: seq<byte>, size: nat)
    requires Got(cl, ch, b, p, buf) && p + |buf| <= size <= Offset(|ch|, b)
    ensures |Content(cl, ch, b, size)| == size && buf == Content(cl, ch, b, size)[p..p + |buf|]
  {
    ContentLength(cl, ch, b, size);
    SliceOfSlice(Image(cl, ch, b), 0, size, p, |buf|);
    assert Image(cl, ch, b)[0..size] == Content(cl, ch, b, size);
  }

  /** A place in or at the end of cluster j; after a read that crossed the end, some bytes beyond it. */
  predicate Reached(v: Volume, ch: Chain, j: nat, pos: Position, p: nat) {
    && j < |ch| && pos.cluster == ch[j]
    && pos.sector <= v.sectorsPerCluster && pos.byte < BYTES_PER_READ
    && p == Offset(j, v.BytesPerCluster()) + BYTES_PER_READ * pos.sector + pos.byte
  }

  /** The request as clipped at the end of the file, in 32-bit arithmetic. */
  function Clip(len: nat, position: nat, filesize: nat): nat
    requires position <= filesize
  {
    if (len + position) % 0x1_0000_0000 > filesize then filesize - position else len
  }

  /** A request is clipped to what the file holds exactly when its end can be told in 32 bits. */
  lemma ClipIsExact(len: nat, position: nat, filesize: nat)
    requires position < filesize < 0x1_0000_0000 && len < 0x8000_0000
    ensures Clip(len, position, filesize) == (if len + position > filesize then filesize - position else len)
            <==> len + position < 0x1_0000_0000
  {
    if len + position >= 0x1_0000_0000 {
      assert (len + position) % 0x1_0000_0000 == len + position - 0x1_0000_0000;
    }
  }

  /**
   * What a read of n bytes at offset p gives: the file's bytes, unless a position at the end of a cluster is
   * followed by less than a sector; then the first bytes of the next higher cluster number.
   */
  predicate ReadGives(v: Volume, cl: seq<seq<byte>>, ch: Chain, size: nat, pos: Position, p: nat, n: nat, data: seq<byte>) {
    if pos.sector < v.sectorsPerCluster || n >= BYTES_PER_READ then
      var file := Content(cl, ch, v.BytesPerCluster(), size);
      |file| == size && p + n <= size && data == file[p..p + n]
    else
      pos.cluster + 1 < |cl| && n <= |cl[pos.cluster + 1]| && data == cl[pos.cluster + 1][..n]
  }

  lemma ReadJoined(v: Volume, cl: seq<seq<byte>>, ch: Chain, size: nat, pos: Position, p: nat, n: nat, head: seq<byte>, rest: seq<byte>)
    requires v.Ok() && |head| + |rest| == n && p + n <= size <= Offset(|ch|, v.BytesPerCluster())
    requires Got(cl, ch, v.BytesPerCluster(), p + |head|, rest)
    requires pos.sector < v.sectorsPerCluster || n >= BYTES_PER_READ ==> Got(cl, ch, v.BytesPerCluster(), p, head)
    requires pos.sector >= v.sectorsPerCluster && n < BYTES_PER_READ ==>
      pos.cluster + 1 < |cl| && n <= |cl[pos.cluster + 1]| && head == cl[pos.cluster + 1][..n]
    ensures ReadGives(v, cl, ch, size, pos, p, n, head + rest)
  {
    hide Got, Content;
    if pos.sector < v.sectorsPerCluster || n >= BYTES_PER_READ {
      GotJoin(cl, ch, v.BytesPerCluster(), p, head, rest);
      GotContent(cl, ch, v.BytesPerCluster(), p, head + rest, size);
    } else {
      assert head + [] == head;
    }
  }

  /** From a position that names a byte, or for a sector or more, the bytes read are the file's. */
  lemma ReadGivesContent(v: Volume, cl: seq<seq<byte>>, ch: Chain, size: nat, pos: Position, p: nat, n: nat, data: seq<byte>)
    requires v.Ok() && ReadGives(v, cl, ch, size, pos, p, n, data)
    requires Normal(v, ch, pos, p) || n >= BYTES_PER_READ
    ensures var file := Content(cl, ch, v.BytesPerCluster(), size);
      |file| == size && p + n <= size && data == file[p..p + n]
  {
    if Normal(v, ch, pos, p) { NormalIsAt(v, ch, pos, p); }
  }

  /**
   * A short read from the end of a cluster gives the file's bytes, whatever the clusters hold, exactly when
   * the chain goes on with the next higher cluster number.
   */
  lemma ShortReadFromClusterEnd(v: Volume, ch: Chain, j: nat, n: nat)
    requires v.Ok() && InRange(v, ch) && Distinct(ch) && j + 1 < |ch| && v.lastCluster !in ch
    requires 0 < n < BYTES_PER_READ
    ensures (forall cl :: AllSized(v, cl) ==> Got(cl, ch, v.BytesPerCluster(), Offset(j + 1, v.BytesPerCluster()), cl[ch[j] + 1][..n]))
            <==> ch[j + 1] == ch[j] + 1
  {
    var b := v.BytesPerCluster();
    if ch[j + 1] == ch[j] + 1 {
      forall cl | AllSized(v, cl) ensures Got(cl, ch, b, Offset(j + 1, b), cl[ch[j + 1]][..n]) {
        GotPart(cl, ch, b, j + 1, 0, n);
      }
    } else {
      var cl := seq(v.lastCluster + 1, c => seq(b, _ => if c == ch[j] + 1 then 1 else 0));
      GotPart(cl, ch, b, j + 1, 0, n);
      assert AllSized(v, cl) && cl[ch[j] + 1][..n][0] == 1 && cl[ch[j + 1]][..n][0] == 0;
    }
  }

  /** Freeing a chain and starting a new one cannot fail. */
  lemma RestartFacts(v: Volume, s: Fat, ch: Chain)
    requires Safe(v, s, ch) && s.table[0] == CLUSTER_EOF
    ensures FatOk(v, ClearChain(s, ch))
    ensures var (s', n) := LinkFree(v, ClearChain(s, ch), CLUSTER_FREE); Safe(v, s', [n])
  {
    PlusBound(s.freeClusters, |ch|);
    var s1 := ClearChain(s, ch);
    assert s1.table[ch[0]] == CLUSTER_FREE;
    LinkStarts(v, s1);
    SearchIsComplete(v, s1);
  }

  lemma {:induction false} PlusBound(n: nat, k: nat)
    requires n < 0x1_0000_0000
    ensures Plus(n, k) < 0x1_0000_0000
  {
    if k > 0 { PlusBound(n, k - 1); }
  }

  // ---- truncating ----

  /** How many clusters a file of n bytes fills, the last one perhaps in part. */
  function Ceiling(v: Volume, n: nat): int
    requires v.Ok()
  {
    if n == 0 then 0 else (n - 1) / v.BytesPerCluster() + 1
  }

  /** Exactly the first clusters that a file of n bytes fills are kept; exactly the rest is freed. */
  predicate CutState(v: Volume, s0: Fat, ch0: Chain, s: Fat, ch: Chain, n: nat)
    requires FatOk(v, s0)
  {
    var k := Ceiling(v, n);
    && 0 < k <= |ch0| && ch == ch0[..k] && InRange(v, ch0)
    && s == TrimChain(s0, ch0, k)
  }

  /** The whole chain is freed and one cluster is taken. */
  predicate RestartState(v: Volume, s0: Fat, ch0: Chain, s: Fat, start: nat)
    requires FatOk(v, s0)
  {
    && ch0 != [] && FatOk(v, ClearChain(s0, ch0))
    && (s, start) == LinkFree(v, ClearChain(s0, ch0), CLUSTER_FREE)
  }

  function EndOfFile(v: Volume, ch: Chain, n: nat): Position
    requires v.Ok() && ch != []
  {
    Position(Last(ch),
             if n % v.BytesPerCluster() == 0 then v.sectorsPerCluster else n % v.BytesPerCluster() / BYTES_PER_READ,
             n % BYTES_PER_READ)
  }

  lemma CeilingCovers(v: Volume, ch: Chain, n: nat)
    requires v.Ok() && 0 < n <= Offset(|ch|, v.BytesPerCluster())
    ensures 0 < Ceiling(v, n) <= |ch| && n <= Offset(Ceiling(v, n), v.BytesPerCluster())
  {
    IndexInside(v, ch, n - 1);
    PartsOf(v, n - 1);
  }

  lemma CeilingAt(b: nat, n: nat, q: nat, r: nat)
    requires b > 0 && n == q * b + r && r < b && n > 0
    ensures (n - 1) / b + 1 == if r == 0 then q else q + 1
  {
    if r == 0 {
      assert q == 0 ==> q * b == 0;
      assert q * b == (q - 1) * b + b;
      DivMod(n - 1, b, q - 1, b - 1);
    } else {
      DivMod(n - 1, b, q, r - 1);
    }
  }

  /** A position computed from the size stands at the end of a chain of just as many clusters as the size fills. */
  lemma EndOfFileAgrees(v: Volume, ch: Chain, n: nat)
    requires v.Ok() && 0 < n && |ch| == Ceiling(v, n)
    ensures Agree(v, ch, EndOfFile(v, ch, n), n)
  {
    var b := v.BytesPerCluster();
    var q, r := n / b, n % b;
    assert n == q * b + r;
    CeilingAt(b, n, q, r);
    if r == 0 {
      SectorAndByte(v, n);
      assert EndForm(v, ch, EndOfFile(v, ch, n), n);
    } else {
      assert Normal(v, ch, EndOfFile(v, ch, n), n);
    }
  }

  lemma CutKeepsContent(v: Volume, cl: seq<seq<byte>>, ch: Chain, size: nat, n: nat, k: nat)
    requires Sized(cl, ch, v.BytesPerCluster()) && k <= |ch|
    requires n <= size <= Offset(|ch|, v.BytesPerCluster()) && n <= Offset(k, v.BytesPerCluster())
    ensures var b := v.BytesPerCluster();
      |Content(cl, ch, b, size)| == size && Content(cl, ch[..k], b, n) == Content(cl, ch, b, size)[..n]
  {
    var b := v.BytesPerCluster();
    ImagePrefix(cl, ch, b, k);
    ContentLength(cl, ch, b, size);
    ContentLength(cl, ch[..k], b, n);
  }

  lemma CutKeepsSafe(v: Volume, s: Fat, ch: Chain, k: nat)
    requires Safe(v, s, ch) && 0 < k <= |ch|
    ensures Safe(v, TrimChain(s, ch, k), ch[..k])
  {
    TrimKeepsPrefix(v, s, ch, k);
    if k < |ch| {
      PlusBound(s.freeClusters, |ch[k..]|);
      assert v.lastCluster !in ch[k..] && v.lastCluster + 1 !in ch[k..];
    } else {
      assert ch[..k] == ch;
    }
  }
}
