/**
 * Cluster chains: many disjoint linked lists in one table. What allocating, freeing and trimming do
 * to the table, to the search hint and to the counter of free clusters, and what every run of them keeps.
 */
module Chains {
  import opened Geometry
  import opened FatEntry

  type Chain = seq<nat>

  predicate Distinct(ch: Chain) {
    forall i, j :: 0 <= i < j < |ch| ==> ch[i] != ch[j]
  }

  predicate Disjoint(a: Chain, b: Chain) {
    forall c :: c in a ==> c !in b
  }

  predicate InRange(v: Volume, ch: Chain) {
    forall i :: 0 <= i < |ch| ==> CLUSTER_FIRST <= ch[i] <= v.lastCluster
  }

  /** The clusters of a file in order: acyclic, in range, each linked to the next, the last one marked. */
  predicate IsChain(v: Volume, t: seq<nat>, ch: Chain)
    requires |t| == v.lastCluster + 2
  {
    && ch != []
    && InRange(v, ch)
    && Distinct(ch)
    && (forall i {:trigger t[ch[i]]} :: 0 <= i < |ch| - 1 ==> t[ch[i]] == ch[i + 1])
    && t[ch[|ch| - 1]] == CLUSTER_EOF
  }

  function Last(ch: Chain): nat
    requires ch != []
  {
    ch[|ch| - 1]
  }

  /** The link of cluster k of a chain is cluster k + 1, or the end mark after the last one. */
  lemma NextInChain(v: Volume, t: seq<nat>, ch: Chain, k: nat)
    requires v.Ok() && |t| == v.lastCluster + 2 && IsChain(v, t, ch) && k < |ch|
    ensures CLUSTER_FIRST <= ch[k] <= v.lastCluster
    ensures t[ch[k]] == if k + 1 < |ch| then ch[k + 1] else CLUSTER_EOF
    ensures t[ch[k]] != CLUSTER_FREE && (t[ch[k]] == CLUSTER_EOF <==> k + 1 == |ch|)
  {
    if k + 1 < |ch| { assert t[ch[k]] == ch[k + 1]; }
  }

  lemma LengthOne(v: Volume, t: seq<nat>, ch: Chain)
    requires |t| == v.lastCluster + 2 && v.Ok() && IsChain(v, t, ch)
    ensures |ch| == 1 <==> t[ch[0]] == CLUSTER_EOF
    ensures |ch| > 1 ==> t[ch[0]] == ch[1] && IsChain(v, t, ch[1..])
  {
  }

  /** Following links from a cluster determines the chain, so a chain is known by its first cluster. */
  lemma {:induction false} ChainIsDetermined(v: Volume, t: seq<nat>, a: Chain, b: Chain)
    requires |t| == v.lastCluster + 2 && v.Ok()
    requires IsChain(v, t, a) && IsChain(v, t, b) && a[0] == b[0]
    ensures a == b
  {
    LengthOne(v, t, a);
    LengthOne(v, t, b);
    if |a| > 1 {
      ChainIsDetermined(v, t, a[1..], b[1..]);
      assert a == [a[0]] + a[1..] && b == [b[0]] + b[1..];
    }
  }

  // ---- allocation ----

  /** The state the three operations work on: the table, the search hint and the counter, a 32-bit number. */
  datatype Fat = Fat(table: seq<nat>, firstFree: nat, freeClusters: nat)

  predicate FatOk(v: Volume, s: Fat) {
    v.Ok() && |s.table| == v.lastCluster + 2 && s.firstFree <= v.lastCluster + 1 && s.freeClusters < 0x1_0000_0000
  }

  /** The first free entry from `from` on, or `end`. */
  function FirstZero(t: seq<nat>, from: nat, end: nat): (r: nat)
    requires from <= end <= |t|
    ensures from <= r <= end
    decreases end - from
  {
    if from == end || t[from] == CLUSTER_FREE then from else FirstZero(t, from + 1, end)
  }

  lemma {:induction false} FirstZeroIsFirst(t: seq<nat>, from: nat, end: nat)
    requires from <= end <= |t|
    ensures var r := FirstZero(t, from, end);
      && (r < end ==> t[r] == CLUSTER_FREE)
      && forall i :: from <= i < r ==> t[i] != CLUSTER_FREE
    decreases end - from
  {
    if from < end && t[from] != CLUSTER_FREE {
      FirstZeroIsFirst(t, from + 1, end);
    }
  }

  function SearchStart(firstFree: nat): nat {
    if firstFree < CLUSTER_FIRST then CLUSTER_FIRST else firstFree
  }

  /** The entry the wrap-around search stops at; 0 when it finds none. */
  function Search(v: Volume, t: seq<nat>, firstFree: nat): (r: nat)
    requires v.Ok() && |t| == v.lastCluster + 2 && firstFree <= v.lastCluster + 1
    ensures r <= v.lastCluster + 1
  {
    var from := SearchStart(firstFree);
    var end := if from > v.lastCluster then from + 1 else v.lastCluster + 1;
    var i := FirstZero(t, from, end);
    if i < end then i
    else
      var k := FirstZero(t, CLUSTER_FIRST, v.lastCluster + 1);
      if k <= v.lastCluster then k else CLUSTER_FREE
  }

  lemma FirstZeroMore(t: seq<nat>, from: nat, end: nat)
    requires from <= end <= |t|
    ensures from == end ==> FirstZero(t, from, end) == end
    ensures from < end ==> FirstZero(t, from, end) == if t[from] == CLUSTER_FREE then from else FirstZero(t, from + 1, end)
  {
  }

  /** How the two passes of the search make up its result. */
  lemma StartOfSearch(v: Volume, t: seq<nat>, firstFree: nat)
    requires v.Ok() && |t| == v.lastCluster + 2 && firstFree <= v.lastCluster + 1
    ensures var from := SearchStart(firstFree);
      var end := if from > v.lastCluster then from + 1 else v.lastCluster + 1;
      var i, k := FirstZero(t, from, end), FirstZero(t, CLUSTER_FIRST, v.lastCluster + 1);
      && (i < end ==> Search(v, t, firstFree) == i)
      && (i == end ==> Search(v, t, firstFree) == if k <= v.lastCluster then k else CLUSTER_FREE)
  {
  }

  /** The entry behind the last cluster is looked at first after a search has failed. */
  predicate HintPastEnd(v: Volume, s: Fat)
    requires FatOk(v, s)
  {
    s.firstFree == v.lastCluster + 1 && s.table[v.lastCluster + 1] == CLUSTER_FREE
  }

  /**
   * The search fails exactly when no cluster is free, and otherwise yields a free cluster in range,
   * unless the hint points at a free entry behind the last cluster.
   */
  lemma SearchIsComplete(v: Volume, s: Fat)
    requires FatOk(v, s)
    ensures var r := Search(v, s.table, s.firstFree);
      && (HintPastEnd(v, s) <==> r == v.lastCluster + 1)
      && (!HintPastEnd(v, s) ==>
            && (r == CLUSTER_FREE <==> forall c :: CLUSTER_FIRST <= c <= v.lastCluster ==> s.table[c] != CLUSTER_FREE)
            && (r != CLUSTER_FREE ==> CLUSTER_FIRST <= r <= v.lastCluster && s.table[r] == CLUSTER_FREE))
  {
    var t, last := s.table, v.lastCluster;
    var from := SearchStart(s.firstFree);
    FirstZeroIsFirst(t, from, if from > last then from + 1 else last + 1);
    FirstZeroIsFirst(t, CLUSTER_FIRST, last + 1);
  }

  /** The search gives the first free cluster from the hint on; only if there is none, the first of all. */
  lemma SearchIsFirst(v: Volume, s: Fat)
    requires FatOk(v, s) && !HintPastEnd(v, s) && Search(v, s.table, s.firstFree) != CLUSTER_FREE
    ensures var r := Search(v, s.table, s.firstFree);
      && CLUSTER_FIRST <= r <= v.lastCluster && s.table[r] == CLUSTER_FREE
      && (r >= s.firstFree ==> forall c :: CLUSTER_FIRST <= c < r && s.firstFree <= c ==> s.table[c] != CLUSTER_FREE)
      && (r < s.firstFree ==>
            && (forall c :: s.firstFree <= c <= v.lastCluster ==> s.table[c] != CLUSTER_FREE)
            && (forall c :: CLUSTER_FIRST <= c < r ==> s.table[c] != CLUSTER_FREE))
  {
    var t, last := s.table, v.lastCluster;
    var from := SearchStart(s.firstFree);
    FirstZeroIsFirst(t, from, if from > last then from + 1 else last + 1);
    FirstZeroIsFirst(t, CLUSTER_FIRST, last + 1);
  }

  /** With a sound hint the cluster given lies in range. */
  lemma LinkInRange(v: Volume, s: Fat, cluster: nat)
    requires FatOk(v, s) && !HintPastEnd(v, s)
    ensures var n := LinkFree(v, s, cluster).1; n == CLUSTER_FREE || CLUSTER_FIRST <= n <= v.lastCluster
  {
    SearchIsComplete(v, s);
  }

  /** Decrement and increment of an unsigned 32-bit counter. */
  function Minus1(n: nat): nat {
    if n == 0 then 0xFFFF_FFFF else n - 1
  }

  function Plus1(n: nat): nat {
    if n >= 0xFFFF_FFFF then 0 else n + 1
  }

  /** Both are taken modulo 2^32. */
  lemma CounterWraps(n: nat)
    requires n < 0x1_0000_0000
    ensures Plus1(n) == (n + 1) % 0x1_0000_0000 && Minus1(n) == (n + 0xFFFF_FFFF) % 0x1_0000_0000
  {
  }

  /** The counter after k increments. */
  function Plus(n: nat, k: nat): nat {
    if k == 0 then n else Plus1(Plus(n, k - 1))
  }

  /** The table after `n` has been allocated and linked from `cluster`; entries out of range are not written. */
  function LinkedTable(v: Volume, t: seq<nat>, cluster: nat, n: nat): (r: seq<nat>)
    requires |t| == v.lastCluster + 2
    ensures |r| == |t|
  {
    var t1 := if CLUSTER_FIRST <= cluster < v.lastCluster then t[cluster := ReadBack(v, n)] else t;
    if CLUSTER_FIRST <= n <= v.lastCluster then t1[n := CLUSTER_EOF] else t1
  }

  /** Linking a free cluster behind `cluster` (0: a new chain): the new state and the cluster given, 0 for none. */
  function LinkFree(v: Volume, s: Fat, cluster: nat): (r: (Fat, nat))
    requires FatOk(v, s)
  {
    if cluster > v.lastCluster then (s, CLUSTER_FREE)
    else if CLUSTER_FIRST <= s.table[cluster] <= v.lastCluster then (s, s.table[cluster])
    else
      var n := Search(v, s.table, s.firstFree);
      if n == CLUSTER_FREE then (s.(firstFree := v.lastCluster + 1), CLUSTER_FREE)
      else (Fat(LinkedTable(v, s.table, cluster, n), n, Minus1(s.freeClusters)), n)
  }

  /** No cluster can be allocated. */
  predicate NoneFree(v: Volume, t: seq<nat>) {
    forall c :: CLUSTER_FIRST <= c <= v.lastCluster && c < |t| ==> t[c] != CLUSTER_FREE
  }

  /**
   * The hint after an allocation is the cluster given. After one that has failed it stands behind the last cluster; no
   * cluster is free then. A link that is already there, or a cluster out of range, leaves it.
   */
  lemma HintAfter(v: Volume, s: Fat, cluster: nat)
    requires FatOk(v, s) && !HintPastEnd(v, s)
    ensures var (s', n) := LinkFree(v, s, cluster);
      && FatOk(v, s')
      && (n != CLUSTER_FREE && s' != s ==> s'.firstFree == n && CLUSTER_FIRST <= n <= v.lastCluster && !HintPastEnd(v, s'))
      && (n == CLUSTER_FREE && cluster <= v.lastCluster ==> s'.firstFree == v.lastCluster + 1 && NoneFree(v, s'.table))
      && (cluster > v.lastCluster || CLUSTER_FIRST <= s.table[cluster] <= v.lastCluster ==> s' == s)
  {
    SearchIsComplete(v, s);
  }

  /** The hint misleads the search only when there is nothing to find. */
  predicate HintRight(v: Volume, s: Fat)
    requires FatOk(v, s)
  {
    HintPastEnd(v, s) ==> NoneFree(v, s.table)
  }

  lemma {:induction false} PlusIsSum(n: nat, k: nat)
    requires n + k < 0x1_0000_0000
    ensures Plus(n, k) == n + k
  {
    if k > 0 { PlusIsSum(n, k - 1); }
  }

  // ---- freeing ----

  /** The table with every entry of `ch` free. */
  function FreeAll(t: seq<nat>, ch: Chain): (r: seq<nat>)
    ensures |r| == |t|
    ensures forall c :: 0 <= c < |t| ==> r[c] == if c in ch then CLUSTER_FREE else t[c]
  {
    seq(|t|, c requires 0 <= c < |t| => if c in ch then CLUSTER_FREE else t[c])
  }

  /** The table after the first k entries of a chain have been freed one by one. */
  function Freed(t: seq<nat>, ch: Chain, k: nat): (r: seq<nat>)
    requires k <= |ch|
    ensures |r| == |t|
  {
    if k == 0 then t
    else
      var r := Freed(t, ch, k - 1);
      if ch[k - 1] < |t| then r[ch[k - 1] := CLUSTER_FREE] else r
  }

  lemma {:induction false} FreedIs(t: seq<nat>, ch: Chain, k: nat)
    requires k <= |ch|
    ensures Freed(t, ch, k) == FreeAll(t, ch[..k])
  {
    if k > 0 {
      FreedIs(t, ch, k - 1);
      assert ch[..k] == ch[..k - 1] + [ch[k - 1]];
    }
  }

  lemma NothingFreed(v: Volume, t: seq<nat>, ch: Chain)
    requires |t| == v.lastCluster + 2 && IsChain(v, t, ch)
    ensures ch != [] && ch[..|ch|] == ch && InRange(v, ch) && Freed(t, ch, 0) == t
  {
  }

  /** Freeing the first clusters of a chain leaves the link of the next one. */
  lemma FreedNext(v: Volume, t: seq<nat>, ch: Chain, k: nat)
    requires v.Ok() && |t| == v.lastCluster + 2 && IsChain(v, t, ch) && k < |ch|
    ensures CLUSTER_FIRST <= ch[k] <= v.lastCluster
    ensures Freed(t, ch, k)[ch[k]] == if k + 1 < |ch| then ch[k + 1] else CLUSTER_EOF
    ensures Freed(t, ch, k + 1) == Freed(t, ch, k)[ch[k] := CLUSTER_FREE]
  {
    NextInChain(v, t, ch, k);
    FreedIs(t, ch, k);
    assert ch[k] !in ch[..k];
  }

  function Min(a: nat, b: nat): nat { if a < b then a else b }

  function ClearChain(s: Fat, ch: Chain): Fat
    requires ch != []
  {
    Fat(FreeAll(s.table, ch), Min(s.firstFree, ch[0]), Plus(s.freeClusters, |ch|))
  }

  /** Keeping the first n > 0 clusters of a chain. */
  function TrimChain(s: Fat, ch: Chain, n: nat): (r: Fat)
    requires ch != [] && 0 < n
    requires forall i :: 0 <= i < |ch| ==> ch[i] < |s.table|
  {
    if n >= |ch| then s
    else
      var freed := ClearChain(s, ch[n..]);
      freed.(table := freed.table[ch[n - 1] := CLUSTER_EOF])
  }

  lemma TrimIdle(s: Fat, ch: Chain, n: nat)
    requires ch != [] && 0 < n && forall i :: 0 <= i < |ch| ==> ch[i] < |s.table|
    ensures TrimChain(s, ch, n) == TrimChain(s, ch, Min(n, |ch|))
  {
  }

  // ---- what the operations do to chains ----

  /** Allocation behind the last cluster of a chain makes the chain longer by the cluster given. */
  lemma LinkExtends(v: Volume, s: Fat, ch: Chain)
    requires FatOk(v, s) && IsChain(v, s.table, ch)
    requires Last(ch) != v.lastCluster && !HintPastEnd(v, s)
    ensures var (s', n) := LinkFree(v, s, Last(ch));
      && FatOk(v, s')
      && (n == CLUSTER_FREE ==> s'.table == s.table)
      && (n != CLUSTER_FREE ==>
            && CLUSTER_FIRST <= n <= v.lastCluster && s.table[n] == CLUSTER_FREE
            && s'.table == s.table[Last(ch) := n][n := CLUSTER_EOF]
            && IsChain(v, s'.table, ch + [n]))
  {
    SearchIsComplete(v, s);
    var (s', n) := LinkFree(v, s, Last(ch));
    if n != CLUSTER_FREE {
      MarkSurvives(v, n);
      ExtendedChain(v, s.table, ch, n);
    }
  }

  lemma ExtendedChain(v: Volume, t: seq<nat>, ch: Chain, n: nat)
    requires v.Ok() && |t| == v.lastCluster + 2 && IsChain(v, t, ch)
    requires CLUSTER_FIRST <= n <= v.lastCluster && t[n] == CLUSTER_FREE
    ensures n !in ch
    ensures IsChain(v, t[Last(ch) := n][n := CLUSTER_EOF], ch + [n])
  {
    forall i | 0 <= i < |ch| ensures ch[i] != n {
      if i < |ch| - 1 { assert t[ch[i]] == ch[i + 1]; }
    }
  }

  /** Free entries belong to no chain. */
  lemma ChainEntriesInUse(v: Volume, t: seq<nat>, ch: Chain, c: nat)
    requires v.Ok() && |t| == v.lastCluster + 2 && IsChain(v, t, ch) && c in ch
    ensures t[c] != CLUSTER_FREE
  {
    var i :| 0 <= i < |ch| && ch[i] == c;
    if i < |ch| - 1 { assert t[ch[i]] == ch[i + 1]; }
  }

  /** A chain survives every change of entries that are not its own. */
  lemma ChainFrame(v: Volume, t: seq<nat>, r: seq<nat>, ch: Chain)
    requires |t| == |r| == v.lastCluster + 2 && IsChain(v, t, ch)
    requires forall i :: 0 <= i < |ch| ==> r[ch[i]] == t[ch[i]]
    ensures IsChain(v, r, ch)
  {
  }

  /** A new chain of one cluster. */
  lemma LinkStarts(v: Volume, s: Fat)
    requires FatOk(v, s) && !HintPastEnd(v, s)
    requires !(CLUSTER_FIRST <= s.table[0] <= v.lastCluster)
    ensures var (s', n) := LinkFree(v, s, CLUSTER_FREE);
      && FatOk(v, s')
      && (n == CLUSTER_FREE ==> s'.table == s.table)
      && (n != CLUSTER_FREE ==>
            && CLUSTER_FIRST <= n <= v.lastCluster && s.table[n] == CLUSTER_FREE
            && s'.table == s.table[n := CLUSTER_EOF]
            && IsChain(v, s'.table, [n]))
  {
    SearchIsComplete(v, s);
  }

  /** Keeping a non-empty prefix of a chain leaves that prefix as a chain. */
  lemma TrimKeepsPrefix(v: Volume, s: Fat, ch: Chain, n: nat)
    requires FatOk(v, s) && IsChain(v, s.table, ch) && 0 < n
    ensures var k := Min(n, |ch|); IsChain(v, TrimChain(s, ch, n).table, ch[..k])
  {
    if n < |ch| {
      var t := TrimChain(s, ch, n).table;
      forall i | 0 <= i < n - 1 ensures t[ch[i]] == ch[i + 1] {
        assert ch[i] !in ch[n..];
      }
    }
  }

  /** Only entries of the chain operated on and entries that were free change. */
  predicate TouchesOnly(t: seq<nat>, r: seq<nat>, ch: Chain) {
    |t| == |r| && forall c :: 0 <= c < |t| && r[c] != t[c] ==> c in ch || t[c] == CLUSTER_FREE
  }

  /** The chains of other files survive a change that touches one chain and free entries only. */
  lemma OthersSurvive(v: Volume, t: seq<nat>, r: seq<nat>, ch: Chain, other: Chain)
    requires v.Ok() && |t| == v.lastCluster + 2 && TouchesOnly(t, r, ch)
    requires IsChain(v, t, other) && Disjoint(ch, other)
    ensures IsChain(v, r, other)
  {
    forall i | 0 <= i < |other| ensures r[other[i]] == t[other[i]] {
      ChainEntriesInUse(v, t, other, other[i]);
    }
    ChainFrame(v, t, r, other);
  }

  // ---- counting ----

  function FreeSet(v: Volume, t: seq<nat>): set<nat> {
    set c: nat | CLUSTER_FIRST <= c < v.lastCluster + 2 && c < |t| && t[c] == CLUSTER_FREE
  }

  /** The number of free entries, the one behind the last cluster included, as counted when mounting. */
  function FreeCount(v: Volume, t: seq<nat>): nat { |FreeSet(v, t)| }

  function ClusterSet(ch: Chain): set<nat> {
    set c | c in ch
  }

  lemma {:induction false} SetOfDistinct(ch: Chain)
    requires Distinct(ch)
    ensures |ClusterSet(ch)| == |ch|
  {
    if ch == [] {
      assert ClusterSet(ch) == {};
    } else {
      SetOfDistinct(ch[1..]);
      assert ch[0] !in ch[1..];
      assert ClusterSet(ch) == ClusterSet(ch[1..]) + {ch[0]};
    }
  }

  lemma {:induction false} SubsetCount(n: nat, s: set<nat>)
    requires forall c :: c in s ==> c < n
    ensures |s| <= n
  {
    if n == 0 {
      assert s == {};
    } else {
      SubsetCount(n - 1, s - {n - 1});
    }
  }

  /** Freeing a chain frees as many entries as the chain is long. */
  lemma FreeAllCount(v: Volume, t: seq<nat>, ch: Chain)
    requires v.Ok() && |t| == v.lastCluster + 2 && InRange(v, ch) && Distinct(ch)
    requires forall c :: c in ch ==> t[c] != CLUSTER_FREE
    ensures FreeCount(v, FreeAll(t, ch)) == FreeCount(v, t) + |ch| < 0x1_0000_0000
  {
    var s := ClusterSet(ch);
    assert FreeSet(v, FreeAll(t, ch)) == FreeSet(v, t) + s;
    assert FreeSet(v, t) * s == {};
    SetOfDistinct(ch);
    SubsetCount(v.lastCluster + 2, FreeSet(v, FreeAll(t, ch)));
  }

  /** Putting a mark or link into a free entry takes one off the count; into a used one, nothing. */
  lemma UseCount(v: Volume, t: seq<nat>, c: nat, x: nat)
    requires |t| == v.lastCluster + 2 && CLUSTER_FIRST <= c < |t| && x != CLUSTER_FREE
    ensures FreeCount(v, t[c := x]) == FreeCount(v, t) - (if t[c] == CLUSTER_FREE then 1 else 0)
  {
    assert FreeSet(v, t[c := x]) == FreeSet(v, t) - {c};
    assert c in FreeSet(v, t) <==> t[c] == CLUSTER_FREE;
    if c !in FreeSet(v, t) {
      assert FreeSet(v, t) - {c} == FreeSet(v, t);
    }
  }

  /** The counter is right. */
  predicate Counted(v: Volume, s: Fat) { s.freeClusters == FreeCount(v, s.table) }

  lemma LinkCounts(v: Volume, s: Fat, cluster: nat)
    requires FatOk(v, s) && Counted(v, s) && !HintPastEnd(v, s)
    requires cluster <= v.lastCluster ==> cluster < CLUSTER_FIRST || s.table[cluster] != CLUSTER_FREE
    ensures var (s', n) := LinkFree(v, s, cluster); FatOk(v, s') && Counted(v, s')
  {
    SearchIsComplete(v, s);
    var (s', n) := LinkFree(v, s, cluster);
    if s' != s && n != CLUSTER_FREE {
      MarkSurvives(v, n);
      assert n in FreeSet(v, s.table);
      if CLUSTER_FIRST <= cluster < v.lastCluster {
        UseCount(v, s.table, cluster, n);
        UseCount(v, s.table[cluster := n], n, CLUSTER_EOF);
      } else {
        UseCount(v, s.table, n, CLUSTER_EOF);
      }
    }
  }

  lemma ClearCounts(v: Volume, s: Fat, ch: Chain)
    requires FatOk(v, s) && Counted(v, s) && ch != [] && InRange(v, ch) && Distinct(ch)
    requires forall c :: c in ch ==> s.table[c] != CLUSTER_FREE
    ensures FatOk(v, ClearChain(s, ch)) && Counted(v, ClearChain(s, ch))
  {
    FreeAllCount(v, s.table, ch);
    PlusIsSum(s.freeClusters, |ch|);
  }

  lemma TrimCounts(v: Volume, s: Fat, ch: Chain, n: nat)
    requires FatOk(v, s) && Counted(v, s) && IsChain(v, s.table, ch) && 0 < n
    ensures FatOk(v, TrimChain(s, ch, n)) && Counted(v, TrimChain(s, ch, n))
  {
    if n < |ch| {
      forall c | c in ch[n..] ensures s.table[c] != CLUSTER_FREE {
        assert c in ch;
        ChainEntriesInUse(v, s.table, ch, c);
      }
      ClearCounts(v, s, ch[n..]);
      assert ch[n - 1] !in ch[n..];
      assert s.table[ch[n - 1]] == ch[n];
      UseCount(v, ClearChain(s, ch[n..]).table, ch[n - 1], CLUSTER_EOF);
    }
  }
}
