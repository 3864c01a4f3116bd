/**
 * Every finite run of the table operations, on any number of files, keeps the chains disjoint,
 * acyclic and in range and the counter right, and no operation changes another file's clusters. The run
 * stops before an allocation that would not link its cluster or would leave the volume.
 */
module ChainRuns {
  import opened Geometry
  import opened Chains

  /** The table with the chains of all files. */
  datatype State = State(fat: Fat, chains: seq<Chain>)

  datatype Op =
    | Create              // a new chain of one cluster
    | Append(k: nat)      // one more cluster behind the end of chain k
    | Delete(k: nat)      // free chain k
    | Trim(k: nat, n: nat)  // keep the first n clusters of chain k

  predicate AllChains(v: Volume, t: seq<nat>, chains: seq<Chain>)
    requires |t| == v.lastCluster + 2
  {
    forall k :: 0 <= k < |chains| ==> IsChain(v, t, chains[k])
  }

  predicate PairwiseDisjoint(chains: seq<Chain>) {
    forall j, k :: 0 <= j < |chains| && 0 <= k < |chains| && j != k ==> Disjoint(chains[j], chains[k])
  }

  /** Every used cluster belongs to a file: nothing has leaked. */
  predicate NothingLeaked(v: Volume, st: State)
    requires |st.fat.table| == v.lastCluster + 2
  {
    forall c :: CLUSTER_FIRST <= c <= v.lastCluster && st.fat.table[c] != CLUSTER_FREE ==> Owned(st.chains, c)
  }

  predicate Owned(chains: seq<Chain>, c: nat) {
    exists k :: 0 <= k < |chains| && c in chains[k]
  }

  predicate Inv(v: Volume, st: State) {
    && FatOk(v, st.fat)
    && AllChains(v, st.fat.table, st.chains)
    && PairwiseDisjoint(st.chains)
    && st.fat.table[0] == CLUSTER_EOF
    && Counted(v, st.fat)
  }

  /**
   * An allocation behind a chain does what it should exactly then (LinkExtendsExactly): the chain does not end in the
   * last cluster of the volume, and the search hint does not name a free entry behind it.
   */
  predicate Allowed(v: Volume, st: State, op: Op)
    requires Inv(v, st)
  {
    match op
    case Create => !HintPastEnd(v, st.fat)
    case Append(k) => k < |st.chains| ==> Last(st.chains[k]) != v.lastCluster && !HintPastEnd(v, st.fat)
    case Delete(_) => true
    case Trim(_, _) => true
  }

  function Without(chains: seq<Chain>, k: nat): seq<Chain>
    requires k < |chains|
  {
    chains[..k] + chains[k + 1..]
  }

  function Step(v: Volume, st: State, op: Op): State
    requires Inv(v, st)
  {
    match op
    case Create =>
      var (fat, n) := LinkFree(v, st.fat, CLUSTER_FREE);
      if n == CLUSTER_FREE then st.(fat := fat) else State(fat, st.chains + [[n]])
    case Append(k) =>
      if k >= |st.chains| then st
      else
        var (fat, n) := LinkFree(v, st.fat, Last(st.chains[k]));
        if n == CLUSTER_FREE then st.(fat := fat) else State(fat, st.chains[k := st.chains[k] + [n]])
    case Delete(k) =>
      if k >= |st.chains| then st
      else State(ClearChain(st.fat, st.chains[k]), Without(st.chains, k))
    case Trim(k, n) =>
      if k >= |st.chains| then st
      else if n == 0 then State(ClearChain(st.fat, st.chains[k]), Without(st.chains, k))
      else State(TrimChain(st.fat, st.chains[k], n), st.chains[k := st.chains[k][..Min(n, |st.chains[k]|)]])
  }

  /** The chain an operation works on; none for Create. */
  function Target(st: State, op: Op): Chain {
    match op
    case Create => []
    case Append(k) => if k < |st.chains| then st.chains[k] else []
    case Delete(k) => if k < |st.chains| then st.chains[k] else []
    case Trim(k, _) => if k < |st.chains| then st.chains[k] else []
  }

  lemma CreateKeeps(v: Volume, st: State)
    requires Inv(v, st) && Allowed(v, st, Create)
    ensures Inv(v, Step(v, st, Create))
    ensures TouchesOnly(st.fat.table, Step(v, st, Create).fat.table, [])
  {
    LinkStarts(v, st.fat);
    LinkCounts(v, st.fat, CLUSTER_FREE);
    var (fat, n) := LinkFree(v, st.fat, CLUSTER_FREE);
    if n != CLUSTER_FREE {
      forall k | 0 <= k < |st.chains| ensures IsChain(v, fat.table, st.chains[k]) && n !in st.chains[k] {
        if n in st.chains[k] { ChainEntriesInUse(v, st.fat.table, st.chains[k], n); }
        OthersSurvive(v, st.fat.table, fat.table, [], st.chains[k]);
      }
    }
  }

  lemma AppendKeeps(v: Volume, st: State, k: nat)
    requires Inv(v, st) && Allowed(v, st, Append(k)) && k < |st.chains|
    ensures Inv(v, Step(v, st, Append(k)))
    ensures TouchesOnly(st.fat.table, Step(v, st, Append(k)).fat.table, st.chains[k])
  {
    var ch := st.chains[k];
    LinkExtends(v, st.fat, ch);
    LinkCounts(v, st.fat, Last(ch));
    var (fat, n) := LinkFree(v, st.fat, Last(ch));
    if n != CLUSTER_FREE {
      forall j | 0 <= j < |st.chains| ensures n !in st.chains[j] {
        if n in st.chains[j] { ChainEntriesInUse(v, st.fat.table, st.chains[j], n); }
      }
      OthersAfter(v, st, fat.table, k);
      DisjointAfter(st.chains, k, ch + [n]);
    }
  }

  lemma OthersAfter(v: Volume, st: State, r: seq<nat>, k: nat)
    requires Inv(v, st) && k < |st.chains| && TouchesOnly(st.fat.table, r, st.chains[k])
    ensures forall j :: 0 <= j < |st.chains| && j != k ==> IsChain(v, r, st.chains[j])
  {
    forall j | 0 <= j < |st.chains| && j != k ensures IsChain(v, r, st.chains[j]) {
      OthersSurvive(v, st.fat.table, r, st.chains[k], st.chains[j]);
    }
  }

  /** Replacing a chain by one with no foreign clusters keeps the chains disjoint. */
  lemma DisjointAfter(chains: seq<Chain>, k: nat, ch: Chain)
    requires PairwiseDisjoint(chains) && k < |chains|
    requires forall c, j :: c in ch && 0 <= j < |chains| && j != k ==> c !in chains[j]
    ensures PairwiseDisjoint(chains[k := ch])
  {
  }

  lemma DeleteKeeps(v: Volume, st: State, k: nat)
    requires Inv(v, st) && k < |st.chains|
    ensures Inv(v, State(ClearChain(st.fat, st.chains[k]), Without(st.chains, k)))
    ensures TouchesOnly(st.fat.table, ClearChain(st.fat, st.chains[k]).table, st.chains[k])
  {
    var ch := st.chains[k];
    forall c | c in ch ensures st.fat.table[c] != CLUSTER_FREE { ChainEntriesInUse(v, st.fat.table, ch, c); }
    ClearCounts(v, st.fat, ch);
    OthersAfter(v, st, ClearChain(st.fat, ch).table, k);
  }

  lemma TrimKeeps(v: Volume, st: State, k: nat, n: nat)
    requires Inv(v, st) && k < |st.chains| && 0 < n
    ensures Inv(v, Step(v, st, Trim(k, n)))
    ensures TouchesOnly(st.fat.table, Step(v, st, Trim(k, n)).fat.table, st.chains[k])
  {
    var ch := st.chains[k];
    TrimKeepsPrefix(v, st.fat, ch, n);
    TrimCounts(v, st.fat, ch, n);
    var r := TrimChain(st.fat, ch, n).table;
    OthersAfter(v, st, r, k);
    DisjointAfter(st.chains, k, ch[..Min(n, |ch|)]);
  }

  /** One operation keeps the invariant and changes no cluster of another file. */
  lemma StepKeeps(v: Volume, st: State, op: Op)
    requires Inv(v, st) && Allowed(v, st, op)
    ensures Inv(v, Step(v, st, op))
    ensures TouchesOnly(st.fat.table, Step(v, st, op).fat.table, Target(st, op))
  {
    match op
    case Create => CreateKeeps(v, st);
    case Append(k) => if k < |st.chains| { AppendKeeps(v, st, k); }
    case Delete(k) => if k < |st.chains| { DeleteKeeps(v, st, k); }
    case Trim(k, n) =>
      if k < |st.chains| {
        if n == 0 { DeleteKeeps(v, st, k); } else { TrimKeeps(v, st, k, n); }
      }
  }

  ghost function Run(v: Volume, st: State, ops: seq<Op>): State
    requires Inv(v, st)
    decreases |ops|
  {
    if ops == [] || !Allowed(v, st, ops[0]) then st
    else
      StepKeeps(v, st, ops[0]);
      Run(v, Step(v, st, ops[0]), ops[1..])
  }

  lemma OwnedBy(chains: seq<Chain>, k: nat, c: nat)
    requires k < |chains| && c in chains[k]
    ensures Owned(chains, c)
  {
  }

  lemma OwnedWithout(chains: seq<Chain>, k: nat, c: nat)
    requires k < |chains| && Owned(chains, c) && c !in chains[k]
    ensures Owned(Without(chains, k), c)
  {
    var j :| 0 <= j < |chains| && c in chains[j];
    OwnedBy(Without(chains, k), if j < k then j else j - 1, c);
  }

  lemma OwnedReplaced(chains: seq<Chain>, k: nat, ch: Chain, c: nat)
    requires k < |chains| && (c in ch || (Owned(chains, c) && c !in chains[k]))
    ensures Owned(chains[k := ch], c)
  {
    if c in ch {
      OwnedBy(chains[k := ch], k, c);
    } else {
      var j :| 0 <= j < |chains| && c in chains[j];
      OwnedBy(chains[k := ch], j, c);
    }
  }

  lemma OwnedAppended(chains: seq<Chain>, ch: Chain, c: nat)
    requires c in ch || Owned(chains, c)
    ensures Owned(chains + [ch], c)
  {
    if c in ch {
      OwnedBy(chains + [ch], |chains|, c);
    } else {
      var j :| 0 <= j < |chains| && c in chains[j];
      OwnedBy(chains + [ch], j, c);
    }
  }

  /** Conservation: a cluster in use before or after an operation stays accounted for by exactly the files. */
  lemma StepLeaksNothing(v: Volume, st: State, op: Op)
    requires Inv(v, st) && Allowed(v, st, op) && NothingLeaked(v, st)
    ensures Inv(v, Step(v, st, op)) && NothingLeaked(v, Step(v, st, op))
  {
    StepKeeps(v, st, op);
    var st' := Step(v, st, op);
    SearchIsComplete(v, st.fat);
    forall c | CLUSTER_FIRST <= c <= v.lastCluster && st'.fat.table[c] != CLUSTER_FREE
      ensures Owned(st'.chains, c)
    {
      LeaksNothingAt(v, st, op, c);
    }
  }

  lemma CreateLeaks(v: Volume, st: State, c: nat)
    requires Inv(v, st) && NothingLeaked(v, st) && CLUSTER_FIRST <= c <= v.lastCluster && Allowed(v, st, Create)
    requires |Step(v, st, Create).fat.table| == v.lastCluster + 2 && Step(v, st, Create).fat.table[c] != CLUSTER_FREE
    ensures Owned(Step(v, st, Create).chains, c)
  {
    hide AllChains, PairwiseDisjoint, Counted, Owned;
    LinkStarts(v, st.fat);
    var (fat, n) := LinkFree(v, st.fat, CLUSTER_FREE);
    if n != CLUSTER_FREE { OwnedAppended(st.chains, [n], c); }
  }

  lemma AppendLeaks(v: Volume, st: State, k: nat, c: nat)
    requires Inv(v, st) && NothingLeaked(v, st) && CLUSTER_FIRST <= c <= v.lastCluster && k < |st.chains| && Allowed(v, st, Append(k))
    requires |Step(v, st, Append(k)).fat.table| == v.lastCluster + 2 && Step(v, st, Append(k)).fat.table[c] != CLUSTER_FREE
    ensures Owned(Step(v, st, Append(k)).chains, c)
  {
    hide AllChains, PairwiseDisjoint, Counted, Owned;
    ChainOf(v, st, k);
    LinkExtends(v, st.fat, st.chains[k]);
    var (fat, n) := LinkFree(v, st.fat, Last(st.chains[k]));
    if n != CLUSTER_FREE { OwnedReplaced(st.chains, k, st.chains[k] + [n], c); }
  }

  lemma DeleteLeaks(v: Volume, st: State, k: nat, c: nat)
    requires Inv(v, st) && NothingLeaked(v, st) && CLUSTER_FIRST <= c <= v.lastCluster && k < |st.chains|
    requires |Step(v, st, Delete(k)).fat.table| == v.lastCluster + 2 && Step(v, st, Delete(k)).fat.table[c] != CLUSTER_FREE
    ensures Owned(Step(v, st, Delete(k)).chains, c)
  {
    hide AllChains, PairwiseDisjoint, Counted, Owned;
    OwnedWithout(st.chains, k, c);
  }

  lemma TrimLeaks(v: Volume, st: State, k: nat, n: nat, c: nat)
    requires Inv(v, st) && NothingLeaked(v, st) && CLUSTER_FIRST <= c <= v.lastCluster && k < |st.chains| && n > 0
    requires |Step(v, st, Trim(k, n)).fat.table| == v.lastCluster + 2 && Step(v, st, Trim(k, n)).fat.table[c] != CLUSTER_FREE
    ensures Owned(Step(v, st, Trim(k, n)).chains, c)
  {
    hide AllChains, PairwiseDisjoint, Counted, Owned;
    ChainOf(v, st, k);
    TrimmedAway(st.fat, st.chains[k], n, c);
    OwnedReplaced(st.chains, k, st.chains[k][..Min(n, |st.chains[k]|)], c);
  }

  lemma ChainOf(v: Volume, st: State, k: nat)
    requires Inv(v, st) && k < |st.chains|
    ensures IsChain(v, st.fat.table, st.chains[k])
  {
  }

  lemma LeaksNothingAt(v: Volume, st: State, op: Op, c: nat)
    requires Inv(v, st) && Allowed(v, st, op) && NothingLeaked(v, st) && CLUSTER_FIRST <= c <= v.lastCluster
    requires |Step(v, st, op).fat.table| == v.lastCluster + 2 && Step(v, st, op).fat.table[c] != CLUSTER_FREE
    ensures Owned(Step(v, st, op).chains, c)
  {
    hide Owned, LinkFree, ClearChain, TrimChain;
    match op
    case Create => CreateLeaks(v, st, c);
    case Append(k) => if k < |st.chains| { AppendLeaks(v, st, k, c); }
    case Delete(k) => if k < |st.chains| { DeleteLeaks(v, st, k, c); }
    case Trim(k, n) =>
      if k < |st.chains| {
        if n == 0 { DeleteLeaks(v, st, k, c); } else { TrimLeaks(v, st, k, n, c); }
      }
  }

  lemma TrimmedAway(s: Fat, ch: Chain, n: nat, c: nat)
    requires ch != [] && 0 < n && c < |s.table|
    requires forall i :: 0 <= i < |ch| ==> ch[i] < |s.table|
    requires TrimChain(s, ch, n).table[c] != CLUSTER_FREE
    ensures c in ch ==> c in ch[..Min(n, |ch|)]
    ensures s.table[c] != CLUSTER_FREE || (n < |ch| && c in ch[..n])
  {
    if n < |ch| {
      assert ch == ch[..n] + ch[n..];
      assert ch[n - 1] in ch[..n];
    } else {
      assert ch[..|ch|] == ch;
    }
  }

  /** Safety and conservation over whole runs. */
  lemma {:induction false} RunKeeps(v: Volume, st: State, ops: seq<Op>)
    requires Inv(v, st)
    ensures Inv(v, Run(v, st, ops))
    ensures NothingLeaked(v, st) ==> NothingLeaked(v, Run(v, st, ops))
    decreases |ops|
  {
    if ops != [] && Allowed(v, st, ops[0]) {
      StepKeeps(v, st, ops[0]);
      if NothingLeaked(v, st) { StepLeaksNothing(v, st, ops[0]); }
      RunKeeps(v, Step(v, st, ops[0]), ops[1..]);
    }
  }

  // ---- the search hint ----

  /** No operation makes the hint mislead the search: where it does, no cluster is free. */
  lemma StepKeepsHint(v: Volume, st: State, op: Op)
    requires Inv(v, st) && Allowed(v, st, op) && HintRight(v, st.fat)
    ensures Inv(v, Step(v, st, op)) && HintRight(v, Step(v, st, op).fat)
  {
    hide LinkFree;
    StepKeeps(v, st, op);
    match op
    case Create => HintAfter(v, st.fat, CLUSTER_FREE);
    case Append(k) => if k < |st.chains| { HintAfter(v, st.fat, Last(st.chains[k])); }
    case Delete(k) => if k < |st.chains| { ChainOf(v, st, k); }
    case Trim(k, n) => if k < |st.chains| { ChainOf(v, st, k); }
  }

  lemma {:induction false} RunKeepsHint(v: Volume, st: State, ops: seq<Op>)
    requires Inv(v, st) && HintRight(v, st.fat)
    ensures Inv(v, Run(v, st, ops)) && HintRight(v, Run(v, st, ops).fat)
    decreases |ops|
  {
    hide HintRight;
    if ops != [] && Allowed(v, st, ops[0]) {
      StepKeepsHint(v, st, ops[0]);
      RunKeepsHint(v, Step(v, st, ops[0]), ops[1..]);
    }
  }

  /**
   * From a volume as it is mounted, with the hint at the first cluster, a run of any length stops only before an append
   * behind the last cluster of the volume, or before an allocation while no cluster is free.
   */
  lemma StopsOnlyWhenFull(v: Volume, st: State, ops: seq<Op>, op: Op)
    requires Inv(v, st) && st.fat.firstFree == CLUSTER_FIRST
    ensures Inv(v, Run(v, st, ops))
    ensures var now := Run(v, st, ops);
      !Allowed(v, now, op) ==>
        (forall c :: CLUSTER_FIRST <= c <= v.lastCluster ==> now.fat.table[c] != CLUSTER_FREE)
        || (op.Append? && op.k < |now.chains| && Last(now.chains[op.k]) == v.lastCluster)
  {
    RunKeepsHint(v, st, ops);
  }

  /** Two allocations in a row on an empty volume give its first two clusters, and the hint follows. */
  lemma FirstTwo()
    ensures var v, s := Volume(1, 4, 1, 2, 2), Fat([CLUSTER_EOF, CLUSTER_EOF, 0, 0, 0, 0], 2, 4);
      && FatOk(v, s)
      && LinkFree(v, s, 0) == (Fat([CLUSTER_EOF, CLUSTER_EOF, CLUSTER_EOF, 0, 0, 0], 2, 3), 2)
      && LinkFree(v, LinkFree(v, s, 0).0, 2) == (Fat([CLUSTER_EOF, CLUSTER_EOF, 3, CLUSTER_EOF, 0, 0], 3, 2), 3)
  {
    var v, s := Volume(1, 4, 1, 2, 2), Fat([CLUSTER_EOF, CLUSTER_EOF, 0, 0, 0, 0], 2, 4);
    var s1 := Fat([CLUSTER_EOF, CLUSTER_EOF, CLUSTER_EOF, 0, 0, 0], 2, 3);
    assert Search(v, s.table, 2) == 2 by { FirstZeroMore(s.table, 2, 5); }
    assert LinkFree(v, s, 0).0.table == s1.table;
    assert Search(v, s1.table, 2) == 3 by { FirstZeroMore(s1.table, 2, 5); FirstZeroMore(s1.table, 3, 5); }
    assert LinkFree(v, s1, 2).0.table == [CLUSTER_EOF, CLUSTER_EOF, 3, CLUSTER_EOF, 0, 0];
  }

  /** No operation of the run works on the chain `ch`, wherever it stands in the list by then. */
  ghost predicate Spares(v: Volume, st: State, ops: seq<Op>, ch: Chain)
    requires Inv(v, st)
    decreases |ops|
  {
    if ops == [] || !Allowed(v, st, ops[0]) then true
    else
      StepKeeps(v, st, ops[0]);
      Target(st, ops[0]) != ch && Spares(v, Step(v, st, ops[0]), ops[1..], ch)
  }

  lemma StaysListed(chains: seq<Chain>, k: nat, x: Chain, ch: Chain)
    requires k < |chains| && ch in chains && chains[k] != ch
    ensures ch in chains[k := x] && ch in Without(chains, k)
  {
    var j :| 0 <= j < |chains| && chains[j] == ch;
    assert chains[k := x][j] == ch;
    assert Without(chains, k)[if j < k then j else j - 1] == ch;
  }

  lemma StepSparesChain(v: Volume, st: State, op: Op, ch: Chain)
    requires Inv(v, st) && ch in st.chains && Target(st, op) != ch
    ensures ch in Step(v, st, op).chains
  {
    if !op.Create? && op.k < |st.chains| {
      StaysListed(st.chains, op.k, st.chains[op.k] + [LinkFree(v, st.fat, Last(st.chains[op.k])).1], ch);
      if op.Trim? { StaysListed(st.chains, op.k, st.chains[op.k][..Min(op.n, |st.chains[op.k]|)], ch); }
    }
  }

  predicate SameEntries(t: seq<nat>, r: seq<nat>, ch: Chain) {
    |t| == |r| && forall c :: c in ch && c < |t| ==> r[c] == t[c]
  }

  lemma StepSparesEntries(v: Volume, st: State, op: Op, ch: Chain)
    requires Inv(v, st) && Allowed(v, st, op) && ch in st.chains && Target(st, op) != ch
    ensures SameEntries(st.fat.table, Step(v, st, op).fat.table, ch)
  {
    StepKeeps(v, st, op);
    var j :| 0 <= j < |st.chains| && st.chains[j] == ch;
    assert Disjoint(Target(st, op), st.chains[j]);
    forall c | c in ch && c < |st.fat.table| ensures Step(v, st, op).fat.table[c] == st.fat.table[c] {
      ChainEntriesInUse(v, st.fat.table, ch, c);
    }
  }

  /** A file on which a run does not work keeps its clusters, in order, and all its table entries. */
  lemma {:induction false} RunSparesOthers(v: Volume, st: State, ops: seq<Op>, ch: Chain)
    requires Inv(v, st) && ch in st.chains && Spares(v, st, ops, ch)
    ensures ch in Run(v, st, ops).chains
    ensures SameEntries(st.fat.table, Run(v, st, ops).fat.table, ch)
    decreases |ops|
  {
    if ops != [] && Allowed(v, st, ops[0]) {
      StepKeeps(v, st, ops[0]);
      StepSparesChain(v, st, ops[0], ch);
      StepSparesEntries(v, st, ops[0], ch);
      RunSparesOthers(v, Step(v, st, ops[0]), ops[1..], ch);
    }
  }

  // ---- without the guard ----

  /**
   * Linking behind the end of a chain makes the chain longer exactly when its last cluster is not the
   * last of the volume and the search hint does not point at a free entry behind it.
   */
  lemma LinkExtendsExactly(v: Volume, s: Fat, ch: Chain)
    requires FatOk(v, s) && IsChain(v, s.table, ch) && LinkFree(v, s, Last(ch)).1 != CLUSTER_FREE
    ensures var (s', n) := LinkFree(v, s, Last(ch));
      IsChain(v, s'.table, ch + [n]) <==> Last(ch) != v.lastCluster && !HintPastEnd(v, s)
  {
    SearchIsComplete(v, s);
    var (s', n) := LinkFree(v, s, Last(ch));
    if HintPastEnd(v, s) {
      assert (ch + [n])[|ch|] == v.lastCluster + 1;
    } else if Last(ch) == v.lastCluster {
      assert s'.table[Last(ch)] == CLUSTER_EOF;
      assert (ch + [n])[|ch| - 1] == Last(ch) && (ch + [n])[|ch|] == n;
    } else {
      LinkExtends(v, s, ch);
    }
  }

  /** A file ending in the last cluster of a volume with a free cluster: the allocated cluster is not linked. */
  lemma LinkLost()
    ensures exists v, s, ch ::
      && FatOk(v, s) && IsChain(v, s.table, ch)
      && LinkFree(v, s, Last(ch)).1 != CLUSTER_FREE
      && LinkFree(v, s, Last(ch)).0.table[Last(ch)] == CLUSTER_EOF
  {
    var v := Volume(1, 4, 1, 2, 2);
    var s := Fat([CLUSTER_EOF, CLUSTER_EOF, CLUSTER_FREE, CLUSTER_EOF, CLUSTER_EOF, CLUSTER_EOF], 2, 1);
    SearchIsComplete(v, s);
    var (s', n) := LinkFree(v, s, Last([4]));
    assert s.table[2] == CLUSTER_FREE;
    assert FatOk(v, s) && IsChain(v, s.table, [4]) && n != CLUSTER_FREE && s'.table[Last([4])] == CLUSTER_EOF;
  }

  /** With the hint behind the end and a free entry there, a cluster is given that is never marked as used. */
  lemma GivenButNotMarked(v: Volume, s: Fat)
    requires FatOk(v, s) && HintPastEnd(v, s) && !(CLUSTER_FIRST <= s.table[0] <= v.lastCluster)
    ensures var (s', n) := LinkFree(v, s, CLUSTER_FREE);
      && n == v.lastCluster + 1 && s'.table == s.table
      && (Counted(v, s) ==> !Counted(v, s'))
  {
    SearchIsComplete(v, s);
  }
}
