/**
 * A flat disc: a sequence of sectors, what cached and direct accesses do to it and return from it, and the record of
 * accesses that led from one state of it to another.
 */
module FlatDisc {
  import opened Bytes
  import opened Geometry

  type Sector = s: seq<byte> | |s| == BYTES_PER_READ witness seq(BYTES_PER_READ, _ => 0)

  datatype Op =
    | CachedRead(sector: nat, offset: nat, size: nat)
    | CachedWrite(sector: nat, offset: nat, data: seq<byte>)
    | CachedErase(sector: nat, offset: nat, data: seq<byte>)
    | Flush
    | DirectRead(sector: nat)
    | DirectWrite(sector: nat, page: Sector)

  predicate IsDirect(op: Op) { op.DirectRead? || op.DirectWrite? }

  /** The operation names a sector of a disc of n sectors. */
  predicate OnDisc(op: Op, n: nat) { !op.Flush? ==> op.sector < n }

  /** What an operation does to a flat disc; one that does not fit into a sector or on the disc does nothing. */
  function FlatStep(flat: seq<Sector>, op: Op): (r: seq<Sector>)
    ensures |r| == |flat|
  {
    match op
    case CachedWrite(s, o, d) => if s < |flat| && o + |d| <= BYTES_PER_READ then flat[s := Splice(flat[s], o, d)] else flat
    case CachedErase(s, o, d) => if s < |flat| && o + |d| <= BYTES_PER_READ then flat[s := Splice(Zeros(BYTES_PER_READ), o, d)] else flat
    case DirectWrite(s, x) => if s < |flat| then flat[s := x] else flat
    case _ => flat
  }

  /** What an operation returns on a flat disc. */
  function FlatResult(flat: seq<Sector>, op: Op): seq<byte> {
    match op
    case CachedRead(s, o, n) => if s < |flat| && o + n <= BYTES_PER_READ then flat[s][o..o + n] else []
    case DirectRead(s) => if s < |flat| then flat[s] else []
    case _ => []
  }

  function FlatRun(flat: seq<Sector>, ops: seq<Op>): seq<Sector> {
    if ops == [] then flat else FlatStep(FlatRun(flat, ops[..|ops| - 1]), ops[|ops| - 1])
  }

  function FlatResults(flat: seq<Sector>, ops: seq<Op>): seq<seq<byte>> {
    if ops == [] then []
    else FlatResults(flat, ops[..|ops| - 1]) + [FlatResult(FlatRun(flat, ops[..|ops| - 1]), ops[|ops| - 1])]
  }

  // ---- the record of accesses ----

  /** An access that was made, and what it returned. */
  datatype Access = Access(op: Op, result: seq<byte>)

  function Ops(h: seq<Access>): (ops: seq<Op>)
    ensures |ops| == |h|
  {
    if h == [] then [] else Ops(h[..|h| - 1]) + [h[|h| - 1].op]
  }

  function Results(h: seq<Access>): (rs: seq<seq<byte>>)
    ensures |rs| == |h|
  {
    if h == [] then [] else Results(h[..|h| - 1]) + [h[|h| - 1].result]
  }

  /** How many of the accesses went past the cache. */
  function Directs(ops: seq<Op>): nat {
    if ops == [] then 0 else Directs(ops[..|ops| - 1]) + if IsDirect(ops[|ops| - 1]) then 1 else 0
  }

  predicate AllOnDisc(ops: seq<Op>, n: nat) {
    ops == [] || (AllOnDisc(ops[..|ops| - 1], n) && OnDisc(ops[|ops| - 1], n))
  }

  /** The accesses lead from the disc `origin` to the disc `flat`, each returning what the flat disc returns. */
  predicate Traced(origin: seq<Sector>, h: seq<Access>, directs: nat, flat: seq<Sector>) {
    && flat == FlatRun(origin, Ops(h)) && Results(h) == FlatResults(origin, Ops(h))
    && directs == Directs(Ops(h)) && |flat| == |origin| && AllOnDisc(Ops(h), |origin|)
  }

  lemma RecordMore(h: seq<Access>, a: Access)
    ensures Ops(h + [a]) == Ops(h) + [a.op] && Results(h + [a]) == Results(h) + [a.result]
  {
    assert (h + [a])[..|h|] == h;
  }

  lemma RunMore(flat: seq<Sector>, ops: seq<Op>, op: Op)
    ensures FlatRun(flat, ops + [op]) == FlatStep(FlatRun(flat, ops), op)
    ensures FlatResults(flat, ops + [op]) == FlatResults(flat, ops) + [FlatResult(FlatRun(flat, ops), op)]
    ensures Directs(ops + [op]) == Directs(ops) + if IsDirect(op) then 1 else 0
    ensures AllOnDisc(ops + [op], |flat|) <==> AllOnDisc(ops, |flat|) && OnDisc(op, |flat|)
  {
    hide FlatStep, FlatResult, IsDirect, OnDisc;
    assert (ops + [op])[..|ops|] == ops;
  }

  lemma TracedMore(origin: seq<Sector>, h: seq<Access>, directs: nat, flat: seq<Sector>, op: Op)
    requires Traced(origin, h, directs, flat) && OnDisc(op, |flat|)
    ensures Traced(origin, h + [Access(op, FlatResult(flat, op))], directs + if IsDirect(op) then 1 else 0, FlatStep(flat, op))
  {
    hide FlatStep, FlatResult, IsDirect, FlatRun, FlatResults, Ops, Results, Directs, OnDisc, AllOnDisc;
    RecordMore(h, Access(op, FlatResult(flat, op)));
    RunMore(origin, Ops(h), op);
  }

  /** Since the record `h` only parts of sectors have been read, through the cache. */
  predicate OnlyReads(h: seq<Access>, now: seq<Access>) {
    h <= now && forall k :: |h| <= k < |now| ==> now[k].op.CachedRead?
  }

  // ---- sectors of a store of bytes ----

  function Sectors(store: seq<byte>): (r: seq<Sector>)
    ensures |r| == |store| / BYTES_PER_READ
  {
    seq(|store| / BYTES_PER_READ, i requires 0 <= i < |store| / BYTES_PER_READ => store[BYTES_PER_READ * i..BYTES_PER_READ * i + BYTES_PER_READ])
  }

  lemma SectorsRead(store: seq<byte>, s: nat, o: nat, n: nat)
    requires s < |store| / BYTES_PER_READ && o + n <= BYTES_PER_READ
    ensures BYTES_PER_READ * s + o + n <= |store|
    ensures Sectors(store)[s][o..o + n] == store[BYTES_PER_READ * s + o..BYTES_PER_READ * s + o + n]
  {
    SliceOfSlice(store, BYTES_PER_READ * s, BYTES_PER_READ, o, n);
  }

  /** An overwrite inside one sector is an overwrite of that sector. */
  lemma SectorsWritten(store: seq<byte>, s: nat, o: nat, d: seq<byte>)
    requires s < |store| / BYTES_PER_READ && o + |d| <= BYTES_PER_READ
    ensures BYTES_PER_READ * s + o + |d| <= |store|
    ensures Sectors(Splice(store, BYTES_PER_READ * s + o, d)) == Sectors(store)[s := Splice(Sectors(store)[s], o, d)]
  {
    var r := Splice(store, BYTES_PER_READ * s + o, d);
    var want := Sectors(store)[s := Splice(Sectors(store)[s], o, d)];
    forall i | 0 <= i < |Sectors(r)| ensures Sectors(r)[i] == want[i] {
      SectorWritten(store, s, o, d, i);
    }
  }

  lemma SectorWritten(store: seq<byte>, s: nat, o: nat, d: seq<byte>, i: nat)
    requires s < |store| / BYTES_PER_READ && o + |d| <= BYTES_PER_READ && i < |store| / BYTES_PER_READ
    ensures Sectors(Splice(store, BYTES_PER_READ * s + o, d))[i]
         == if i == s then Splice(Sectors(store)[s], o, d) else Sectors(store)[i]
  {
    var a := BYTES_PER_READ * s + o;
    var r := Splice(store, a, d);
    var x, y := Sectors(r)[i], if i == s then Splice(Sectors(store)[s], o, d) else Sectors(store)[i];
    forall k | 0 <= k < BYTES_PER_READ ensures x[k] == y[k] {
      assert x[k] == r[BYTES_PER_READ * i + k];
      assert Sectors(store)[i][k] == store[BYTES_PER_READ * i + k];
      if i == s { assert (a <= BYTES_PER_READ * i + k < a + |d|) == (o <= k < o + |d|); }
    }
  }

  /** The bytes of a sequence of sectors. */
  function Joined(flat: seq<Sector>): (r: seq<byte>)
    ensures |r| == BYTES_PER_READ * |flat|
  {
    if flat == [] then [] else flat[0] + Joined(flat[1..])
  }

  lemma {:induction false} JoinedAt(flat: seq<Sector>, i: nat)
    requires i < |flat|
    ensures Joined(flat)[BYTES_PER_READ * i..BYTES_PER_READ * i + BYTES_PER_READ] == flat[i]
  {
    if i > 0 {
      JoinedAt(flat[1..], i - 1);
      var a := BYTES_PER_READ * (i - 1);
      assert Joined(flat)[BYTES_PER_READ + a..BYTES_PER_READ + a + BYTES_PER_READ] == Joined(flat[1..])[a..a + BYTES_PER_READ];
    }
  }

  /** The sectors of a store, put together again, are the store. */
  lemma JoinedSectors(store: seq<byte>)
    requires |store| % BYTES_PER_READ == 0
    ensures Joined(Sectors(store)) == store
  {
    var r := Joined(Sectors(store));
    forall k | 0 <= k < |store| ensures r[k] == store[k] {
      var i, o := k / BYTES_PER_READ, k % BYTES_PER_READ;
      JoinedAt(Sectors(store), i);
      assert r[BYTES_PER_READ * i..BYTES_PER_READ * i + BYTES_PER_READ][o] == Sectors(store)[i][o];
    }
  }

  // ---- whole sectors ----

  /** The accesses of a direct transfer of several sectors. */
  function DirectWrites(s: nat, data: seq<byte>): (h: seq<Access>)
    decreases |data|
  {
    if |data| < BYTES_PER_READ then []
    else [Access(DirectWrite(s, data[..BYTES_PER_READ]), [])] + DirectWrites(s + 1, data[BYTES_PER_READ..])
  }

  function DirectReads(s: nat, data: seq<byte>): (h: seq<Access>)
    decreases |data|
  {
    if |data| < BYTES_PER_READ then []
    else [Access(DirectRead(s), data[..BYTES_PER_READ])] + DirectReads(s + 1, data[BYTES_PER_READ..])
  }

  lemma {:induction false} TracedWrites(origin: seq<Sector>, h: seq<Access>, directs: nat, store: seq<byte>, s: nat, n: nat, data: seq<byte>)
    requires Traced(origin, h, directs, Sectors(store)) && |data| == BYTES_PER_READ * n
    requires s + n <= |store| / BYTES_PER_READ
    ensures BYTES_PER_READ * s + |data| <= |store|
    ensures Traced(origin, h + DirectWrites(s, data), directs + n, Sectors(Splice(store, BYTES_PER_READ * s, data)))
    decreases n
  {
    hide Traced, Sectors;
    if n == 0 {
      SpliceNothing(store, BYTES_PER_READ * s);
      assert data == [] && h + [] == h;
    } else {
      var head, rest := data[..BYTES_PER_READ], data[BYTES_PER_READ..];
      var op := DirectWrite(s, head);
      var next := Splice(store, BYTES_PER_READ * s, head);
      TracedMore(origin, h, directs, Sectors(store), op);
      SectorsWritten(store, s, 0, head);
      assert Splice(Sectors(store)[s], 0, head) == head;
      TracedWrites(origin, h + [Access(op, [])], directs + 1, next, s + 1, n - 1, rest);
      SpliceSplice(store, BYTES_PER_READ * s, head, rest);
      assert head + rest == data;
      assert h + [Access(op, [])] + DirectWrites(s + 1, rest) == h + DirectWrites(s, data);
    }
  }

  lemma {:induction false} TracedReads(origin: seq<Sector>, h: seq<Access>, directs: nat, store: seq<byte>, s: nat, n: nat)
    requires Traced(origin, h, directs, Sectors(store)) && s + n <= |store| / BYTES_PER_READ
    ensures BYTES_PER_READ * (s + n) <= |store|
    ensures Traced(origin, h + DirectReads(s, store[BYTES_PER_READ * s..BYTES_PER_READ * (s + n)]), directs + n, Sectors(store))
    decreases n
  {
    hide Traced, Sectors;
    var data := store[BYTES_PER_READ * s..BYTES_PER_READ * (s + n)];
    if n == 0 {
      assert h + [] == h;
    } else {
      var op := DirectRead(s);
      TracedMore(origin, h, directs, Sectors(store), op);
      SectorsRead(store, s, 0, BYTES_PER_READ);
      var head, rest := data[..BYTES_PER_READ], data[BYTES_PER_READ..];
      SliceOfSlice(store, BYTES_PER_READ * s, BYTES_PER_READ * n, 0, BYTES_PER_READ);
      assert head == data[0..0 + BYTES_PER_READ];
      assert Sectors(store)[s] == Sectors(store)[s][0..0 + BYTES_PER_READ] == head;
      assert rest == store[BYTES_PER_READ * (s + 1)..BYTES_PER_READ * (s + n)];
      TracedReads(origin, h + [Access(op, head)], directs + 1, store, s + 1, n - 1);
      assert h + [Access(op, head)] + DirectReads(s + 1, rest) == h + DirectReads(s, data);
    }
  }
}
