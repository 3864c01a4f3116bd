/**
 * Whole runs of cached and direct disc accesses against one flat disc, and when the two kinds of access agree.
 */
module CacheRuns {
  import opened Bytes
  import opened Geometry
  import opened FlatDisc
  import opened SectorCache

  /** No direct write touches a resident sector and no direct read a dirty resident one. */
  predicate Safe(es: seq<Entry>, op: Op) {
    match op
    case DirectRead(s) => !DirtyResident(es, s)
    case DirectWrite(s, _) => !Resident(es, s)
    case Flush => true
    case CachedRead(s, _, _) => s != CACHE_FREE
    case CachedWrite(s, _, _) => s != CACHE_FREE
    case CachedErase(s, _, _) => s != CACHE_FREE
  }

  lemma SectorSeen(es: seq<Entry>, ps: seq<Sector>, d: seq<Sector>, view: seq<Sector>, s: nat)
    requires Consistent(es, ps, d) && IsView(es, ps, d, view) && s < |d| && !DirtyResident(es, s)
    ensures d[s] == view[s]
  {
    if Resident(es, s) {
      var i :| 0 <= i < |es| && es[i].sector == s;
    }
  }

  lemma WrittenDirectly(es: seq<Entry>, ps: seq<Sector>, d: seq<Sector>, view: seq<Sector>, s: nat, x: Sector)
    requires Consistent(es, ps, d) && IsView(es, ps, d, view) && s < |d| && !Resident(es, s)
    ensures Consistent(es, ps, d[s := x]) && IsView(es, ps, d[s := x], view[s := x])
  {
    assert forall i :: 0 <= i < |es| ==> es[i].sector != s;
  }

  /** One access through the cache or directly. */
  method Access(c: Cache, op: Op) returns (result: seq<byte>)
    requires c.Valid() && c.disc.faulty == {} && Safe(c.cacheEntries[..], op)
    modifies c`view, c.disc, c.cacheEntries, c.pages
    ensures c.Valid() && c.view == FlatStep(old(c.view), op) && result == FlatResult(old(c.view), op)
  {
    result := [];
    match op
    case CachedRead(s, o, n) =>
      var ok;
      ghost var place;
      ok, result, place := c.ReadPartialSector(s, o, n);
      if !ok { result := []; }
    case CachedWrite(s, o, d) =>
      var _, _ := c.WritePartialSector(d, s, o);
    case CachedErase(s, o, d) =>
      var _, _ := c.EraseWritePartialSector(d, s, o);
    case Flush =>
      ghost var _ := c.Flush();
    case DirectRead(s) =>
      var ok, data := c.disc.ReadSector(s);
      if ok {
        SectorSeen(c.cacheEntries[..], c.pages[..], c.disc.sectors, c.view, s);
        result := data;
      }
    case DirectWrite(s, x) =>
      if s < |c.disc.sectors| {
        WrittenDirectly(c.cacheEntries[..], c.pages[..], c.disc.sectors, c.view, s, x);
        c.view := c.view[s := x];
      }
      var _ := c.disc.WriteSector(s, x);
  }

  /**
   * A run of any length, stopped before the first access that is not safe: every result is that of the flat
   * disc, and so is what can be seen afterwards.
   */
  method Run(c: Cache, ops: seq<Op>) returns (results: seq<seq<byte>>, done: nat)
    requires c.Valid() && c.disc.faulty == {}
    modifies c`view, c.disc, c.cacheEntries, c.pages
    ensures c.Valid() && done <= |ops|
    ensures done < |ops| ==> !Safe(c.cacheEntries[..], ops[done])
    ensures results == FlatResults(old(c.view), ops[..done])
    ensures c.view == FlatRun(old(c.view), ops[..done])
  {
    results, done := [], 0;
    while done < |ops|
      invariant done <= |ops| && c.Valid()
      invariant results == FlatResults(old(c.view), ops[..done])
      invariant c.view == FlatRun(old(c.view), ops[..done])
    {
      if !Safe(c.cacheEntries[..], ops[done]) {
        return;
      }
      assert ops[..done + 1][..done] == ops[..done] && ops[..done + 1][done] == ops[done];
      var result := Access(c, ops[done]);
      results := results + [result];
      done := done + 1;
    }
  }

  // ---- the condition is exact ----

  predicate Sees(es: seq<Entry>, ps: seq<Sector>, d: seq<Sector>, view: seq<Sector>) {
    Consistent(es, ps, d) && IsView(es, ps, d, view)
  }

  /** What is seen after a direct write is the flat disc with that sector overwritten. */
  predicate SeenAfter(es: seq<Entry>, ps: seq<Sector>, d: seq<Sector>, view: seq<Sector>, s: nat, x: Sector)
    requires s < |d| && s < |view|
  {
    Sees(es, ps, d[s := x], view[s := x])
  }

  /** A view of given pages and disc. */
  ghost function ViewOf(es: seq<Entry>, ps: seq<Sector>, d: seq<Sector>): (view: seq<Sector>)
    requires Consistent(es, ps, d)
    ensures IsView(es, ps, d, view)
  {
    seq(|d|, s requires 0 <= s < |d| =>
      if Resident(es, s) then (var i :| 0 <= i < |es| && es[i].sector == s; ps[i]) else d[s])
  }

  function OtherSector(s: Sector): (r: Sector)
    ensures r != s
  {
    var r: Sector := s[0 := (s[0] as int + 1) % 256];
    assert r[0] != s[0];
    r
  }

  /**
   * Whatever the pages and the disc hold, a direct read of a sector returns what is seen, exactly when the
   * sector is not dirty in the cache.
   */
  lemma DirectReadIsExact(es: seq<Entry>, n: nat, s: nat)
    requires s < n && exists ps, d :: |d| == n && Consistent(es, ps, d)
    ensures (forall ps, d, view :: |d| == n && Sees(es, ps, d, view) ==> d[s] == view[s])
            <==> !DirtyResident(es, s)
  {
    if DirtyResident(es, s) {
      var ps, d :| |d| == n && Consistent(es, ps, d);
      var i :| 0 <= i < |es| && es[i].sector == s && es[i].dirty;
      var ps' := ps[i := OtherSector(d[s])];
      assert Consistent(es, ps', d);
      assert Sees(es, ps', d, ViewOf(es, ps', d));
    } else {
      forall ps, d, view | |d| == n && Sees(es, ps, d, view) ensures d[s] == view[s] {
        SectorSeen(es, ps, d, view, s);
      }
    }
  }

  /** A direct write is seen, whatever is written, exactly when the sector is not resident. */
  lemma DirectWriteIsExact(es: seq<Entry>, ps: seq<Sector>, d: seq<Sector>, view: seq<Sector>, s: nat)
    requires Consistent(es, ps, d) && IsView(es, ps, d, view) && s < |d|
    ensures (forall x: Sector :: SeenAfter(es, ps, d, view, s, x)) <==> !Resident(es, s)
  {
    if Resident(es, s) {
      var i :| 0 <= i < |es| && es[i].sector == s;
      var x := OtherSector(ps[i]);
      assert view[s := x][es[i].sector] != ps[i];
      assert !SeenAfter(es, ps, d, view, s, x);
    } else {
      forall x: Sector ensures SeenAfter(es, ps, d, view, s, x) {
        WrittenDirectly(es, ps, d, view, s, x);
      }
    }
  }
}
