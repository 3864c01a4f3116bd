/**
 * The write-back sector cache with its least-used-page policy, over a disc of 512-byte sectors. What a
 * reader sees, the view, is the page of a resident sector and the disc elsewhere.
 */
module SectorCache {
  import opened Bytes
  import opened Geometry
  import opened FlatDisc

  const CACHE_FREE: nat := 0xFFFF_FFFF

  /** A disc on which some sectors may be unreadable and unwritable. */
  class Disc {
    var sectors: seq<Sector>
    const faulty: set<nat>

    constructor (contents: seq<Sector>, bad: set<nat>)
      ensures sectors == contents && faulty == bad
    {
      sectors := contents;
      faulty := bad;
    }

    function Works(sector: nat): bool
      reads this
    {
      sector < |sectors| && sector !in faulty
    }

    method ReadSector(sector: nat) returns (ok: bool, data: Sector)
      ensures ok == Works(sector)
      ensures ok ==> data == sectors[sector]
    {
      ok := sector < |sectors| && sector !in faulty;
      data := if ok then sectors[sector] else seq(BYTES_PER_READ, _ => 0);
    }

    method WriteSector(sector: nat, data: Sector) returns (ok: bool)
      modifies this
      ensures ok == old(Works(sector))
      ensures sectors == if ok then old(sectors)[sector := data] else old(sectors)
    {
      ok := sector < |sectors| && sector !in faulty;
      if ok {
        sectors := sectors[sector := data];
      }
    }
  }

  datatype Entry = Entry(sector: nat, count: nat, dirty: bool)

  predicate Resident(es: seq<Entry>, s: nat) {
    exists i :: 0 <= i < |es| && es[i].sector == s
  }

  predicate DirtyResident(es: seq<Entry>, s: nat) {
    exists i :: 0 <= i < |es| && es[i].sector == s && es[i].dirty
  }

  /** No sector is resident twice, clean pages equal the disc, free pages are clean and unused. */
  predicate Consistent(es: seq<Entry>, ps: seq<Sector>, d: seq<Sector>) {
    && |es| == |ps| && |d| <= CACHE_FREE
    && (forall i, j :: 0 <= i < j < |es| && es[i].sector != CACHE_FREE ==> es[i].sector != es[j].sector)
    && (forall i :: 0 <= i < |es| && es[i].sector != CACHE_FREE ==> es[i].sector < |d|)
    && (forall i :: 0 <= i < |es| && es[i].sector != CACHE_FREE && !es[i].dirty ==> ps[i] == d[es[i].sector])
    && (forall i :: 0 <= i < |es| && es[i].sector == CACHE_FREE ==> !es[i].dirty && es[i].count == 0)
    && (forall i :: 0 <= i < |es| ==> es[i].count <= 0xFFFF_FFFF)
  }

  /** The view: the page if resident, else the disc. */
  predicate IsView(es: seq<Entry>, ps: seq<Sector>, d: seq<Sector>, view: seq<Sector>)
    requires Consistent(es, ps, d)
  {
    && |view| == |d|
    && (forall i :: 0 <= i < |es| && es[i].sector != CACHE_FREE ==> view[es[i].sector] == ps[i])
    && (forall s :: 0 <= s < |d| && !Resident(es, s) ==> view[s] == d[s])
  }

  lemma ViewIsUnique(es: seq<Entry>, ps: seq<Sector>, d: seq<Sector>, v: seq<Sector>, w: seq<Sector>)
    requires Consistent(es, ps, d) && IsView(es, ps, d, v) && IsView(es, ps, d, w)
    ensures v == w
  {
    forall s | 0 <= s < |d| ensures v[s] == w[s] {
      if Resident(es, s) {
        var i :| 0 <= i < |es| && es[i].sector == s;
      }
    }
  }

  /** Writing a page back leaves the view as it is. */
  lemma WrittenBack(es: seq<Entry>, ps: seq<Sector>, d: seq<Sector>, view: seq<Sector>, i: nat)
    requires Consistent(es, ps, d) && IsView(es, ps, d, view) && i < |es| && es[i].sector != CACHE_FREE
    ensures var es', d' := es[i := es[i].(dirty := false)], d[es[i].sector := ps[i]];
      Consistent(es', ps, d') && IsView(es', ps, d', view)
  {
    var es', d' := es[i := es[i].(dirty := false)], d[es[i].sector := ps[i]];
    SameResidents(es, es');
  }

  lemma SameResidents(es: seq<Entry>, es': seq<Entry>)
    requires |es| == |es'| && forall i :: 0 <= i < |es| ==> es[i].sector == es'[i].sector
    ensures forall s :: Resident(es, s) <==> Resident(es', s)
  {
    forall s ensures Resident(es, s) <==> Resident(es', s) {
      if Resident(es, s) {
        var i :| 0 <= i < |es| && es[i].sector == s;
        assert es'[i].sector == s;
      }
      if Resident(es', s) {
        var i :| 0 <= i < |es| && es'[i].sector == s;
        assert es[i].sector == s;
      }
    }
  }

  lemma ResidentUnlessReplaced(es: seq<Entry>, i: nat, e: Entry, t: nat)
    requires i < |es| && Resident(es, t)
    ensures es[i].sector == t || Resident(es[i := e], t)
  {
    var j :| 0 <= j < |es| && es[j].sector == t;
    if j != i { assert es[i := e][j].sector == t; }
  }

  /** Loading a sector into a clean or free page leaves the view as it is. */
  lemma Loaded(es: seq<Entry>, ps: seq<Sector>, d: seq<Sector>, view: seq<Sector>, i: nat, s: nat, n: nat)
    requires Consistent(es, ps, d) && IsView(es, ps, d, view) && i < |es| && !es[i].dirty
    requires s < |d| && !Resident(es, s) && n <= 0xFFFF_FFFF
    ensures var es', ps' := es[i := Entry(s, n, false)], ps[i := d[s]];
      Consistent(es', ps', d) && IsView(es', ps', d, view)
  {
    var es', ps' := es[i := Entry(s, n, false)], ps[i := d[s]];
    forall t | 0 <= t < |d| && !Resident(es', t) ensures view[t] == d[t] {
      if Resident(es, t) { ResidentUnlessReplaced(es, i, es'[i], t); }
    }
    assert forall j :: 0 <= j < |es| ==> es[j].sector != s;
  }

  /** Counting a use changes nothing else. */
  lemma Used(es: seq<Entry>, ps: seq<Sector>, d: seq<Sector>, view: seq<Sector>, i: nat, n: nat)
    requires Consistent(es, ps, d) && IsView(es, ps, d, view) && i < |es| && es[i].sector != CACHE_FREE && n <= 0xFFFF_FFFF
    ensures var es' := es[i := es[i].(count := n)]; Consistent(es', ps, d) && IsView(es', ps, d, view)
  {
    SameResidents(es, es[i := es[i].(count := n)]);
  }

  /** Changing a resident page and marking it dirty changes the view there and nowhere else. */
  lemma Changed(es: seq<Entry>, ps: seq<Sector>, d: seq<Sector>, view: seq<Sector>, i: nat, page: Sector)
    requires Consistent(es, ps, d) && IsView(es, ps, d, view) && i < |es| && es[i].sector != CACHE_FREE
    ensures var es', ps' := es[i := es[i].(dirty := true)], ps[i := page];
      Consistent(es', ps', d) && IsView(es', ps', d, view[es[i].sector := page])
  {
    SameResidents(es, es[i := es[i].(dirty := true)]);
  }

  /** With no dirty page the view is the disc. */
  lemma CleanView(es: seq<Entry>, ps: seq<Sector>, d: seq<Sector>, view: seq<Sector>)
    requires Consistent(es, ps, d) && IsView(es, ps, d, view)
    requires forall i :: 0 <= i < |es| ==> !es[i].dirty
    ensures view == d
  {
    forall s | 0 <= s < |d| ensures view[s] == d[s] {
      if Resident(es, s) {
        var i :| 0 <= i < |es| && es[i].sector == s;
      }
    }
  }

  class Cache {
    const disc: Disc
    const cacheEntries: array<Entry>
    const pages: array<Sector>
    ghost var view: seq<Sector>

    ghost predicate Valid()
      reads this, disc, cacheEntries, pages
    {
      && 2 <= cacheEntries.Length == pages.Length <= CACHE_FREE
      && Consistent(cacheEntries[..], pages[..], disc.sectors)
      && IsView(cacheEntries[..], pages[..], disc.sectors, view)
    }

    lemma Shape()
      requires Valid()
      ensures 2 <= cacheEntries.Length == pages.Length && |view| == |disc.sectors| <= CACHE_FREE
    {
    }

    constructor (numberOfPages: nat, d: Disc)
      requires |d.sectors| <= CACHE_FREE && numberOfPages <= CACHE_FREE
      ensures Valid() && disc == d && fresh(cacheEntries) && fresh(pages)
      ensures view == d.sectors && pages.Length == if numberOfPages < 2 then 2 else numberOfPages
      ensures forall s :: s != CACHE_FREE ==> !Resident(cacheEntries[..], s)
    {
      var n := if numberOfPages < 2 then 2 else numberOfPages;
      disc := d;
      cacheEntries := new Entry[n](_ => Entry(CACHE_FREE, 0, false));
      pages := new Sector[n](_ => seq(BYTES_PER_READ, _ => 0));
      view := d.sectors;
    }

    /**
     * Only this page has changed. It held the sector before or, if one was free, nothing, and in both cases the disc is
     * as it was.
     */
    twostate predicate Touched(sector: nat, page: nat)
      reads this, disc, cacheEntries, pages
    {
      && page < cacheEntries.Length && cacheEntries[page].sector == sector
      && (forall j :: 0 <= j < cacheEntries.Length && j != page ==> cacheEntries[j] == old(cacheEntries[j]))
      && (old(Resident(cacheEntries[..], sector)) ==> old(cacheEntries[page].sector) == sector)
      && (old(cacheEntries[page].sector) == sector || !old(Resident(cacheEntries[..], CACHE_FREE))
          || old(cacheEntries[page].sector) == CACHE_FREE)
      && (old(cacheEntries[page].sector) == sector || old(cacheEntries[page].sector) == CACHE_FREE ==> disc.sectors == old(disc.sectors))
    }

    /**
     * The page of a sector, loaded if need be in place of a free or the least used page; CACHE_FREE on a disc
     * error. What is seen stays the same either way.
     */
    method GetSector(sector: nat) returns (page: nat)
      requires Valid() && sector != CACHE_FREE
      modifies disc, cacheEntries, pages
      ensures Valid() && |disc.sectors| == old(|disc.sectors|)
      ensures page == CACHE_FREE || (page < pages.Length && cacheEntries[page].sector == sector && sector < |view| && view[sector] == pages[page])
      ensures page != CACHE_FREE ==> Touched(sector, page)
      ensures page != CACHE_FREE ==> cacheEntries[page].count == (old(cacheEntries[page].count) + 1) % 0x1_0000_0000
      ensures page != CACHE_FREE ==> cacheEntries[page].dirty == old(cacheEntries[page].sector == sector && cacheEntries[page].dirty)
      ensures page != CACHE_FREE && !old(Resident(cacheEntries[..], sector)) ==>
                forall j :: 0 <= j < pages.Length ==> old(cacheEntries[page].count) <= old(cacheEntries[j].count)
      ensures old(Resident(cacheEntries[..], sector)) || (disc.faulty == {} && sector < |view|) ==> page != CACHE_FREE
    {
      var i, leastUsed := FindPage(sector);
      if i < cacheEntries.Length {
        Used(cacheEntries[..], pages[..], disc.sectors, view, i, Next(cacheEntries[i].count));
        cacheEntries[i] := cacheEntries[i].(count := Next(cacheEntries[i].count));
        return i;
      }
      page := Replace(leastUsed, sector);
    }

    function Next(count: nat): nat {
      if count >= 0xFFFF_FFFF then 0 else count + 1
    }

    /** The page that holds a sector, if any, and the page to give up: free if there is one, else least used. */
    method FindPage(sector: nat) returns (i: nat, leastUsed: nat)
      requires Valid() && sector != CACHE_FREE
      ensures i <= cacheEntries.Length && leastUsed < cacheEntries.Length
      ensures i < cacheEntries.Length <==> Resident(cacheEntries[..], sector)
      ensures i < cacheEntries.Length ==> cacheEntries[i].sector == sector
      ensures i == cacheEntries.Length ==> forall j :: 0 <= j < i ==> cacheEntries[leastUsed].count <= cacheEntries[j].count
      ensures i == cacheEntries.Length && Resident(cacheEntries[..], CACHE_FREE) ==> cacheEntries[leastUsed].sector == CACHE_FREE
    {
      hide IsView;
      i, leastUsed := 0, 0;
      var lowestCount := 0xFFFF_FFFF;
      while i < cacheEntries.Length && cacheEntries[i].sector != sector
        invariant i <= cacheEntries.Length && leastUsed < cacheEntries.Length
        invariant forall j :: 0 <= j < i ==> cacheEntries[j].sector != sector
        invariant forall j :: 0 <= j < i ==> lowestCount <= cacheEntries[j].count
        invariant lowestCount == 0xFFFF_FFFF || lowestCount == cacheEntries[leastUsed].count
        invariant cacheEntries[leastUsed].count <= lowestCount
        invariant (exists j :: 0 <= j < i && cacheEntries[j].sector == CACHE_FREE) ==> cacheEntries[leastUsed].sector == CACHE_FREE && lowestCount == 0
      {
        if cacheEntries[i].sector == CACHE_FREE || cacheEntries[i].count < lowestCount {
          leastUsed := i;
          lowestCount := cacheEntries[i].count;
        }
        i := i + 1;
      }
      assert i < cacheEntries.Length ==> cacheEntries[..][i].sector == sector;
      if i == cacheEntries.Length && Resident(cacheEntries[..], CACHE_FREE) {
        ghost var j :| 0 <= j < |cacheEntries[..]| && cacheEntries[..][j].sector == CACHE_FREE;
        assert cacheEntries[j].sector == CACHE_FREE;
      }
    }

    /** Writes a dirty page back and loads another sector into it. */
    method Replace(leastUsed: nat, sector: nat) returns (page: nat)
      requires Valid() && leastUsed < pages.Length && sector != CACHE_FREE && !Resident(cacheEntries[..], sector)
      modifies disc, cacheEntries, pages
      ensures Valid() && |disc.sectors| == old(|disc.sectors|)
      ensures page == CACHE_FREE || (page == leastUsed && cacheEntries[page].sector == sector && sector < |view| && view[sector] == pages[page])
      ensures page != CACHE_FREE ==> forall j :: 0 <= j < pages.Length && j != page ==> cacheEntries[j] == old(cacheEntries[j])
      ensures page != CACHE_FREE ==> cacheEntries[page] == Entry(sector, Next(old(cacheEntries[page].count)), false)
      ensures page != CACHE_FREE && old(cacheEntries[page].sector) == CACHE_FREE ==> disc.sectors == old(disc.sectors)
      ensures disc.faulty == {} && sector < |view| ==> page != CACHE_FREE
    {
      hide Consistent, IsView;
      DirtyIsUsed(leastUsed);
      if cacheEntries[leastUsed].sector != CACHE_FREE && cacheEntries[leastUsed].dirty {
        ResidentsUnder(leastUsed, sector);
        var ok := WriteBack(leastUsed);
        if !ok {
          return CACHE_FREE;
        }
      }
      page := Load(leastUsed, sector);
    }

    lemma ResidentsUnder(i: nat, sector: nat)
      requires i < cacheEntries.Length
      ensures var es := cacheEntries[..]; Resident(es[i := es[i].(dirty := false)], sector) <==> Resident(es, sector)
    {
      SameResidents(cacheEntries[..], cacheEntries[..][i := cacheEntries[i].(dirty := false)]);
    }

    /** A dirty page holds a sector of the disc, and a free one is clean. */
    lemma DirtyIsUsed(i: nat)
      requires Valid() && i < pages.Length
      ensures |view| == |disc.sectors|
      ensures cacheEntries[i].sector == CACHE_FREE ==> !cacheEntries[i].dirty
      ensures cacheEntries[i].sector != CACHE_FREE ==> cacheEntries[i].sector < |disc.sectors|
    {
    }

    /** Writes a dirty page back; it stays resident, and what is seen stays the same. */
    method WriteBack(i: nat) returns (ok: bool)
      requires Valid() && i < pages.Length && cacheEntries[i].dirty
      modifies disc, cacheEntries
      ensures Valid() && |disc.sectors| == old(|disc.sectors|)
      ensures cacheEntries[..] == if ok then old(cacheEntries[..])[i := old(cacheEntries[i]).(dirty := false)] else old(cacheEntries[..])
      ensures disc.faulty == {} ==> ok
    {
      hide Consistent, IsView;
      DirtyIsUsed(i);
      WrittenBack(cacheEntries[..], pages[..], disc.sectors, view, i);
      ok := disc.WriteSector(cacheEntries[i].sector, pages[i]);
      if ok {
        cacheEntries[i] := cacheEntries[i].(dirty := false);
      }
    }

    /** Reads a sector into a page that is clean. */
    method Load(i: nat, sector: nat) returns (page: nat)
      requires Valid() && i < pages.Length && !cacheEntries[i].dirty && sector != CACHE_FREE && !Resident(cacheEntries[..], sector)
      modifies cacheEntries, pages
      ensures Valid()
      ensures page == CACHE_FREE || (page == i && cacheEntries[page].sector == sector && sector < |view| && view[sector] == pages[page])
      ensures forall j :: 0 <= j < pages.Length && j != i ==> cacheEntries[j] == old(cacheEntries[j])
      ensures page != CACHE_FREE ==> cacheEntries[i] == Entry(sector, Next(old(cacheEntries[i].count)), false)
      ensures disc.faulty == {} && sector < |view| ==> page != CACHE_FREE
    {
      hide Consistent, IsView;
      DirtyIsUsed(i);
      var ok, data := disc.ReadSector(sector);
      if !ok {
        return CACHE_FREE;
      }
      Loaded(cacheEntries[..], pages[..], disc.sectors, view, i, sector, Next(cacheEntries[i].count));
      pages[i] := data;
      cacheEntries[i] := Entry(sector, Next(cacheEntries[i].count), cacheEntries[i].dirty);
      assert cacheEntries[..] == old(cacheEntries[..])[i := cacheEntries[i]] && pages[..] == old(pages[..])[i := data];
      assert cacheEntries[..][i].sector == sector;
      page := i;
    }

    /** Part of a sector. */
    method ReadPartialSector(sector: nat, offset: nat, size: nat) returns (ok: bool, data: seq<byte>, ghost place: nat)
      requires Valid() && sector != CACHE_FREE
      modifies disc, cacheEntries, pages
      ensures Valid() && view == old(view) && |disc.sectors| == old(|disc.sectors|)
      ensures ok ==> Touched(sector, place) && offset + size <= BYTES_PER_READ && sector < |view| && data == view[sector][offset..offset + size]
      ensures offset + size > BYTES_PER_READ ==> !ok
      ensures offset + size <= BYTES_PER_READ && (old(Resident(cacheEntries[..], sector)) || (disc.faulty == {} && sector < |view|)) ==> ok
    {
      if offset + size > BYTES_PER_READ {
        return false, [], 0;
      }
      var page := GetSector(sector);
      place := page;
      if page == CACHE_FREE {
        return false, [], 0;
      }
      data := pages[page][offset..offset + size];
      ok := true;
    }

    /** Part of a sector, the rest of it as it was. */
    method WritePartialSector(data: seq<byte>, sector: nat, offset: nat) returns (ok: bool, ghost place: nat)
      requires Valid() && sector != CACHE_FREE
      modifies this`view, disc, cacheEntries, pages
      ensures Valid() && |disc.sectors| == old(|disc.sectors|)
      ensures ok ==> offset + |data| <= BYTES_PER_READ && sector < |old(view)| && view == old(view)[sector := Splice(old(view)[sector], offset, data)]
      ensures ok ==> Touched(sector, place) && cacheEntries[place].dirty
      ensures !ok ==> view == old(view)
      ensures offset + |data| <= BYTES_PER_READ && (old(Resident(cacheEntries[..], sector)) || (disc.faulty == {} && sector < |view|)) ==> ok
    {
      if offset + |data| > BYTES_PER_READ {
        return false, 0;
      }
      var page := GetSector(sector);
      place := page;
      if page == CACHE_FREE {
        return false, 0;
      }
      SetPage(page, Splice(pages[page], offset, data));
      ok := true;
    }

    /** Part of a sector, the rest of it zeroed. */
    method EraseWritePartialSector(data: seq<byte>, sector: nat, offset: nat) returns (ok: bool, ghost place: nat)
      requires Valid() && sector != CACHE_FREE
      modifies this`view, disc, cacheEntries, pages
      ensures Valid() && |disc.sectors| == old(|disc.sectors|)
      ensures ok ==> offset + |data| <= BYTES_PER_READ && sector < |old(view)| && view == old(view)[sector := Splice(Zeros(BYTES_PER_READ), offset, data)]
      ensures ok ==> Touched(sector, place) && cacheEntries[place].dirty
      ensures !ok ==> view == old(view)
      ensures offset + |data| <= BYTES_PER_READ && (old(Resident(cacheEntries[..], sector)) || (disc.faulty == {} && sector < |view|)) ==> ok
    {
      if offset + |data| > BYTES_PER_READ {
        return false, 0;
      }
      var page := GetSector(sector);
      place := page;
      if page == CACHE_FREE {
        return false, 0;
      }
      SetPage(page, Splice(Zeros(BYTES_PER_READ), offset, data));
      ok := true;
    }

    /** Changes a resident page and marks it dirty. */
    method SetPage(page: nat, content: Sector)
      requires Valid() && page < pages.Length && cacheEntries[page].sector != CACHE_FREE
      modifies this`view, cacheEntries, pages
      ensures Valid() && old(cacheEntries[page].sector) < |old(view)| && view == old(view)[old(cacheEntries[page].sector) := content]
      ensures cacheEntries[page] == old(cacheEntries[page]).(dirty := true)
      ensures forall j :: 0 <= j < pages.Length && j != page ==> cacheEntries[j] == old(cacheEntries[j])
    {
      Changed(cacheEntries[..], pages[..], disc.sectors, view, page, content);
      view := view[cacheEntries[page].sector := content];
      pages[page] := content;
      cacheEntries[page] := cacheEntries[page].(dirty := true);
    }

    /** Writes every dirty page back and resets the counts; stops at a disc error. The view never changes. */
    method Flush() returns (ghost complete: bool)
      requires Valid()
      modifies disc, cacheEntries
      ensures Valid() && view == old(view) && pages[..] == old(pages[..])
      ensures complete ==> disc.sectors == view && forall i :: 0 <= i < pages.Length ==> !cacheEntries[i].dirty && cacheEntries[i].count == 0
      ensures disc.faulty == {} ==> complete
    {
      var i := 0;
      while i < cacheEntries.Length
        invariant Valid() && i <= cacheEntries.Length && pages[..] == old(pages[..])
        invariant forall j :: 0 <= j < i ==> !cacheEntries[j].dirty && cacheEntries[j].count == 0
      {
        var ok := FlushPage(i);
        if !ok {
          complete := false;
          return;
        }
        i := i + 1;
      }
      CleanView(cacheEntries[..], pages[..], disc.sectors, view);
      complete := true;
    }

    method FlushPage(i: nat) returns (ok: bool)
      requires Valid() && i < pages.Length
      modifies disc, cacheEntries
      ensures Valid() && pages[..] == old(pages[..])
      ensures ok ==> !cacheEntries[i].dirty && cacheEntries[i].count == 0
      ensures forall j :: 0 <= j < pages.Length && j != i ==> cacheEntries[j] == old(cacheEntries[j])
      ensures disc.faulty == {} ==> ok
    {
      hide Consistent, IsView;
      DirtyIsUsed(i);
      ok := true;
      if cacheEntries[i].dirty {
        ok := WriteBack(i);
        if !ok {
          return;
        }
      }
      ResetCount(i);
    }

    /** Forgets how often a clean page has been used. */
    method ResetCount(i: nat)
      requires Valid() && i < pages.Length && !cacheEntries[i].dirty
      modifies cacheEntries
      ensures Valid() && !cacheEntries[i].dirty && cacheEntries[i].count == 0
      ensures forall j :: 0 <= j < pages.Length && j != i ==> cacheEntries[j] == old(cacheEntries[j])
    {
      if cacheEntries[i].sector != CACHE_FREE {
        Used(cacheEntries[..], pages[..], disc.sectors, view, i, 0);
      }
      cacheEntries[i] := cacheEntries[i].(count := 0);
      assert cacheEntries[..] == old(cacheEntries[..])[i := cacheEntries[i]];
    }

    /** Forgets all pages, the dirty ones too: the view drops to the disc. */
    method Invalidate()
      requires Valid()
      modifies this`view, cacheEntries
      ensures Valid() && view == disc.sectors
      ensures forall s :: s != CACHE_FREE ==> !Resident(cacheEntries[..], s)
    {
      for i := 0 to cacheEntries.Length
        invariant forall j :: 0 <= j < i ==> cacheEntries[j] == Entry(CACHE_FREE, 0, false)
      {
        cacheEntries[i] := Entry(CACHE_FREE, 0, false);
      }
      view := disc.sectors;
    }
  }
}
