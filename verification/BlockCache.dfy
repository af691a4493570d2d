/**
  The write-back block cache over its devices (src/block/cache.c).

  A device is a finite map from sector addresses to sectors.  `history` records
  the device contents after every single sector write, so "a crash at any
  prefix of the issued writes" is "any element of `history`".
 */
module BlockCache {
  import opened Bytes

  const SECTOR_SIZE := 512
  const CACHE_SECTORS := 8
  const CACHE_MAX := 16

  type Sector = s: seq<u8> | |s| == SECTOR_SIZE witness Zeros(512)

  datatype Loc = Loc(dev: nat, lba: nat)

  type Disk = map<Loc, Sector>

  datatype State = Empty | Clean | Dirty

  /** `bound` says the entry's device pointer is set; `dev` is the remembered device id. */
  datatype Entry = Entry(bound: bool, dev: nat, lba: nat, sectors: nat, state: State, data: seq<Sector>)

  function Page(lba: nat): nat
  {
    lba - lba % CACHE_SECTORS
  }

  predicate Holds(e: Entry, dev: nat, page: nat)
  {
    !e.state.Empty? && e.dev == dev && e.lba == page
  }

  /** The last device sector a writeback of the entry reaches. */
  function LastSector(e: Entry): Loc
  {
    Loc(e.dev, if e.sectors == 0 then e.lba else e.lba + e.sectors - 1)
  }

  /** The entry holding a page, or -1. */
  function Find(entries: seq<Entry>, dev: nat, page: nat): (i: int)
    ensures -1 <= i < |entries|
    ensures i >= 0 ==> Holds(entries[i], dev, page)
    ensures i < 0 ==> forall k :: 0 <= k < |entries| ==> !Holds(entries[k], dev, page)
  {
    if entries == [] then -1
    else
      var n := |entries| - 1;
      var r := Find(entries[..n], dev, page);
      if r >= 0 then r else if Holds(entries[n], dev, page) then n else -1
  }

  function Min(a: nat, b: nat): nat { if a < b then a else b }

  // ---- the logical view ---------------------------------------------------

  /** What a reader sees at `loc`: the cached sector when its page is resident. */
  ghost function Peek(entries: seq<Entry>, disk: Disk, loc: Loc): Sector
    requires loc in disk
  {
    var i := Find(entries, loc.dev, Page(loc.lba));
    if i >= 0 && |entries[i].data| == CACHE_SECTORS then entries[i].data[loc.lba % CACHE_SECTORS] else disk[loc]
  }

  ghost function ViewOf(entries: seq<Entry>, disk: Disk): (v: Disk)
    ensures v.Keys == disk.Keys
    ensures forall loc :: loc in disk ==> v[loc] == Peek(entries, disk, loc)
  {
    map loc | loc in disk :: Peek(entries, disk, loc)
  }

  ghost predicate DirtyAt(entries: seq<Entry>, loc: Loc)
  {
    var i := Find(entries, loc.dev, Page(loc.lba));
    i >= 0 && entries[i].state.Dirty?
  }

  // ---- representation invariant -------------------------------------------

  ghost predicate DiskShape(sizes: map<nat, nat>, disk: Disk)
  {
    forall loc :: loc in disk <==> loc.dev in sizes && loc.lba < sizes[loc.dev]
  }

  ghost predicate EntryOk(sizes: map<nat, nat>, e: Entry)
  {
    && |e.data| == CACHE_SECTORS
    && (!e.state.Empty? ==>
          && e.bound
          && e.dev in sizes
          && e.lba % CACHE_SECTORS == 0
          && e.lba < sizes[e.dev]
          && e.sectors == Min(CACHE_SECTORS, sizes[e.dev] - e.lba))
  }

  /** At most one live entry per page. */
  ghost predicate OnePerPage(entries: seq<Entry>)
  {
    forall i, j ::
      (0 <= i < |entries| && 0 <= j < |entries| && i != j && !entries[i].state.Empty? && !entries[j].state.Empty?)
      ==> entries[i].dev != entries[j].dev || entries[i].lba != entries[j].lba
  }

  ghost predicate Good(sizes: map<nat, nat>, entries: seq<Entry>, disk: Disk)
  {
    && |entries| == CACHE_MAX
    && DiskShape(sizes, disk)
    && (forall i :: 0 <= i < |entries| ==> EntryOk(sizes, entries[i]))
    && OnePerPage(entries)
    && (forall loc :: loc in disk && !DirtyAt(entries, loc) ==> disk[loc] == Peek(entries, disk, loc))
  }

  // ---- what a device may look like while cached pages land ----------------

  predicate SamePage(p: Loc, q: Loc)
  {
    p.dev == q.dev && Page(p.lba) == Page(q.lba) && p.lba <= q.lba
  }

  /**
    `h` is `a` with, in every page, some leading sectors already replaced by
    those of `b`: the state left when page writes from `a` towards `b` are cut
    off at an arbitrary sector.
   */
  ghost predicate PageMix(h: Disk, a: Disk, b: Disk)
  {
    && h.Keys == a.Keys == b.Keys
    && (forall p :: p in h ==> h[p] == a[p] || h[p] == b[p])
    && (forall p, q {:trigger SamePage(p, q)} :: p in h && q in h && SamePage(p, q) ==>
          h[q] == a[q] || h[p] == b[p])
  }

  datatype Snap = Snap(entries: seq<Entry>, disk: Disk, history: seq<Disk>)

  /** From `s` to `t` only already-dirty pages moved towards the device: the view is untouched. */
  ghost predicate Settles(s: Snap, t: Snap)
  {
    var view := ViewOf(s.entries, s.disk);
    && ViewOf(t.entries, t.disk) == view
    && |s.history| <= |t.history| && t.history[..|s.history|] == s.history
    && (forall k :: |s.history| <= k < |t.history| ==> PageMix(t.history[k], s.disk, view))
    && PageMix(t.disk, s.disk, view)
    && (forall loc :: loc in t.disk && DirtyAt(t.entries, loc) ==> DirtyAt(s.entries, loc))
  }

  lemma PageMixTrans(h: Disk, a: Disk, m: Disk, b: Disk)
    requires PageMix(m, a, b) && PageMix(h, m, b)
    ensures PageMix(h, a, b)
  {
    forall p, q | p in h && q in h && SamePage(p, q)
      ensures h[q] == a[q] || h[p] == b[p]
    {
      assert SamePage(p, p);
      assert h[q] == m[q] || h[p] == b[p];
      assert m[q] == a[q] || m[p] == b[p];
    }
  }

  lemma SettlesTrans(s: Snap, t: Snap, u: Snap)
    requires Settles(s, t) && Settles(t, u)
    ensures Settles(s, u)
  {
    var view := ViewOf(s.entries, s.disk);
    PageMixTrans(u.disk, s.disk, t.disk, view);
    forall k | |s.history| <= k < |u.history|
      ensures PageMix(u.history[k], s.disk, view)
    {
      if k >= |t.history| {
        PageMixTrans(u.history[k], s.disk, t.disk, view);
      } else {
        assert u.history[k] == u.history[..|t.history|][k];
      }
    }
    assert u.history[..|s.history|] == u.history[..|t.history|][..|s.history|];
  }

  lemma SettlesRefl(s: Snap)
    ensures Settles(s, s)
  {
    assert s.history[..|s.history|] == s.history;
  }

  /** The per-entry part of the invariant. */
  lemma Slots(sizes: map<nat, nat>, entries: seq<Entry>, disk: Disk)
    requires Good(sizes, entries, disk)
    ensures |entries| == CACHE_MAX && DiskShape(sizes, disk)
    ensures forall i :: 0 <= i < |entries| ==> EntryOk(sizes, entries[i])
  {
  }

  lemma FindUnique(entries: seq<Entry>, dev: nat, page: nat, i: nat)
    requires OnePerPage(entries) && i < |entries| && Holds(entries[i], dev, page)
    ensures Find(entries, dev, page) == i
  {
  }

  // ---- the four elementary moves on (entries, disk) -----------------------

  /** Landing one sector of the view on the device changes no view and keeps the invariant. */
  lemma Land(sizes: map<nat, nat>, entries: seq<Entry>, disk: Disk, loc: Loc)
    requires Good(sizes, entries, disk) && loc in disk
    ensures var disk' := disk[loc := Peek(entries, disk, loc)];
            Good(sizes, entries, disk') && ViewOf(entries, disk') == ViewOf(entries, disk)
  {
  }

  /** Replacing entry `i` keeps the structural half of the invariant. */
  lemma SlotChange(sizes: map<nat, nat>, entries: seq<Entry>, disk: Disk, i: nat, e: Entry, es: seq<Entry>)
    requires Good(sizes, entries, disk) && i < |entries| && EntryOk(sizes, e) && es == entries[i := e]
    requires e.state.Empty? || Holds(entries[i], e.dev, e.lba) || Find(entries, e.dev, e.lba) < 0
    ensures |es| == CACHE_MAX && DiskShape(sizes, disk) && OnePerPage(entries) && OnePerPage(es)
    ensures forall k :: 0 <= k < |es| ==> EntryOk(sizes, es[k])
  {
    hide Peek, DirtyAt;
    assert OnePerPage(es);
  }

  lemma GoodIntro(sizes: map<nat, nat>, entries: seq<Entry>, disk: Disk)
    requires |entries| == CACHE_MAX && DiskShape(sizes, disk) && OnePerPage(entries)
    requires forall k :: 0 <= k < |entries| ==> EntryOk(sizes, entries[k])
    requires forall loc :: loc in disk ==> DirtyAt(entries, loc) || disk[loc] == Peek(entries, disk, loc)
    ensures Good(sizes, entries, disk)
  {
    hide OnePerPage, EntryOk, Peek, DirtyAt;
  }

  lemma Coherent(sizes: map<nat, nat>, entries: seq<Entry>, disk: Disk, loc: Loc)
    requires Good(sizes, entries, disk) && loc in disk
    ensures DirtyAt(entries, loc) || disk[loc] == Peek(entries, disk, loc)
    ensures forall k :: 0 <= k < |entries| ==> |entries[k].data| == CACHE_SECTORS
  {
    hide OnePerPage, Peek, DirtyAt;
  }

  /** What replacing entry `i` does at one sector. */
  lemma ReplaceAt(sizes: map<nat, nat>, entries: seq<Entry>, disk: Disk, i: nat, e: Entry, loc: Loc)
    requires Good(sizes, entries, disk) && i < |entries| && loc in disk && |e.data| == CACHE_SECTORS
    requires OnePerPage(entries) && OnePerPage(entries[i := e])
    ensures var es := entries[i := e];
            var was, now := Holds(entries[i], loc.dev, Page(loc.lba)), Holds(e, loc.dev, Page(loc.lba));
            && (!was && !now ==>
              Peek(es, disk, loc) == Peek(entries, disk, loc) && DirtyAt(es, loc) == DirtyAt(entries, loc))
            && (was ==> Peek(entries, disk, loc) == entries[i].data[loc.lba % CACHE_SECTORS])
            && (was ==> DirtyAt(entries, loc) == entries[i].state.Dirty?)
            && (now ==> Peek(es, disk, loc) == e.data[loc.lba % CACHE_SECTORS] && DirtyAt(es, loc) == e.state.Dirty?)
            && (was && !now ==> Peek(es, disk, loc) == disk[loc] && !DirtyAt(es, loc))
            && (!was && now ==> Peek(entries, disk, loc) == disk[loc] && !DirtyAt(entries, loc))
  {
    hide Good, OnePerPage, Find, Page;
    Coherent(sizes, entries, disk, loc);
    SameFind(entries, entries[i := e], i, loc.dev, Page(loc.lba));
  }

  /** Replacing entry `i` by an empty one, when nothing dirty is lost, changes no view. */
  lemma DropClean(sizes: map<nat, nat>, entries: seq<Entry>, disk: Disk, i: nat, e: Entry)
    requires Good(sizes, entries, disk) && i < |entries|
    requires !entries[i].state.Dirty?
    requires e.state.Empty? && |e.data| == CACHE_SECTORS
    ensures Good(sizes, entries[i := e], disk)
    ensures ViewOf(entries[i := e], disk) == ViewOf(entries, disk)
    ensures forall loc :: loc in disk ==> DirtyAt(entries[i := e], loc) == DirtyAt(entries, loc)
  {
    hide Good, Peek, DirtyAt, Find, OnePerPage, Page;
    var es := entries[i := e];
    SlotChange(sizes, entries, disk, i, e, es);
    forall loc | loc in disk
      ensures Peek(es, disk, loc) == Peek(entries, disk, loc)
      ensures DirtyAt(es, loc) == DirtyAt(entries, loc)
      ensures DirtyAt(entries, loc) || disk[loc] == Peek(entries, disk, loc)
    {
      Coherent(sizes, entries, disk, loc);
      ReplaceAt(sizes, entries, disk, i, e, loc);
    }
    GoodIntro(sizes, es, disk);
  }

  /** Changing entry `i` does not move any page that entry does not hold. */
  lemma SameFind(entries: seq<Entry>, es: seq<Entry>, i: nat, dev: nat, page: nat)
    requires i < |entries| && |es| == |entries| && es == entries[i := es[i]]
    requires OnePerPage(entries) && OnePerPage(es)
    ensures !Holds(entries[i], dev, page) && !Holds(es[i], dev, page) ==>
              Find(es, dev, page) == Find(entries, dev, page) != i
    ensures Holds(entries[i], dev, page) ==> Find(entries, dev, page) == i
    ensures Holds(es[i], dev, page) ==> Find(es, dev, page) == i
    ensures Holds(entries[i], dev, page) && !Holds(es[i], dev, page) ==> Find(es, dev, page) < 0
    ensures !Holds(entries[i], dev, page) && Holds(es[i], dev, page) ==> Find(entries, dev, page) < 0
  {
    var f, g := Find(entries, dev, page), Find(es, dev, page);
    if !Holds(entries[i], dev, page) && !Holds(es[i], dev, page) {
      if f >= 0 { assert Holds(es[f], dev, page); }
      if g >= 0 { assert Holds(entries[g], dev, page); }
    } else if !Holds(entries[i], dev, page) && Holds(es[i], dev, page) {
      assert forall k :: 0 <= k < |es| && k != i ==> es[k] == entries[k];
    }
  }

  /** A dirty entry whose sectors have all landed may be marked clean. */
  lemma MarkClean(sizes: map<nat, nat>, entries: seq<Entry>, disk: Disk, i: nat)
    requires Good(sizes, entries, disk) && i < |entries| && entries[i].state.Dirty?
    requires forall loc :: loc in disk && Holds(entries[i], loc.dev, Page(loc.lba)) ==>
      disk[loc] == Peek(entries, disk, loc)
    ensures var es := entries[i := entries[i].(state := Clean)];
            && Good(sizes, es, disk)
            && ViewOf(es, disk) == ViewOf(entries, disk)
            && (forall loc :: loc in disk ==>
                  DirtyAt(es, loc) == (DirtyAt(entries, loc) && !Holds(entries[i], loc.dev, Page(loc.lba))))
  {
    hide Good, Peek, DirtyAt, Find, OnePerPage, Page;
    var e := entries[i].(state := Clean);
    var es := entries[i := e];
    Slots(sizes, entries, disk);
    SlotChange(sizes, entries, disk, i, e, es);
    forall loc | loc in disk
      ensures Peek(es, disk, loc) == Peek(entries, disk, loc)
      ensures DirtyAt(es, loc) == (DirtyAt(entries, loc) && !Holds(entries[i], loc.dev, Page(loc.lba)))
      ensures DirtyAt(es, loc) || disk[loc] == Peek(entries, disk, loc)
    {
      Coherent(sizes, entries, disk, loc);
      ReplaceAt(sizes, entries, disk, i, e, loc);
    }
    GoodIntro(sizes, es, disk);
  }

  /** A page read into a free entry: the view stays what the device already said. */
  lemma InsertClean(sizes: map<nat, nat>, entries: seq<Entry>, disk: Disk, i: nat, e: Entry)
    requires Good(sizes, entries, disk) && i < |entries| && entries[i].state.Empty?
    requires e.state.Clean? && EntryOk(sizes, e)
    requires Find(entries, e.dev, e.lba) < 0
    requires forall loc :: loc in disk && Holds(e, loc.dev, Page(loc.lba)) ==>
      disk[loc] == e.data[loc.lba % CACHE_SECTORS]
    ensures Good(sizes, entries[i := e], disk)
    ensures ViewOf(entries[i := e], disk) == ViewOf(entries, disk)
    ensures forall loc :: loc in disk ==> DirtyAt(entries[i := e], loc) == DirtyAt(entries, loc)
  {
    hide Good, Peek, DirtyAt, Find, OnePerPage, Page;
    var es := entries[i := e];
    SlotChange(sizes, entries, disk, i, e, es);
    forall loc | loc in disk
      ensures Peek(es, disk, loc) == Peek(entries, disk, loc)
      ensures DirtyAt(es, loc) == DirtyAt(entries, loc)
      ensures DirtyAt(entries, loc) || disk[loc] == Peek(entries, disk, loc)
    {
      Coherent(sizes, entries, disk, loc);
      ReplaceAt(sizes, entries, disk, i, e, loc);
    }
    GoodIntro(sizes, es, disk);
  }

  /** Overwriting sectors of a resident page: the view changes at exactly that page. */
  lemma Overwrite(sizes: map<nat, nat>, entries: seq<Entry>, disk: Disk, i: nat, data: seq<Sector>)
    requires Good(sizes, entries, disk) && i < |entries| && !entries[i].state.Empty?
    requires |data| == CACHE_SECTORS
    ensures var es := entries[i := entries[i].(data := data, state := Dirty)];
            && Good(sizes, es, disk)
            && (forall loc :: loc in disk ==>
                  && Peek(es, disk, loc) == (if Holds(entries[i], loc.dev, Page(loc.lba))
                                             then data[loc.lba % CACHE_SECTORS] else Peek(entries, disk, loc))
                  && DirtyAt(es, loc) == (DirtyAt(entries, loc) || Holds(entries[i], loc.dev, Page(loc.lba))))
  {
    hide Good, Peek, DirtyAt, Find, OnePerPage, Page;
    var e := entries[i].(data := data, state := Dirty);
    var es := entries[i := e];
    Slots(sizes, entries, disk);
    SlotChange(sizes, entries, disk, i, e, es);
    forall loc | loc in disk
      ensures Peek(es, disk, loc) == (if Holds(entries[i], loc.dev, Page(loc.lba))
                                      then data[loc.lba % CACHE_SECTORS] else Peek(entries, disk, loc))
      ensures DirtyAt(es, loc) == (DirtyAt(entries, loc) || Holds(entries[i], loc.dev, Page(loc.lba)))
      ensures DirtyAt(es, loc) || disk[loc] == Peek(es, disk, loc)
    {
      Coherent(sizes, entries, disk, loc);
      ReplaceAt(sizes, entries, disk, i, e, loc);
    }
    GoodIntro(sizes, es, disk);
  }

  // ---- the cache ----------------------------------------------------------

  class Storage {
    const sizes: map<nat, u32>
    var disk: Disk
    var entries: seq<Entry>
    var clock: nat
    ghost var history: seq<Disk>
    /** Device operations that have failed so far. */
    ghost var faults: nat

    ghost predicate Valid()
      reads this
    {
      && Good(sizes, entries, disk)
      && clock < CACHE_MAX
      && |history| > 0 && history[|history| - 1] == disk
    }

    ghost function View(): Disk
      reads this
    {
      ViewOf(entries, disk)
    }

    ghost function Now(): Snap
      reads this
    {
      Snap(entries, disk, history)
    }

    /** block_io, write direction: one sector lands whole, or the device is untouched. */
    method WriteSector(loc: Loc, s: Sector) returns (ok: bool)
      requires loc in disk
      modifies this`disk, this`history, this`faults
      ensures ok ==> disk == old(disk)[loc := s] && history == old(history) + [disk] && faults == old(faults)
      ensures !ok ==> disk == old(disk) && history == old(history) && faults == old(faults) + 1
    {
      ok := *;
      if ok {
        disk := disk[loc := s];
        history := history + [disk];
      } else {
        faults := faults + 1;
      }
    }

    /** block_io, read direction. */
    method ReadSector(loc: Loc) returns (ok: bool, s: Sector)
      requires loc in disk
      modifies this`faults
      ensures ok ==> s == disk[loc] && faults == old(faults)
      ensures !ok ==> faults == old(faults) + 1
    {
      ok := *;
      s := disk[loc];
      if !ok {
        s := Zeros(SECTOR_SIZE);
        faults := faults + 1;
      }
    }

    method Lookup(dev: nat, lba: nat) returns (i: int)
      requires Valid()
      ensures i == Find(entries, dev, Page(lba))
    {
      i := 0;
      while i < CACHE_MAX
        invariant 0 <= i <= CACHE_MAX
        invariant forall k :: 0 <= k < i ==> !Holds(entries[k], dev, Page(lba))
      {
        if Holds(entries[i], dev, Page(lba)) {
          FindUnique(entries, dev, Page(lba), i);
          return;
        }
        i := i + 1;
      }
      i := -1;
    }

    /** Writes sector `s` of a dirty page whose earlier sectors have landed. */
    method LandSector(i: nat, s: nat, ghost start: Snap) returns (ok: bool)
      requires Valid() && i < CACHE_MAX && entries[i].state.Dirty? && s < entries[i].sectors
      requires Settles(start, Now()) && Landed(entries, disk, i, s)
      modifies this`disk, this`history, this`faults
      ensures Valid() && Settles(start, Now())
      ensures ok ==> Landed(entries, disk, i, s + 1) && faults == old(faults)
      ensures !ok ==> faults > old(faults) && disk == old(disk)
      ensures disk.Keys == old(disk).Keys && history == old(history) + if ok then [disk] else []
      ensures forall loc :: loc in disk && loc != Loc(entries[i].dev, entries[i].lba + s) ==>
        disk[loc] == old(disk)[loc]
    {
      hide Settles, Landed, Good;
      Slots(sizes, entries, disk);
      var loc := Loc(entries[i].dev, entries[i].lba + s);
      LandStep(sizes, start, Now(), i, s);
      ok := WriteSector(loc, entries[i].data[s]);
    }

    /** Writes the sectors of a dirty page, one after the other. */
    method LandPage(i: nat) returns (ok: bool)
      requires Valid() && i < CACHE_MAX && entries[i].state.Dirty?
      modifies this`disk, this`history, this`faults
      ensures Valid() && Settles(old(Now()), Now())
      ensures ok ==> faults == old(faults) && Landed(entries, disk, i, entries[i].sectors)
      ensures !ok ==> faults > old(faults) && Unmoved(old(disk), old(history), disk, history, LastSector(entries[i]))
      ensures disk.Keys == old(disk).Keys && |old(history)| <= |history|
              && PageOnly(old(disk), old(history), disk, history, entries[i])
    {
      hide Settles, Landed, Good, Unmoved, PageOnly;
      SettlesRefl(Now());
      Slots(sizes, entries, disk);
      LandedStart(entries, disk, i);
      NothingMoved(disk, history, entries[i]);
      var s := 0;
      while s < entries[i].sectors
        invariant Valid() && faults == old(faults) && 0 <= s <= entries[i].sectors
        invariant Settles(old(Now()), Now()) && Landed(entries, disk, i, s)
        invariant LastSector(entries[i]) in disk && disk.Keys == old(disk).Keys && |old(history)| <= |history|
        invariant s < entries[i].sectors ==> Unmoved(old(disk), old(history), disk, history, LastSector(entries[i]))
        invariant PageOnly(old(disk), old(history), disk, history, entries[i])
      {
        ghost var was, log := disk, history;
        PageOf(entries[i].lba, s);
        ok := LandSector(i, s, old(Now()));
        SectorMoved(old(disk), old(history), was, log, disk, history, entries[i], s);
        if !ok {
          return;
        }
        s := s + 1;
      }
      ok := true;
    }

    method Writeback(i: nat) returns (ok: bool)
      requires Valid() && i < CACHE_MAX
      modifies this`disk, this`history, this`faults, this`entries
      ensures Valid()
      ensures Settles(old(Now()), Now())
      ensures ok ==> faults == old(faults) && !entries[i].state.Dirty?
      ensures ok ==> entries == old(entries)[i := old(entries)[i].(state := entries[i].state)]
      ensures ok ==> (entries[i].state.Empty? <==> old(entries)[i].state.Empty?)
      ensures !ok ==> entries == old(entries) && faults > old(faults)
      ensures !ok ==> entries[i].state.Dirty?
      ensures disk.Keys == old(disk).Keys
      ensures |old(history)| <= |history|
      ensures !ok ==>
        LastSector(entries[i]) in disk && Unmoved(old(disk), old(history), disk, history, LastSector(entries[i]))
      ensures PageOnly(old(disk), old(history), disk, history, old(entries)[i])
    {
      hide Settles, Landed, Good, PageOnly;
      SettlesRefl(Now());
      Slots(sizes, entries, disk);
      NothingMoved(disk, history, entries[i]);
      if !entries[i].state.Dirty? {
        return true;
      }
      if !entries[i].bound {
        assert false;
      }
      ok := LandPage(i);
      if ok {
        AllLanded(sizes, old(Now()), Now(), i);
        entries := entries[i := entries[i].(state := Clean)];
      }
    }

    /** Marks a non-dirty entry free. */
    method Vacate(i: nat, ghost start: Snap)
      requires Valid() && i < CACHE_MAX && !entries[i].state.Dirty?
      requires Settles(start, Now())
      modifies this`entries
      ensures Valid() && Settles(start, Now())
      ensures entries == old(entries)[i := entries[i]] && entries[i].state.Empty?
    {
      hide Settles, Good, Peek, DirtyAt, Find;
      Slots(sizes, entries, disk);
      var e := entries[i].(state := Empty, bound := false);
      DropClean(sizes, entries, disk, i, e);
      SettlesEntries(start, Now(), entries[i := e]);
      entries := entries[i := e];
    }

    /** The clock sweep: gives up only after two laps of failed writebacks. */
    method Evict() returns (i: int)
      requires Valid()
      modifies this
      ensures Valid() && Settles(old(Now()), Now())
      ensures NoNewPages(old(entries), entries)
      ensures -1 <= i < CACHE_MAX
      ensures i >= 0 ==> entries[i].state.Empty? && clock == (i + 1) % CACHE_MAX
      ensures faults == old(faults) ==> i == old(clock)
      ensures faults >= old(faults) && (i < 0 ==> faults > old(faults))
    {
      hide Settles, Good;
      SettlesRefl(Now());
      Slots(sizes, entries, disk);
      var n := 0;
      while n < CACHE_MAX * 2
        invariant Valid() && Settles(old(Now()), Now()) && NoNewPages(old(entries), entries) && |entries| == CACHE_MAX
        invariant 0 <= n <= CACHE_MAX * 2
        invariant faults >= old(faults) && (if n > 0 then faults > old(faults) else clock == old(clock))
      {
        i := clock;
        clock := clock + 1;
        if clock >= CACHE_MAX {
          clock := 0;
        }
        if entries[i].state.Empty? {
          return;
        }
        if entries[i].state.Clean? {
          Vacate(i, old(Now()));
          return;
        }
        ghost var before := Now();
        var ok := Writeback(i);
        SettlesTrans(old(Now()), before, Now());
        if ok {
          Vacate(i, old(Now()));
          return;
        }
        n := n + 1;
      }
      i := -1;
    }

    /** Reads the sectors of one page, zero-filling past the end of the device. */
    method ReadPage(dev: nat, page: nat, sectors: nat) returns (ok: bool, data: seq<Sector>)
      requires DiskShape(sizes, disk) && dev in sizes && page + sectors <= sizes[dev] && sectors <= CACHE_SECTORS
      modifies this`faults
      ensures |data| == CACHE_SECTORS
      ensures ok ==> faults == old(faults) && forall k :: 0 <= k < sectors ==>
        Loc(dev, page + k) in disk && data[k] == disk[Loc(dev, page + k)]
      ensures !ok ==> faults > old(faults)
    {
      data := seq(CACHE_SECTORS, _ => Zeros(SECTOR_SIZE));
      var s := 0;
      while s < sectors
        invariant 0 <= s <= sectors && |data| == CACHE_SECTORS && faults == old(faults)
        invariant forall k :: 0 <= k < s ==> Loc(dev, page + k) in disk && data[k] == disk[Loc(dev, page + k)]
      {
        assert Loc(dev, page + s) in disk;
        var sector;
        ok, sector := ReadSector(Loc(dev, page + s));
        if !ok {
          return;
        }
        data := data[s := sector];
        s := s + 1;
      }
      ok := true;
    }

    /** Reads a page into free entry `i`, leaving the entry free when a read fails. */
    method LoadPage(i: nat, dev: nat, page: nat, ghost start: Snap) returns (ok: bool)
      requires Valid() && i < CACHE_MAX && entries[i].state.Empty?
      requires dev in sizes && page % CACHE_SECTORS == 0 && page < sizes[dev]
      requires Find(entries, dev, page) < 0
      requires Settles(start, Now())
      modifies this`entries, this`faults
      ensures Valid() && Settles(start, Now())
      ensures ok ==> Holds(entries[i], dev, page) && faults == old(faults)
      ensures !ok ==> faults > old(faults)
    {
      hide Settles, Good, Peek, DirtyAt, Find;
      Slots(sizes, entries, disk);
      var sectors := Min(CACHE_SECTORS, sizes[dev] - page);
      var data;
      ok, data := ReadPage(dev, page, sectors);
      var e := if ok then Entry(true, dev, page, sectors, Clean, data) else entries[i].(data := data);
      if ok {
        forall loc | loc in disk && Holds(e, loc.dev, Page(loc.lba))
          ensures disk[loc] == data[loc.lba % CACHE_SECTORS]
        {
          assert loc == Loc(dev, page + loc.lba % CACHE_SECTORS);
        }
        InsertClean(sizes, entries, disk, i, e);
      } else {
        DropClean(sizes, entries, disk, i, e);
      }
      SettlesEntries(start, Now(), entries[i := e]);
      entries := entries[i := e];
    }

    method Fill(dev: nat, lba: nat) returns (i: int)
      requires Valid()
      modifies this
      ensures Valid() && Settles(old(Now()), Now())
      ensures -1 <= i < CACHE_MAX
      ensures i >= 0 ==> Holds(entries[i], dev, Page(lba))
      ensures faults >= old(faults)
      ensures i < 0 && faults == old(faults) ==> dev !in sizes || Page(lba) >= sizes[dev]
    {
      hide Settles, Good, Peek, DirtyAt;
      Slots(sizes, entries, disk);
      var page := Page(lba);
      i := Lookup(dev, page);
      SettlesRefl(Now());
      if i >= 0 {
        assert entries == entries[i := entries[i].(bound := true)];
        entries := entries[i := entries[i].(bound := true)];
        return;
      }
      i := Evict();
      if i < 0 {
        return;
      }
      if dev !in sizes || page >= sizes[dev] {
        return -1;
      }
      var ok := LoadPage(i, dev, page, old(Now()));
      if !ok {
        i := -1;
      }
    }

    /** One step of the read loop: the part of the request inside one page. */
    method ReadChunk(dev: nat, lba: nat, want: nat) returns (ok: bool, chunk: seq<Sector>)
      requires Valid() && want > 0
      modifies this
      ensures Valid() && Settles(old(Now()), Now()) && View() == old(View())
      ensures ok ==> |chunk| == Min(CACHE_SECTORS - lba % CACHE_SECTORS, want)
      ensures ok ==> ReadsAs(View(), dev, lba, chunk)
      ensures faults >= old(faults)
      ensures !ok && faults == old(faults) ==> dev !in sizes || Page(lba) >= sizes[dev]
    {
      hide Settles, Good, DirtyAt, Peek;
      chunk := [];
      var i := Fill(dev, lba);
      SettlesView(old(Now()), Now());
      Slots(sizes, entries, disk);
      if i < 0 {
        return false, [];
      }
      var off := lba - entries[i].lba;
      var n := Min(CACHE_SECTORS - off, want);
      chunk := entries[i].data[off..off + n];
      forall k | 0 <= k < n && Loc(dev, lba + k) in disk
        ensures chunk[k] == View()[Loc(dev, lba + k)]
      {
        PeekResident(sizes, entries, disk, i, off + k);
      }
      ok := true;
    }

    /** block_cache_read: on success every in-range sector of the buffer is the view's. */
    method Read(dev: nat, lba: nat, sectors: nat) returns (ok: bool, buffer: seq<Sector>)
      requires Valid() && lba + sectors <= U32_LIMIT
      modifies this
      ensures Valid() && Settles(old(Now()), Now()) && View() == old(View())
      ensures ok ==> |buffer| == sectors > 0 && ReadsAs(View(), dev, lba, buffer)
      ensures faults >= old(faults)
      ensures !ok && faults == old(faults) && sectors > 0 ==> dev !in sizes || lba + sectors > sizes[dev]
    {
      hide Settles, Good, Peek;
      buffer := [];
      ok := false;
      SettlesRefl(Now());
      if sectors == 0 {
        return;
      }
      var done := 0;
      while done < sectors
        invariant Valid() && Settles(old(Now()), Now()) && faults >= old(faults) && View() == old(View())
        invariant 0 <= done <= sectors && |buffer| == done && ReadsAs(View(), dev, lba, buffer)
      {
        ghost var before := Now();
        var got, chunk := ReadChunk(dev, lba + done, sectors - done);
        SettlesTrans(old(Now()), before, Now());
        if !got {
          return;
        }
        ReadsAppend(View(), dev, lba, buffer, chunk);
        buffer := buffer + chunk;
        done := done + |chunk|;
      }
      ok := true;
    }

    /** One step of the write loop: copies the part of the request inside one page. */
    method WriteChunk(dev: nat, lba: nat, chunk: seq<Sector>) returns (ok: bool)
      requires Valid() && 0 < |chunk| <= CACHE_SECTORS - lba % CACHE_SECTORS
      modifies this
      ensures Valid() && disk.Keys == old(disk).Keys
      ensures View() == if ok then Overlay(old(View()), dev, lba, chunk) else old(View())
      ensures Lands(old(Now()), Now())
      ensures faults >= old(faults)
      ensures !ok && faults == old(faults) ==> dev !in sizes || Page(lba) >= sizes[dev]
      ensures DirtyBut(old(entries), entries, disk, dev, Page(lba))
    {
      hide Settles, Good, Peek, DirtyAt, PageMix, Overlay;
      var i := Fill(dev, lba);
      SettlesView(old(Now()), Now());
      Slots(sizes, entries, disk);
      if i < 0 {
        return false;
      }
      var off := lba - entries[i].lba;
      var data := entries[i].data[..off] + chunk + entries[i].data[off + |chunk|..];
      Overwrite(sizes, entries, disk, i, data);
      ChunkOverlay(sizes, entries, disk, i, lba, chunk);
      entries := entries[i := entries[i].(data := data, state := Dirty)];
      ok := true;
    }

    /**
      block_cache_write: on success the view is overlaid with the whole buffer,
      on failure with the whole pages already copied.  While it runs, sectors
      outside the request only ever land as the view has them, and a request
      inside one page lands nothing of its own.
     */
    method Write(dev: nat, lba: nat, buffer: seq<Sector>) returns (ok: bool, ghost done: nat)
      requires Valid() && lba + |buffer| <= U32_LIMIT
      modifies this
      ensures Valid() && disk.Keys == old(disk).Keys
      ensures done <= |buffer| && View() == Overlay(old(View()), dev, lba, buffer[..done])
      ensures ok <==> done == |buffer| > 0
      ensures LandsOutside(old(Now()), Now(), dev, lba, |buffer|)
      ensures lba % CACHE_SECTORS + |buffer| <= CACHE_SECTORS ==> Lands(old(Now()), Now()) && (done == 0 || ok)
      ensures lba % CACHE_SECTORS + |buffer| <= CACHE_SECTORS ==> DirtyBut(old(entries), entries, disk, dev, Page(lba))
      ensures faults >= old(faults)
      ensures !ok && faults == old(faults) && buffer != [] ==> dev !in sizes || lba + |buffer| > sizes[dev]
    {
      hide Good, Peek, Settles, DirtyAt, Lands, LandsOutside, Overlay;
      done := 0;
      ok := false;
      OverlayNothing(View(), dev, lba);
      LandsStart(old(Now()), dev, lba, |buffer|);
      var copied := 0;
      while copied < |buffer|
        invariant Valid() && faults >= old(faults) && disk.Keys == old(disk).Keys
        invariant 0 <= copied <= |buffer| && done == copied
        invariant View() == Overlay(old(View()), dev, lba, buffer[..copied])
        invariant LandsOutside(old(Now()), Now(), dev, lba, |buffer|)
        invariant lba % CACHE_SECTORS + |buffer| <= CACHE_SECTORS ==>
          Lands(old(Now()), Now()) && (copied == 0 || copied == |buffer|) &&
          DirtyBut(old(entries), entries, disk, dev, Page(lba))
        invariant copied == 0 ==> Now() == old(Now())
      {
        var n := Min(CACHE_SECTORS - (lba + copied) % CACHE_SECTORS, |buffer| - copied);
        ghost var before, view := Now(), View();
        var wrote := WriteChunk(dev, lba + copied, buffer[copied..copied + n]);
        LandsOutsideStep(old(Now()), before, Now(), dev, lba, buffer[..copied], |buffer|);
        if !wrote {
          return;
        }
        OverlayAppend(old(View()), dev, lba, buffer[..copied], buffer[copied..copied + n]);
        assert buffer[..copied] + buffer[copied..copied + n] == buffer[..copied + n];
        copied := copied + n;
        done := copied;
      }
      assert buffer[..|buffer|] == buffer;
      ok := |buffer| > 0;
    }

    /**
      block_cache_flush: on success the device holds the view and nothing of it
      is dirty; on failure the last sector of some dirty page has not moved.
     */
    method Flush(dev: nat) returns (ok: bool, ghost stuck: Loc)
      requires Valid()
      modifies this`disk, this`history, this`faults, this`entries
      ensures Valid() && Settles(old(Now()), Now()) && View() == old(View())
      ensures ok ==> forall loc :: loc in disk && loc.dev == dev ==>
        disk[loc] == View()[loc] && !DirtyAt(entries, loc)
      ensures forall loc :: loc in disk && loc.dev != dev ==> Unmoved(old(disk), old(history), disk, history, loc)
      ensures !ok ==> stuck in disk && stuck.dev == dev && DirtyAt(old(entries), stuck)
      ensures |old(history)| <= |history| && (!ok ==> Unmoved(old(disk), old(history), disk, history, stuck))
      ensures !ok ==> stuck.lba % CACHE_SECTORS == CACHE_SECTORS - 1 || (dev in sizes && stuck.lba == sizes[dev] - 1)
      ensures faults >= old(faults) && (!ok ==> faults > old(faults))
    {
      hide Settles, Good, DirtyAt, Peek, Unmoved;
      SettlesRefl(Now());
      Slots(sizes, entries, disk);
      UnmovedStart(Now());
      stuck := Loc(0, 0);
      var i := 0;
      while i < CACHE_MAX
        invariant Valid() && Settles(old(Now()), Now()) && faults == old(faults) && disk.Keys == old(disk).Keys
        invariant 0 <= i <= CACHE_MAX && |entries| == CACHE_MAX && |old(history)| <= |history|
        invariant forall k :: 0 <= k < i && entries[k].dev == dev ==> !entries[k].state.Dirty?
        invariant forall loc :: loc in disk && loc.dev != dev ==> Unmoved(old(disk), old(history), disk, history, loc)
        invariant forall k, loc {:trigger Holds(entries[k], loc.dev, Page(loc.lba))} ::
          i <= k < CACHE_MAX && loc in disk && Holds(entries[k], loc.dev, Page(loc.lba)) ==>
            Unmoved(old(disk), old(history), disk, history, loc)
      {
        if entries[i].dev == dev {
          HeldOnce(sizes, entries, disk, i);
          ghost var before := Now();
          ok, stuck := FlushEntry(i, old(Now()));
          SettlesView(old(Now()), Now());
          UnmovedTrans(old(Now()), before, Now());
          if !ok {
            return;
          }
        }
        i := i + 1;
      }
      SettlesView(old(Now()), Now());
      NoneDirty(sizes, entries, disk, dev);
      ok := true;
    }

    /** One turn of the flush loop. */
    method FlushEntry(i: nat, ghost start: Snap) returns (ok: bool, ghost stuck: Loc)
      requires Valid() && i < CACHE_MAX && Settles(start, Now())
      modifies this`disk, this`history, this`faults, this`entries
      ensures Valid() && Settles(start, Now()) && disk.Keys == old(disk).Keys
      ensures |entries| == |old(entries)|
      ensures forall k :: 0 <= k < |entries| && k != i ==> entries[k] == old(entries)[k]
      ensures ok ==> !entries[i].state.Dirty? && entries[i].dev == old(entries)[i].dev && faults == old(faults)
      ensures |old(history)| <= |history| && history[..|old(history)|] == old(history)
      ensures !ok ==> stuck in disk && Unmoved(old(disk), old(history), disk, history, stuck) && DirtyAt(entries, stuck)
      ensures !ok ==> Holds(old(entries)[i], stuck.dev, Page(stuck.lba)) && faults > old(faults)
      ensures !ok ==>
        stuck.lba % CACHE_SECTORS == CACHE_SECTORS - 1 || (stuck.dev in sizes && stuck.lba == sizes[stuck.dev] - 1)
      ensures forall loc :: loc in disk && !Holds(old(entries)[i], loc.dev, Page(loc.lba)) ==>
        Unmoved(old(disk), old(history), disk, history, loc)
    {
      hide Settles, Good, DirtyAt;
      stuck := Loc(0, 0);
      Slots(sizes, entries, disk);
      Rebind(i, start);
      ghost var before := Now();
      ok := Writeback(i);
      SettlesTrans(start, before, Now());
      SettlesView(before, Now());
      if !ok {
        stuck := LastSector(entries[i]);
        StuckPage(sizes, entries, disk, i);
      }
    }

    /** Flush refreshes the device pointer of every entry that remembers the device. */
    method Rebind(i: nat, ghost start: Snap)
      requires Valid() && i < CACHE_MAX && Settles(start, Now())
      modifies this`entries
      ensures Valid() && Settles(start, Now())
      ensures entries == old(entries)[i := old(entries)[i].(bound := true)]
    {
      hide Settles, Good, Peek, DirtyAt, Find;
      Slots(sizes, entries, disk);
      if entries[i].state.Empty? {
        var e := entries[i].(bound := true);
        DropClean(sizes, entries, disk, i, e);
        SettlesEntries(start, Now(), entries[i := e]);
        entries := entries[i := e];
      } else {
        assert entries == entries[i := entries[i].(bound := true)];
      }
    }

    /** Frees every live entry of `dev` selected by page, whatever its state. */
    method DropEntry(i: nat)
      requires Valid() && i < CACHE_MAX
      modifies this`entries
      ensures Valid()
      ensures entries == old(entries)[i := entries[i]] && entries[i].state.Empty?
      ensures View() == Reverted(old(View()), disk, old(entries)[i])
    {
      hide Good, Peek, DirtyAt, Find;
      Slots(sizes, entries, disk);
      var e := Entry(false, 0, 0, 0, Empty, entries[i].data);
      DropAny(sizes, entries, disk, i, e);
      entries := entries[i := e];
    }

    /** block_cache_drop_device: everything cached for the device is forgotten. */
    method DropDevice(dev: nat)
      requires Valid()
      modifies this`entries
      ensures Valid()
      ensures forall loc :: loc in disk ==> View()[loc] == if loc.dev == dev then disk[loc] else old(View())[loc]
    {
      hide Good, Peek, DirtyAt;
      EntryCount(sizes, entries, disk);
      var i := 0;
      while i < CACHE_MAX
        invariant 0 <= i <= CACHE_MAX && Valid() && |entries| == CACHE_MAX
        invariant forall k :: 0 <= k < i ==> entries[k].state.Empty? || entries[k].dev != dev
        invariant forall loc :: loc in disk && loc.dev != dev ==> View()[loc] == old(View())[loc]
      {
        if entries[i].dev == dev {
          DropEntry(i);
        }
        i := i + 1;
      }
      forall loc | loc in disk && loc.dev == dev
        ensures View()[loc] == disk[loc]
      {
        NotResident(entries, disk, loc);
      }
    }

    /**
      block_cache_invalidate: the pages overlapping the range read from the
      device again, every other page keeps its view.  The page counter is 32
      bits wide, so the scan only ends when the last page is not the last of
      the address space.
     */
    method Invalidate(dev: nat, lba: nat, sectors: nat)
      requires Valid() && lba + sectors <= U32_LIMIT - CACHE_SECTORS
      modifies this`entries
      ensures Valid()
      ensures sectors == 0 ==> entries == old(entries)
      ensures sectors > 0 ==> forall loc :: loc in disk ==>
        View()[loc] == if loc.dev == dev && Page(lba) <= Page(loc.lba) <= Page(lba + sectors - 1)
                       then disk[loc] else old(View())[loc]
      ensures sectors > 0 ==> forall page :: Page(lba) <= page <= Page(lba + sectors - 1) ==>
        Find(entries, dev, page) < 0
    {
      hide Good, Peek, DirtyAt;
      if sectors == 0 {
        return;
      }
      EntryCount(sizes, entries, disk);
      var first := Page(lba);
      var last := Page(lba + sectors - 1);
      var page := first;
      while page <= last
        invariant page % CACHE_SECTORS == 0 && first <= page <= last + CACHE_SECTORS
        invariant Valid() && |entries| == CACHE_MAX
        invariant forall k :: 0 <= k < CACHE_MAX ==> !LiveWithin(entries[k], dev, first, page)
        invariant forall loc :: loc in disk && !(loc.dev == dev && first <= Page(loc.lba) < page) ==>
          View()[loc] == old(View())[loc]
      {
        DropPage(dev, page, first);
        page := page + CACHE_SECTORS;
      }
      forall loc | loc in disk && loc.dev == dev && first <= Page(loc.lba) <= last
        ensures View()[loc] == disk[loc]
      {
        NotLive(entries, disk, loc, first, page);
      }
    }

    /** A direct device write below the cache, to a page that is not resident. */
    method WriteDirect(loc: Loc, s: Sector) returns (ok: bool)
      requires Valid() && loc in disk && Find(entries, loc.dev, Page(loc.lba)) < 0
      modifies this`disk, this`history, this`faults
      ensures Valid()
      ensures ok ==> disk == old(disk)[loc := s] && history == old(history) + [disk] && faults == old(faults)
      ensures ok ==> View() == old(View())[loc := s]
      ensures !ok ==> disk == old(disk) && history == old(history) && View() == old(View()) && faults > old(faults)
    {
      hide Good, Peek;
      DirectWrite(sizes, entries, disk, loc, s);
      ok := WriteSector(loc, s);
    }

    method DropPage(dev: nat, page: nat, ghost first: nat)
      requires Valid() && |entries| == CACHE_MAX && page % CACHE_SECTORS == 0 && first <= page
      requires forall k :: 0 <= k < CACHE_MAX ==> !LiveWithin(entries[k], dev, first, page)
      modifies this`entries
      ensures Valid() && |entries| == CACHE_MAX
      ensures forall k :: 0 <= k < CACHE_MAX ==> !LiveWithin(entries[k], dev, first, page + CACHE_SECTORS)
      ensures forall loc :: loc in disk && !(loc.dev == dev && Page(loc.lba) == page) ==>
        View()[loc] == old(View())[loc]
    {
      hide Good, Peek, DirtyAt;
      Aligned(sizes, entries, disk);
      var i := 0;
      while i < CACHE_MAX
        invariant 0 <= i <= CACHE_MAX && Valid() && |entries| == CACHE_MAX
        invariant forall k :: 0 <= k < CACHE_MAX ==> !LiveWithin(entries[k], dev, first, page)
        invariant forall k :: 0 <= k < i ==> !LiveWithin(entries[k], dev, first, page + CACHE_SECTORS)
        invariant forall loc :: loc in disk && !(loc.dev == dev && Page(loc.lba) == page) ==>
          View()[loc] == old(View())[loc]
      {
        Aligned(sizes, entries, disk);
        if Holds(entries[i], dev, page) {
          DropEntry(i);
        }
        i := i + 1;
      }
    }

    /** block_cache_dirty_count. */
    method DirtyCount() returns (n: nat)
      requires Valid()
      ensures n == |set k | 0 <= k < CACHE_MAX && entries[k].state.Dirty?|
    {
      hide Good;
      EntryCount(sizes, entries, disk);
      n := 0;
      var i := 0;
      while i < CACHE_MAX
        invariant 0 <= i <= CACHE_MAX
        invariant n == |set k | 0 <= k < i && entries[k].state.Dirty?|
      {
        ghost var done := set k | 0 <= k < i && entries[k].state.Dirty?;
        ghost var next := set k | 0 <= k < i + 1 && entries[k].state.Dirty?;
        if entries[i].state.Dirty? {
          assert next == done + {i};
          n := n + 1;
        } else {
          assert next == done;
        }
        i := i + 1;
      }
    }

    /** block_cache_init over freshly attached devices. */
    constructor (sizes: map<nat, u32>, disk: Disk)
      requires DiskShape(sizes, disk)
      ensures Valid() && this.sizes == sizes && this.disk == disk
      ensures View() == disk && history == [disk] && faults == 0
      ensures forall loc :: loc in disk ==> !DirtyAt(entries, loc)
    {
      this.sizes := sizes;
      this.disk := disk;
      entries := seq(CACHE_MAX, _ => Entry(false, 0, 0, 0, Empty, seq(CACHE_SECTORS, _ => Zeros(SECTOR_SIZE))));
      clock := 0;
      history := [disk];
      faults := 0;
    }
  }

  /** `buffer` is what `view` holds from sector `lba` on, as far as the device reaches. */
  ghost predicate ReadsAs(view: Disk, dev: nat, lba: nat, buffer: seq<Sector>)
  {
    forall k :: 0 <= k < |buffer| && Loc(dev, lba + k) in view ==> buffer[k] == view[Loc(dev, lba + k)]
  }

  lemma ReadsAppend(view: Disk, dev: nat, lba: nat, a: seq<Sector>, b: seq<Sector>)
    requires ReadsAs(view, dev, lba, a) && ReadsAs(view, dev, lba + |a|, b)
    ensures ReadsAs(view, dev, lba, a + b)
  {
    forall k | 0 <= k < |a + b| && Loc(dev, lba + k) in view
      ensures (a + b)[k] == view[Loc(dev, lba + k)]
    {
      if k >= |a| {
        assert Loc(dev, lba + |a| + (k - |a|)) == Loc(dev, lba + k);
      }
    }
  }

  /** `view` with the sectors of `buffer` placed from `lba` on. */
  ghost function Overlay(view: Disk, dev: nat, lba: nat, buffer: seq<Sector>): (v: Disk)
    ensures v.Keys == view.Keys
  {
    map loc | loc in view ::
      if loc.dev == dev && lba <= loc.lba < lba + |buffer| then buffer[loc.lba - lba] else view[loc]
  }

  /** The device history between `s` and `t` only lands pages of the view at `s`. */
  ghost predicate Lands(s: Snap, t: Snap)
  {
    var view := ViewOf(s.entries, s.disk);
    && |s.history| <= |t.history| && t.history[..|s.history|] == s.history
    && (forall k :: |s.history| <= k < |t.history| ==> PageMix(t.history[k], s.disk, view))
    && PageMix(t.disk, s.disk, view)
  }

  lemma ChunkOverlay(sizes: map<nat, nat>, entries: seq<Entry>, disk: Disk, i: nat, lba: nat, chunk: seq<Sector>)
    requires Good(sizes, entries, disk) && i < |entries| && !entries[i].state.Empty?
    requires |entries[i].data| == CACHE_SECTORS
    requires Page(lba) == entries[i].lba && |chunk| <= CACHE_SECTORS - lba % CACHE_SECTORS
    ensures var e := entries[i];
            var off := lba % CACHE_SECTORS;
            var data := e.data[..off] + chunk + e.data[off + |chunk|..];
            ViewOf(entries[i := e.(data := data, state := Dirty)], disk)
            == Overlay(ViewOf(entries, disk), e.dev, lba, chunk)
  {
    hide Good, Peek, Overlay, DirtyAt;
    var e := entries[i];
    var off := lba % CACHE_SECTORS;
    var data := e.data[..off] + chunk + e.data[off + |chunk|..];
    var view := ViewOf(entries, disk);
    Overwrite(sizes, entries, disk, i, data);
    HeldView(sizes, entries, disk, i);
    forall loc | loc in disk
      ensures ViewOf(entries[i := e.(data := data, state := Dirty)], disk)[loc]
           == Overlay(view, e.dev, lba, chunk)[loc]
    {
      OverlayPatch(view, e.dev, lba, e.data, chunk, loc);
    }
  }

  lemma HeldView(sizes: map<nat, nat>, entries: seq<Entry>, disk: Disk, i: nat)
    requires Good(sizes, entries, disk) && i < |entries| && !entries[i].state.Empty?
    ensures forall loc :: loc in disk && Holds(entries[i], loc.dev, Page(loc.lba)) ==>
      ViewOf(entries, disk)[loc] == entries[i].data[loc.lba % CACHE_SECTORS]
  {
    FindUnique(entries, entries[i].dev, entries[i].lba, i);
  }

  lemma OverlayPatch(view: Disk, dev: nat, lba: nat, data: seq<Sector>, chunk: seq<Sector>, loc: Loc)
    requires loc in view && |data| == CACHE_SECTORS && |chunk| <= CACHE_SECTORS - lba % CACHE_SECTORS
    requires loc.dev == dev && Page(loc.lba) == Page(lba) ==> view[loc] == data[loc.lba % CACHE_SECTORS]
    ensures var off := lba % CACHE_SECTORS;
            Overlay(view, dev, lba, chunk)[loc] ==
            if loc.dev == dev && Page(loc.lba) == Page(lba)
            then (data[..off] + chunk + data[off + |chunk|..])[loc.lba % CACHE_SECTORS] else view[loc]
  {
    hide Page;
    PageSpan(lba, loc.lba, |chunk|);
    var k, off := loc.lba % CACHE_SECTORS, lba % CACHE_SECTORS;
    assert (data[..off] + chunk + data[off + |chunk|..])[k] ==
           if off <= k < off + |chunk| then chunk[k - off] else data[k];
  }

  lemma PageSpan(lba: nat, x: nat, n: nat)
    requires n <= CACHE_SECTORS - lba % CACHE_SECTORS
    ensures Page(x) == Page(lba) ==> x - lba == x % CACHE_SECTORS - lba % CACHE_SECTORS
    ensures lba <= x < lba + n ==> Page(x) == Page(lba)
  {
  }

  /** No device state between the two moments has anything but the first contents at `loc`. */
  ghost predicate Unmoved(a: Disk, ha: seq<Disk>, b: Disk, hb: seq<Disk>, loc: Loc)
  {
    && loc in a && loc in b && b[loc] == a[loc]
    && (forall k :: |ha| <= k < |hb| ==> loc in hb[k] && hb[k][loc] == a[loc])
  }

  /** Only the page of this entry has moved. */
  ghost predicate PageOnly(a: Disk, ha: seq<Disk>, b: Disk, hb: seq<Disk>, e: Entry)
  {
    forall loc :: loc in b && !Holds(e, loc.dev, Page(loc.lba)) ==> Unmoved(a, ha, b, hb, loc)
  }

  lemma NothingMoved(disk: Disk, history: seq<Disk>, e: Entry)
    ensures PageOnly(disk, history, disk, history, e)
    ensures LastSector(e) in disk ==> Unmoved(disk, history, disk, history, LastSector(e))
  {
  }

  lemma UnmovedStep(a: Disk, ha: seq<Disk>, b: Disk, hb: seq<Disk>, c: Disk, hc: seq<Disk>, loc: Loc)
    requires Unmoved(a, ha, b, hb, loc) && (hc == hb || hc == hb + [c]) && loc in c && c[loc] == b[loc]
    ensures Unmoved(a, ha, c, hc, loc)
  {
  }

  /** One more sector of the page, or none. */
  lemma SectorMoved(a: Disk, ha: seq<Disk>, b: Disk, hb: seq<Disk>, c: Disk, hc: seq<Disk>, e: Entry, s: nat)
    requires PageOnly(a, ha, b, hb, e) && b.Keys == c.Keys && ((hc == hb && c == b) || hc == hb + [c])
    requires s < e.sectors && !e.state.Empty? && Page(e.lba + s) == e.lba && LastSector(e) in b
             && Unmoved(a, ha, b, hb, LastSector(e))
    requires forall loc :: loc in c && loc != Loc(e.dev, e.lba + s) ==> c[loc] == b[loc]
    ensures PageOnly(a, ha, c, hc, e)
    ensures s + 1 < e.sectors || (c == b && hc == hb) ==> Unmoved(a, ha, c, hc, LastSector(e))
  {
    hide Unmoved, Page;
    forall loc | loc in c && !Holds(e, loc.dev, Page(loc.lba))
      ensures Unmoved(a, ha, c, hc, loc)
    {
      UnmovedStep(a, ha, b, hb, c, hc, loc);
    }
    if s + 1 < e.sectors || c == b {
      UnmovedStep(a, ha, b, hb, c, hc, LastSector(e));
    }
  }

  lemma UnmovedStart(s: Snap)
    ensures forall loc :: loc in s.disk ==> Unmoved(s.disk, s.history, s.disk, s.history, loc)
  {
  }

  lemma UnmovedTrans(s: Snap, t: Snap, u: Snap)
    requires |s.history| <= |t.history| <= |u.history| && u.history[..|t.history|] == t.history
    ensures forall loc ::
      Unmoved(s.disk, s.history, t.disk, t.history, loc) && Unmoved(t.disk, t.history, u.disk, u.history, loc) ==>
        Unmoved(s.disk, s.history, u.disk, u.history, loc)
  {
    forall loc | Unmoved(s.disk, s.history, t.disk, t.history, loc)
    && Unmoved(t.disk, t.history, u.disk, u.history, loc)
      ensures Unmoved(s.disk, s.history, u.disk, u.history, loc)
    {
      forall k | |s.history| <= k < |u.history|
        ensures loc in u.history[k] && u.history[k][loc] == s.disk[loc]
      {
        if k < |t.history| {
          assert u.history[k] == u.history[..|t.history|][k];
        }
      }
    }
  }

  /** Nothing became dirty outside one page. */
  ghost predicate DirtyBut(before: seq<Entry>, after: seq<Entry>, disk: Disk, dev: nat, page: nat)
  {
    forall loc :: loc in disk && DirtyAt(after, loc) ==>
      DirtyAt(before, loc) || (loc.dev == dev && Page(loc.lba) == page)
  }

  lemma OverlayNothing(view: Disk, dev: nat, lba: nat)
    ensures Overlay(view, dev, lba, []) == view
  {
  }

  lemma OverlayAppend(view: Disk, dev: nat, lba: nat, a: seq<Sector>, b: seq<Sector>)
    ensures Overlay(Overlay(view, dev, lba, a), dev, lba + |a|, b) == Overlay(view, dev, lba, a + b)
  {
  }

  predicate InRange(loc: Loc, dev: nat, lba: nat, n: nat)
  {
    loc.dev == dev && lba <= loc.lba < lba + n
  }

  /** Outside the written range the device only moves towards the view at `s`. */
  ghost predicate LandsOutside(s: Snap, t: Snap, dev: nat, lba: nat, n: nat)
  {
    var view := ViewOf(s.entries, s.disk);
    && t.disk.Keys == s.disk.Keys
    && |s.history| <= |t.history| && t.history[..|s.history|] == s.history
    && (forall k :: |s.history| <= k < |t.history| ==> t.history[k].Keys == s.disk.Keys)
    && (forall k, loc :: |s.history| <= k < |t.history| && loc in t.history[k] && !InRange(loc, dev, lba, n) ==>
          t.history[k][loc] == s.disk[loc] || t.history[k][loc] == view[loc])
    && (forall loc :: loc in t.disk && !InRange(loc, dev, lba, n) ==>
          t.disk[loc] == s.disk[loc] || t.disk[loc] == view[loc])
  }

  lemma LandsStart(s: Snap, dev: nat, lba: nat, n: nat)
    ensures LandsOutside(s, s, dev, lba, n) && Lands(s, s)
  {
    assert s.history[..|s.history|] == s.history;
  }

  lemma LandsOutsideStep(s: Snap, t: Snap, u: Snap, dev: nat, lba: nat, part: seq<Sector>, n: nat)
    requires LandsOutside(s, t, dev, lba, n) && Lands(t, u) && |part| <= n
    requires ViewOf(t.entries, t.disk) == Overlay(ViewOf(s.entries, s.disk), dev, lba, part)
    ensures LandsOutside(s, u, dev, lba, n)
  {
    assert u.history[..|s.history|] == u.history[..|t.history|][..|s.history|];
    forall k | |s.history| <= k < |t.history|
      ensures u.history[k] == t.history[k]
    {
      assert u.history[k] == u.history[..|t.history|][k];
    }
  }

  lemma StuckPage(sizes: map<nat, nat>, entries: seq<Entry>, disk: Disk, i: nat)
    requires Good(sizes, entries, disk) && i < |entries| && entries[i].state.Dirty?
    ensures var last := LastSector(entries[i]);
            && last in disk && DirtyAt(entries, last)
            && Holds(entries[i], last.dev, Page(last.lba)) && last.dev in sizes
            && (last.lba % CACHE_SECTORS == CACHE_SECTORS - 1 || last.lba == sizes[last.dev] - 1)
  {
    var e := entries[i];
    PageOf(e.lba, e.sectors - 1);
    FindUnique(entries, e.dev, e.lba, i);
  }

  lemma HeldOnce(sizes: map<nat, nat>, entries: seq<Entry>, disk: Disk, i: nat)
    requires Good(sizes, entries, disk) && i < |entries|
    ensures forall k, loc {:trigger Holds(entries[k], loc.dev, Page(loc.lba))} ::
      i < k < |entries| && loc in disk && Holds(entries[k], loc.dev, Page(loc.lba)) ==>
        !Holds(entries[i], loc.dev, Page(loc.lba))
  {
  }

  lemma NoneDirty(sizes: map<nat, nat>, entries: seq<Entry>, disk: Disk, dev: nat)
    requires Good(sizes, entries, disk)
    requires forall k :: 0 <= k < |entries| && entries[k].dev == dev ==> !entries[k].state.Dirty?
    ensures forall loc :: loc in disk && loc.dev == dev ==>
      disk[loc] == Peek(entries, disk, loc) && !DirtyAt(entries, loc)
  {
  }

  /** The view after forgetting entry `e`: its page reads from the device again. */
  ghost function Reverted(view: Disk, disk: Disk, e: Entry): (v: Disk)
    requires view.Keys == disk.Keys
  {
    map loc | loc in view :: if Holds(e, loc.dev, Page(loc.lba)) then disk[loc] else view[loc]
  }

  lemma DropAny(sizes: map<nat, nat>, entries: seq<Entry>, disk: Disk, i: nat, e: Entry)
    requires Good(sizes, entries, disk) && i < |entries|
    requires e.state.Empty? && |e.data| == CACHE_SECTORS
    ensures Good(sizes, entries[i := e], disk)
    ensures ViewOf(entries[i := e], disk) == Reverted(ViewOf(entries, disk), disk, entries[i])
  {
    hide Good, Peek, DirtyAt, Find, OnePerPage, Page;
    var es := entries[i := e];
    SlotChange(sizes, entries, disk, i, e, es);
    forall loc | loc in disk
      ensures Peek(es, disk, loc) ==
              if Holds(entries[i], loc.dev, Page(loc.lba)) then disk[loc] else Peek(entries, disk, loc)
      ensures DirtyAt(es, loc) || disk[loc] == Peek(es, disk, loc)
    {
      Coherent(sizes, entries, disk, loc);
      ReplaceAt(sizes, entries, disk, i, e, loc);
    }
    GoodIntro(sizes, es, disk);
  }

  /** Writing the device under a page that is not resident changes the view there. */
  lemma DirectWrite(sizes: map<nat, nat>, entries: seq<Entry>, disk: Disk, loc: Loc, s: Sector)
    requires Good(sizes, entries, disk) && loc in disk && Find(entries, loc.dev, Page(loc.lba)) < 0
    ensures Good(sizes, entries, disk[loc := s])
    ensures ViewOf(entries, disk[loc := s]) == ViewOf(entries, disk)[loc := s]
  {
    hide OnePerPage, EntryOk, Find;
    var m := disk[loc := s];
    assert m.Keys == disk.Keys;
    forall p | p in disk
      ensures Peek(entries, m, p) == if p == loc then s else Peek(entries, disk, p)
    {
    }
  }

  lemma NotResident(entries: seq<Entry>, disk: Disk, loc: Loc)
    requires loc in disk
    requires forall k :: 0 <= k < |entries| ==> entries[k].state.Empty? || entries[k].dev != loc.dev
    ensures ViewOf(entries, disk)[loc] == disk[loc]
  {
  }

  predicate LiveWithin(e: Entry, dev: nat, first: nat, end: nat)
  {
    !e.state.Empty? && e.dev == dev && first <= e.lba < end
  }

  lemma NotLive(entries: seq<Entry>, disk: Disk, loc: Loc, first: nat, end: nat)
    requires loc in disk && first <= Page(loc.lba) < end
    requires forall k :: 0 <= k < |entries| ==> !LiveWithin(entries[k], loc.dev, first, end)
    ensures ViewOf(entries, disk)[loc] == disk[loc]
  {
  }

  lemma EntryCount(sizes: map<nat, nat>, entries: seq<Entry>, disk: Disk)
    requires Good(sizes, entries, disk)
    ensures |entries| == CACHE_MAX
  {
  }

  lemma Aligned(sizes: map<nat, nat>, entries: seq<Entry>, disk: Disk)
    requires Good(sizes, entries, disk)
    ensures forall k :: 0 <= k < |entries| && !entries[k].state.Empty? ==> entries[k].lba % CACHE_SECTORS == 0
  {
  }

  /** Live pages afterwards were live pages before. */
  ghost predicate NoNewPages(before: seq<Entry>, after: seq<Entry>)
  {
    && |before| == |after|
    && (forall k :: 0 <= k < |after| && !after[k].state.Empty? ==>
          !before[k].state.Empty? && before[k].dev == after[k].dev && before[k].lba == after[k].lba)
  }

  lemma SettlesEntries(start: Snap, t: Snap, es: seq<Entry>)
    requires Settles(start, t)
    requires ViewOf(es, t.disk) == ViewOf(t.entries, t.disk)
    requires forall loc :: loc in t.disk ==> DirtyAt(es, loc) == DirtyAt(t.entries, loc)
    ensures Settles(start, t.(entries := es))
  {
  }

  lemma SettlesView(s: Snap, t: Snap)
    requires Settles(s, t)
    ensures ViewOf(s.entries, s.disk) == ViewOf(t.entries, t.disk)
    ensures s.disk.Keys == t.disk.Keys
    ensures Lands(s, t)
    ensures forall loc :: loc in t.disk && DirtyAt(t.entries, loc) ==> DirtyAt(s.entries, loc)
  {
  }

  lemma PeekResident(sizes: map<nat, nat>, entries: seq<Entry>, disk: Disk, i: nat, s: nat)
    requires Good(sizes, entries, disk) && i < |entries| && !entries[i].state.Empty? && s < CACHE_SECTORS
    ensures var loc := Loc(entries[i].dev, entries[i].lba + s);
            loc in disk ==> ViewOf(entries, disk)[loc] == entries[i].data[s]
  {
    Slots(sizes, entries, disk);
    PageOf(entries[i].lba, s);
    FindUnique(entries, entries[i].dev, entries[i].lba, i);
    hide Good;
  }

  /** The first `s` sectors of entry `i` are on the device. */
  ghost predicate Landed(entries: seq<Entry>, disk: Disk, i: nat, s: nat)
    requires i < |entries|
  {
    forall loc :: loc in disk && Holds(entries[i], loc.dev, Page(loc.lba)) && loc.lba < entries[i].lba + s ==>
      disk[loc] == Peek(entries, disk, loc)
  }

  lemma LandedStart(entries: seq<Entry>, disk: Disk, i: nat)
    requires i < |entries| && (forall k :: 0 <= k < |entries| ==> |entries[k].data| == CACHE_SECTORS)
    requires forall loc :: loc in disk && Holds(entries[i], loc.dev, Page(loc.lba)) ==> loc.lba >= entries[i].lba
    ensures Landed(entries, disk, i, 0)
  {
  }

  /** Once every sector has landed the entry may be marked clean. */
  lemma AllLanded(sizes: map<nat, nat>, start: Snap, t: Snap, i: nat)
    requires Good(sizes, t.entries, t.disk) && i < |t.entries| && t.entries[i].state.Dirty?
    requires Settles(start, t) && Landed(t.entries, t.disk, i, t.entries[i].sectors)
    ensures var es := t.entries[i := t.entries[i].(state := Clean)];
            Good(sizes, es, t.disk) && Settles(start, t.(entries := es))
  {
    MarkClean(sizes, t.entries, t.disk, i);
  }

  lemma PageOf(page: nat, s: nat)
    requires page % CACHE_SECTORS == 0 && s < CACHE_SECTORS
    ensures Page(page + s) == page && (page + s) % CACHE_SECTORS == s
  {
  }

  lemma LandTarget(sizes: map<nat, nat>, entries: seq<Entry>, disk: Disk, i: nat, s: nat)
    requires Good(sizes, entries, disk) && i < |entries| && !entries[i].state.Empty? && s < entries[i].sectors
    requires Landed(entries, disk, i, s)
    ensures var loc := Loc(entries[i].dev, entries[i].lba + s);
            && loc in disk && s < |entries[i].data|
            && Peek(entries, disk, loc) == entries[i].data[s]
            && forall p :: p in disk && SamePage(p, loc) && p != loc ==> disk[p] == Peek(entries, disk, p)
  {
    var e := entries[i];
    PageOf(e.lba, s);
    FindUnique(entries, e.dev, e.lba, i);
  }

  lemma LandStep(sizes: map<nat, nat>, start: Snap, t: Snap, i: nat, s: nat)
    requires Good(sizes, t.entries, t.disk) && i < |t.entries| && t.entries[i].state.Dirty?
    requires s < t.entries[i].sectors
    requires Settles(start, t) && Landed(t.entries, t.disk, i, s)
    ensures var e := t.entries[i];
            var loc := Loc(e.dev, e.lba + s);
            && loc in t.disk
            && var disk := t.disk[loc := e.data[s]];
            var u := Snap(t.entries, disk, t.history + [disk]);
            Good(sizes, u.entries, u.disk) && Settles(start, u) && Landed(u.entries, u.disk, i, s + 1)
  {
    hide Settles, Good, Landed, Peek, DirtyAt, Find;
    var e := t.entries[i];
    var loc := Loc(e.dev, e.lba + s);
    LandTarget(sizes, t.entries, t.disk, i, s);
    Land(sizes, t.entries, t.disk, loc);
    LandNext(t.entries, t.disk, i, s);
    var disk := t.disk[loc := e.data[s]];
    LandMix(start, t, Snap(t.entries, disk, t.history + [disk]), loc);
  }

  lemma LandNext(entries: seq<Entry>, disk: Disk, i: nat, s: nat)
    requires i < |entries| && Landed(entries, disk, i, s)
    ensures var loc := Loc(entries[i].dev, entries[i].lba + s);
            loc in disk ==> Landed(entries, disk[loc := Peek(entries, disk, loc)], i, s + 1)
  {
  }

  /** One more leading sector of a page has landed. */
  lemma LandMix(s: Snap, t: Snap, u: Snap, loc: Loc)
    requires t.entries == u.entries
    requires Settles(s, t) && loc in t.disk
    requires u.disk == t.disk[loc := Peek(t.entries, t.disk, loc)]
    requires u.history == t.history + [u.disk]
    requires ViewOf(u.entries, u.disk) == ViewOf(t.entries, t.disk)
    requires forall p :: p in t.disk && SamePage(p, loc) && p != loc ==> t.disk[p] == Peek(t.entries, t.disk, p)
    ensures Settles(s, u)
  {
    var view := ViewOf(s.entries, s.disk);
    forall p, q | p in u.disk && q in u.disk && SamePage(p, q)
      ensures u.disk[q] == s.disk[q] || u.disk[p] == view[p]
    {
      assert SamePage(p, loc) || q != loc;
    }
    assert PageMix(u.disk, s.disk, view);
    assert u.history[..|s.history|] == t.history[..|s.history|];
  }
}
