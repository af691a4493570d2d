/** One directory block: records that tile it, and the entries they hold (src/fs/adytumfs_dir.c). */
module DirRecords {
  import opened Bytes
  import opened Blocks
  import opened Volumes

  const DIR_HEADER := 12
  const NAME_MAX := 255

  type Name = seq<u8>

  datatype Record = Record(inode: u64, length: u16, nameLen: u8, kind: u8)

  datatype DirEntry = DirEntry(name: Name, inode: u64, kind: u8)

  function RecordAt(img: Image, o: nat): Record
    requires o + DIR_HEADER <= BLOCK_SIZE
  {
    Pow256Values();
    FromLeBound(img[o..o + 8]);
    FromLeBound(img[o + 8..o + 10]);
    Record(FromLe(img[o..o + 8]), FromLe(img[o + 8..o + 10]), img[o + 10], img[o + 11])
  }

  function Header(r: Record): (h: seq<u8>)
    ensures |h| == DIR_HEADER
  {
    Le(r.inode, 8) + Le(r.length, 2) + [r.nameLen, r.kind]
  }

  lemma HeaderRead(img: Image, o: nat, r: Record)
    requires o + DIR_HEADER <= BLOCK_SIZE && img[o..o + DIR_HEADER] == Header(r)
    ensures RecordAt(img, o) == r
  {
    hide Le, FromLe;
    Pow256Values();
    var h := img[o..o + DIR_HEADER];
    LeRoundTrip(r.inode, 8);
    LeRoundTrip(r.length, 2);
    SubSlice(img, o, o + DIR_HEADER, 0, 8);
    SubSlice(img, o, o + DIR_HEADER, 8, 10);
    assert h[0..8] == Le(r.inode, 8) && h[8..10] == Le(r.length, 2);
    assert img[o + 10] == h[10] && img[o + 11] == h[11];
  }

  /** A record that can stand at `o` in a stretch ending at `p`; a live one holds its name. */
  predicate RecordFits(img: Image, o: nat, p: nat)
    requires p <= BLOCK_SIZE
  {
    && o + DIR_HEADER <= p
    && DIR_HEADER <= RecordAt(img, o).length <= p - o
    && (RecordAt(img, o).inode != 0 ==> DIR_HEADER + RecordAt(img, o).nameLen <= RecordAt(img, o).length)
  }

  /** The stretch [o, p) is exactly filled by records. */
  predicate Tiles(img: Image, o: nat, p: nat)
    requires p <= BLOCK_SIZE
    decreases p - o
  {
    o == p || (RecordFits(img, o, p) && Tiles(img, o + RecordAt(img, o).length, p))
  }

  function EntryAt(img: Image, o: nat, p: nat): DirEntry
    requires p <= BLOCK_SIZE && RecordFits(img, o, p) && RecordAt(img, o).inode != 0
  {
    var r := RecordAt(img, o);
    DirEntry(img[o + DIR_HEADER..o + DIR_HEADER + r.nameLen], r.inode, r.kind)
  }

  /** The live entries of a tiled stretch, in order. */
  function Entries(img: Image, o: nat, p: nat): seq<DirEntry>
    requires p <= BLOCK_SIZE && Tiles(img, o, p)
    decreases p - o
  {
    if o == p then []
    else
      (if RecordAt(img, o).inode != 0 then [EntryAt(img, o, p)] else [])
      + Entries(img, o + RecordAt(img, o).length, p)
  }

  // ---- stretches ----------------------------------------------------------

  lemma SameRecord(a: Image, b: Image, o: nat, p: nat)
    requires p <= BLOCK_SIZE && o + DIR_HEADER <= p && a[o..p] == b[o..p]
    ensures RecordAt(a, o) == RecordAt(b, o)
    ensures RecordFits(a, o, p) == RecordFits(b, o, p)
    ensures RecordFits(a, o, p) && RecordAt(a, o).inode != 0 ==> EntryAt(a, o, p) == EntryAt(b, o, p)
  {
    hide FromLe;
    SubSlice(a, o, p, 0, 8);
    SubSlice(b, o, p, 0, 8);
    SubSlice(a, o, p, 8, 10);
    SubSlice(b, o, p, 8, 10);
    assert a[o + 10] == a[o..p][10] && b[o + 10] == b[o..p][10];
    assert a[o + 11] == a[o..p][11] && b[o + 11] == b[o..p][11];
    if RecordFits(a, o, p) && RecordAt(a, o).inode != 0 {
      var n := DIR_HEADER + RecordAt(a, o).nameLen;
      SubSlice(a, o, p, DIR_HEADER, n);
      SubSlice(b, o, p, DIR_HEADER, n);
    }
  }

  /** Only the bytes of a stretch matter to it. */
  lemma {:induction false} TilesLocal(a: Image, b: Image, o: nat, p: nat)
    requires p <= BLOCK_SIZE && Tiles(a, o, p) && o <= p && a[o..p] == b[o..p]
    ensures Tiles(b, o, p) && Entries(b, o, p) == Entries(a, o, p)
    decreases p - o
  {
    hide RecordAt, EntryAt;
    if o != p {
      SameRecord(a, b, o, p);
      var m := o + RecordAt(a, o).length;
      SubSlice(a, o, p, m - o, p - o);
      SubSlice(b, o, p, m - o, p - o);
      TilesLocal(a, b, m, p);
    }
  }

  lemma RecordFitsMore(img: Image, o: nat, m: nat, p: nat)
    requires m <= p <= BLOCK_SIZE && RecordFits(img, o, m)
    ensures RecordFits(img, o, p) && (RecordAt(img, o).inode != 0 ==> EntryAt(img, o, p) == EntryAt(img, o, m))
  {
  }

  lemma {:induction false} TilesJoin(img: Image, o: nat, m: nat, p: nat)
    requires o <= m <= p <= BLOCK_SIZE && Tiles(img, o, m) && Tiles(img, m, p)
    ensures Tiles(img, o, p) && Entries(img, o, p) == Entries(img, o, m) + Entries(img, m, p)
    decreases m - o
  {
    hide RecordAt, EntryAt;
    if o != m {
      var n := o + RecordAt(img, o).length;
      RecordFitsMore(img, o, m, p);
      TilesJoin(img, n, m, p);
      var first := if RecordAt(img, o).inode != 0 then [EntryAt(img, o, p)] else [];
      assert Entries(img, o, m) == first + Entries(img, n, m) && Entries(img, o, p) == first + Entries(img, n, p);
    } else {
      assert [] + Entries(img, m, p) == Entries(img, m, p);
    }
  }

  lemma TilesOne(img: Image, o: nat, p: nat)
    requires p <= BLOCK_SIZE && o + DIR_HEADER <= p && RecordAt(img, o).length == p - o >= DIR_HEADER
    requires RecordAt(img, o).inode != 0 ==> DIR_HEADER + RecordAt(img, o).nameLen <= p - o
    ensures Tiles(img, o, p)
    ensures Entries(img, o, p) == if RecordAt(img, o).inode != 0 then [EntryAt(img, o, p)] else []
  {
    hide RecordAt, EntryAt;
    assert Tiles(img, p, p) && Entries(img, p, p) == [];
  }

  /** The first record of a tiled stretch, and the rest. */
  lemma TilesHead(img: Image, o: nat, p: nat)
    requires o < p <= BLOCK_SIZE && Tiles(img, o, p)
    ensures RecordFits(img, o, p)
    ensures var m := o + RecordAt(img, o).length;
      && Tiles(img, o, m) && Tiles(img, m, p)
      && Entries(img, o, m) == (if RecordAt(img, o).inode != 0 then [EntryAt(img, o, p)] else [])
      && Entries(img, o, p) == Entries(img, o, m) + Entries(img, m, p)
  {
    hide RecordAt, EntryAt, Entries;
    var m := o + RecordAt(img, o).length;
    TilesOne(img, o, m);
    RecordFitsMore(img, o, m, p);
    TilesJoin(img, o, m, p);
  }

  // ---- placing a record ---------------------------------------------------

  function Insert(entries: seq<DirEntry>, k: nat, e: DirEntry): seq<DirEntry>
    requires k <= |entries|
  {
    entries[..k] + [e] + entries[k..]
  }

  function Needed(nameLen: nat): nat
  {
    DIR_HEADER + (nameLen + 3) / 4 * 4
  }

  /** Writing into [o, o + n) leaves the rest of the block. */
  lemma PatchOutside(img: Image, o: nat, bytes: seq<u8>, a: nat, b: nat)
    requires o + |bytes| <= BLOCK_SIZE && a <= b <= BLOCK_SIZE && (b <= o || o + |bytes| <= a)
    ensures Patch(img, o, bytes)[a..b] == img[a..b]
  {
    var p := Patch(img, o, bytes);
    forall k | 0 <= k < b - a
      ensures p[a..b][k] == img[a..b][k]
    {
      assert p[a + k] == img[a + k];
    }
  }

  lemma PatchInside(img: Image, o: nat, bytes: seq<u8>, a: nat, b: nat)
    requires o + |bytes| <= BLOCK_SIZE && a <= b <= |bytes|
    ensures Patch(img, o, bytes)[o + a..o + b] == bytes[a..b]
  {
    var p := Patch(img, o, bytes);
    forall k | 0 <= k < b - a
      ensures p[o + a..o + b][k] == bytes[a..b][k]
    {
      assert p[o + a + k] == bytes[a + k];
    }
  }

  /** The edit adytumfs_dir_place makes at a free record: the record, split when the leftover can stand alone. */
  function Placed(img: Image, o: nat, length: u16, e: DirEntry): Image
    requires |e.name| <= NAME_MAX && o + length <= BLOCK_SIZE && Needed(|e.name|) <= length
  {
    var needed := Needed(|e.name|);
    if length - needed >= DIR_HEADER + 4 then
      Patch(Patch(img, o + needed, Header(Record(0, length - needed, 0, 0))), o,
            Header(Record(e.inode, needed, |e.name|, e.kind)) + e.name)
    else
      Patch(img, o, Header(Record(e.inode, length, |e.name|, e.kind)) + e.name)
  }

  lemma PlacedEntry(img: Image, o: nat, p: nat, e: DirEntry)
    requires |e.name| <= NAME_MAX && e.inode != 0 && o <= p <= BLOCK_SIZE && Needed(|e.name|) <= p - o
    ensures var img' := Patch(img, o, Header(Record(e.inode, p - o, |e.name|, e.kind)) + e.name);
      Tiles(img', o, p) && Entries(img', o, p) == [e]
  {
    hide Header, Patch, Tiles, Entries;
    var bytes := Header(Record(e.inode, p - o, |e.name|, e.kind)) + e.name;
    var img' := Patch(img, o, bytes);
    PatchInside(img, o, bytes, 0, DIR_HEADER);
    PatchInside(img, o, bytes, DIR_HEADER, |bytes|);
    HeaderRead(img', o, Record(e.inode, p - o, |e.name|, e.kind));
    assert bytes[DIR_HEADER..|bytes|] == e.name
           && bytes[0..DIR_HEADER] == Header(Record(e.inode, p - o, |e.name|, e.kind));
    TilesOne(img', o, p);
  }

  lemma PlacedRest(img: Image, o: nat, p: nat)
    requires o + DIR_HEADER <= p <= BLOCK_SIZE
    ensures var img' := Patch(img, o, Header(Record(0, p - o, 0, 0)));
      Tiles(img', o, p) && Entries(img', o, p) == []
  {
    hide Header, Patch, Tiles, Entries;
    var bytes := Header(Record(0, p - o, 0, 0));
    PatchInside(img, o, bytes, 0, DIR_HEADER);
    HeaderRead(Patch(img, o, bytes), o, Record(0, p - o, 0, 0));
    TilesOne(Patch(img, o, bytes), o, p);
  }

  /** The stretch of the old free record now holds exactly the new entry; nothing outside it changed. */
  lemma PlacedStretch(img: Image, o: nat, length: u16, e: DirEntry)
    requires |e.name| <= NAME_MAX && e.inode != 0 && o + length <= BLOCK_SIZE && Needed(|e.name|) <= length
    ensures var img' := Placed(img, o, length, e);
      && Tiles(img', o, o + length) && Entries(img', o, o + length) == [e]
      && img'[..o] == img[..o] && img'[o + length..] == img[o + length..]
  {
    hide Header, Patch, Tiles, Entries;
    var needed, p := Needed(|e.name|), o + length;
    var img' := Placed(img, o, length, e);
    var split := length - needed >= DIR_HEADER + 4;
    var bytes := Header(Record(e.inode, if split then needed else length, |e.name|, e.kind)) + e.name;
    var base := if split then Patch(img, o + needed, Header(Record(0, length - needed, 0, 0))) else img;
    assert img' == Patch(base, o, bytes);
    PatchOutside(base, o, bytes, 0, o);
    PatchOutside(base, o, bytes, p, BLOCK_SIZE);
    if length - needed >= DIR_HEADER + 4 {
      var m := o + needed;
      PatchOutside(img, m, Header(Record(0, length - needed, 0, 0)), 0, o);
      PatchOutside(img, m, Header(Record(0, length - needed, 0, 0)), p, BLOCK_SIZE);
      PlacedRest(img, m, p);
      PatchOutside(base, o, bytes, m, p);
      TilesLocal(base, img', m, p);
      PlacedEntry(base, o, m, e);
      TilesJoin(img', o, m, p);
      assert [e] + [] == [e];
    } else {
      PlacedEntry(img, o, p, e);
    }
    assert img'[0..o] == img'[..o] && img[0..o] == img[..o] && base[0..o] == base[..o];
    assert img'[p..BLOCK_SIZE] == img'[p..] && img[p..BLOCK_SIZE] == img[p..] && base[p..BLOCK_SIZE] == base[p..];
  }

  /** A block in which one free record's stretch was refilled. */
  lemma PlacedBlock(img: Image, o: nat, length: u16, e: DirEntry)
    requires |e.name| <= NAME_MAX && e.inode != 0 && o + length <= BLOCK_SIZE && Needed(|e.name|) <= length
    requires Tiles(img, 0, o) && Tiles(img, o, o + length) && Entries(img, o, o + length) == []
             && Tiles(img, o + length, BLOCK_SIZE)
    ensures Tiles(img, 0, BLOCK_SIZE)
    ensures var img' := Placed(img, o, length, e);
      && Tiles(img', 0, BLOCK_SIZE)
      && |Entries(img, 0, o)| <= |Entries(img, 0, BLOCK_SIZE)|
      && Entries(img', 0, BLOCK_SIZE) == Insert(Entries(img, 0, BLOCK_SIZE), |Entries(img, 0, o)|, e)
  {
    hide Tiles, Entries, Placed;
    var p := o + length;
    var img' := Placed(img, o, length, e);
    PlacedStretch(img, o, length, e);
    assert img'[0..o] == img[0..o] && img'[p..BLOCK_SIZE] == img[p..BLOCK_SIZE];
    TilesLocal(img, img', 0, o);
    TilesLocal(img, img', p, BLOCK_SIZE);
    TilesJoin(img, 0, o, p);
    TilesJoin(img, 0, p, BLOCK_SIZE);
    TilesJoin(img', 0, o, p);
    TilesJoin(img', 0, p, BLOCK_SIZE);
  }

  /** No free record of the stretch is long enough. */
  predicate NoHole(img: Image, o: nat, p: nat, needed: nat)
    requires p <= BLOCK_SIZE && Tiles(img, o, p)
    decreases p - o
  {
    o == p || (!(RecordAt(img, o).inode == 0 && RecordAt(img, o).length >= needed)
               && NoHole(img, o + RecordAt(img, o).length, p, needed))
  }

  /** adytumfs_dir_place: the first free record that is long enough takes the entry. */
  method Place(img: Image, e: DirEntry) returns (ok: bool, r: Image, ghost k: nat)
    requires 0 < |e.name| <= NAME_MAX && e.inode != 0
    ensures ok && Tiles(img, 0, BLOCK_SIZE) ==> Tiles(r, 0, BLOCK_SIZE) && k <= |Entries(img, 0, BLOCK_SIZE)|
    ensures ok && Tiles(img, 0, BLOCK_SIZE) ==> Entries(r, 0, BLOCK_SIZE) == Insert(Entries(img, 0, BLOCK_SIZE), k, e)
    ensures !ok ==> r == img
    ensures Tiles(img, 0, BLOCK_SIZE) ==> (ok <==> !NoHole(img, 0, BLOCK_SIZE, Needed(|e.name|)))
    ensures RecordAt(img, 0) == Record(0, BLOCK_SIZE, 0, 0) ==> ok
  {
    hide Tiles, Entries, Placed, RecordAt, EntryAt;
    r, k := img, 0;
    var needed := Needed(|e.name|);
    var offset := 0;
    TilesEmpty(img, 0);
    ghost var tiled := Tiles(img, 0, BLOCK_SIZE);
    while offset + DIR_HEADER <= BLOCK_SIZE
      invariant 0 <= offset <= BLOCK_SIZE && (tiled ==> Tiles(img, 0, offset) && Tiles(img, offset, BLOCK_SIZE))
      invariant RecordAt(img, 0) == Record(0, BLOCK_SIZE, 0, 0) ==> offset == 0
      invariant tiled ==> (NoHole(img, 0, BLOCK_SIZE, needed) <==> NoHole(img, offset, BLOCK_SIZE, needed))
    {
      if tiled {
        TilesHead(img, offset, BLOCK_SIZE);
      }
      var record := RecordAt(img, offset);
      if record.length < DIR_HEADER || offset + record.length > BLOCK_SIZE {
        return false, img, 0;
      }
      if record.inode == 0 && record.length >= needed {
        if tiled {
          PlacedBlock(img, offset, record.length, e);
          k := |Entries(img, 0, offset)|;
        }
        return true, Placed(img, offset, record.length, e), k;
      }
      if tiled {
        TilesJoin(img, 0, offset, offset + record.length);
      }
      offset := offset + record.length;
    }
    if tiled && offset < BLOCK_SIZE {
      TilesHead(img, offset, BLOCK_SIZE);
    }
    ok := false;
  }

  lemma TilesEmpty(img: Image, o: nat)
    requires o <= BLOCK_SIZE
    ensures Tiles(img, o, o) && Entries(img, o, o) == []
  {
  }

  // ---- removing a record --------------------------------------------------

  function Tombstone(img: Image, o: nat): Image
    requires o + DIR_HEADER <= BLOCK_SIZE
  {
    Patch(img, o, Le(0, 8))
  }

  /** A zero inode number frees the record and nothing else. */
  lemma TombstoneBlock(img: Image, o: nat)
    requires o < BLOCK_SIZE && Tiles(img, 0, o) && Tiles(img, o, BLOCK_SIZE)
    requires RecordFits(img, o, BLOCK_SIZE) && RecordAt(img, o).inode != 0
    ensures Tiles(img, 0, BLOCK_SIZE) && Tiles(Tombstone(img, o), 0, BLOCK_SIZE)
    ensures var k, all := |Entries(img, 0, o)|, Entries(img, 0, BLOCK_SIZE);
      && k < |all| && all[k] == EntryAt(img, o, BLOCK_SIZE)
      && Entries(Tombstone(img, o), 0, BLOCK_SIZE) == all[..k] + all[k + 1..]
  {
    hide Tiles, Entries, RecordAt, EntryAt, Patch, Le;
    var r, img' := RecordAt(img, o), Tombstone(img, o);
    var m := o + r.length;
    TilesHead(img, o, BLOCK_SIZE);
    TombstoneRecord(img, o);
    TilesOne(img', o, m);
    PatchOutside(img, o, Le(0, 8), 0, o);
    PatchOutside(img, o, Le(0, 8), m, BLOCK_SIZE);
    TilesLocal(img, img', 0, o);
    TilesLocal(img, img', m, BLOCK_SIZE);
    TilesJoin(img, 0, o, BLOCK_SIZE);
    TilesJoin(img', 0, o, m);
    TilesJoin(img', 0, m, BLOCK_SIZE);
    CutOne(Entries(img, 0, o), EntryAt(img, o, BLOCK_SIZE), Entries(img, m, BLOCK_SIZE));
  }

  lemma CutOne(a: seq<DirEntry>, e: DirEntry, c: seq<DirEntry>)
    ensures var all := a + ([e] + c); all[|a|] == e && all[..|a|] + all[|a| + 1..] == a + [] + c
  {
  }

  lemma TombstoneRecord(img: Image, o: nat)
    requires o + DIR_HEADER <= BLOCK_SIZE
    ensures RecordAt(Tombstone(img, o), o) == RecordAt(img, o).(inode := 0)
  {
    hide Patch, Le, FromLe;
    var img' := Tombstone(img, o);
    Pow256Values();
    LeRoundTrip(0, 8);
    PatchInside(img, o, Le(0, 8), 0, 8);
    PatchOutside(img, o, Le(0, 8), o + 8, o + DIR_HEADER);
    assert img'[o..o + 8] == Le(0, 8)[0..8] == Le(0, 8);
    var a, b := img[o + 8..o + DIR_HEADER], img'[o + 8..o + DIR_HEADER];
    assert img[o + 8..o + 10] == a[..2] && img'[o + 8..o + 10] == b[..2];
    assert img[o + 10] == a[2] && img'[o + 10] == b[2] && img[o + 11] == a[3] && img'[o + 11] == b[3];
  }

  // ---- finding a name -----------------------------------------------------

  ghost predicate Unnamed(entries: seq<DirEntry>, name: Name)
  {
    forall j :: 0 <= j < |entries| ==> entries[j].name != name
  }

  /** `at` is the first live record with this name. */
  ghost predicate FirstNamed(img: Image, name: Name, at: nat)
  {
    && at < BLOCK_SIZE && Tiles(img, 0, at) && Tiles(img, at, BLOCK_SIZE)
    && RecordFits(img, at, BLOCK_SIZE) && RecordAt(img, at).inode != 0
    && EntryAt(img, at, BLOCK_SIZE).name == name && Unnamed(Entries(img, 0, at), name)
  }

  /**
    The scan shared by lookup and removal.  A live record whose name would run
    past the block matches nothing.
   */
  method FindName(img: Image, name: Name) returns (found: bool, at: nat)
    requires |name| <= NAME_MAX
    ensures found ==> at + DIR_HEADER <= BLOCK_SIZE && RecordAt(img, at).inode != 0
    ensures found && Tiles(img, 0, BLOCK_SIZE) ==> FirstNamed(img, name, at)
    ensures !found && Tiles(img, 0, BLOCK_SIZE) ==> Unnamed(Entries(img, 0, BLOCK_SIZE), name)
  {
    hide Tiles, Entries, RecordAt;
    at := 0;
    var offset := 0;
    TilesEmpty(img, 0);
    ghost var tiled := Tiles(img, 0, BLOCK_SIZE);
    while offset + DIR_HEADER <= BLOCK_SIZE
      invariant 0 <= offset <= BLOCK_SIZE && (tiled ==> Tiles(img, 0, offset) && Tiles(img, offset, BLOCK_SIZE))
      invariant tiled ==> Unnamed(Entries(img, 0, offset), name)
    {
      if tiled {
        TilesHead(img, offset, BLOCK_SIZE);
      }
      var record := RecordAt(img, offset);
      if record.length < DIR_HEADER || offset + record.length > BLOCK_SIZE {
        break;
      }
      if record.inode != 0 && record.nameLen == |name| && offset + DIR_HEADER + |name| <= BLOCK_SIZE
         && img[offset + DIR_HEADER..offset + DIR_HEADER + |name|] == name {
        return true, offset;
      }
      if tiled {
        TilesJoin(img, 0, offset, offset + record.length);
      }
      offset := offset + record.length;
    }
    if tiled {
      TilesShort(img, offset);
    }
    found := false;
  }

  /** A tiled stretch shorter than a header is empty. */
  lemma TilesShort(img: Image, o: nat)
    requires o <= BLOCK_SIZE < o + DIR_HEADER && Tiles(img, o, BLOCK_SIZE)
    ensures o == BLOCK_SIZE
  {
  }
}
