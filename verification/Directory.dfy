/** Directories as finite maps from names to inodes (src/fs/adytumfs_dir.c). */
module Directories {
  import opened Bytes
  import opened BlockCache
  import opened Blocks
  import opened Checksums
  import opened Superblocks
  import opened Durability
  import opened Staging
  import opened Volumes
  import opened Extents
  import opened Inodes
  import opened InodeOps
  import opened Files
  import opened DirRecords
  import V = Views

  // ---- the entries of a whole directory -----------------------------------

  ghost predicate DirTiled(imgs: seq<Image>)
  {
    forall i :: 0 <= i < |imgs| ==> Tiles(imgs[i], 0, BLOCK_SIZE)
  }

  ghost function EntriesOf(img: Image): seq<DirEntry>
  {
    if Tiles(img, 0, BLOCK_SIZE) then Entries(img, 0, BLOCK_SIZE) else []
  }

  ghost function AllEntries(imgs: seq<Image>): seq<DirEntry>
  {
    if imgs == [] then [] else EntriesOf(imgs[0]) + AllEntries(imgs[1..])
  }

  lemma {:induction false} AllConcat(a: seq<Image>, b: seq<Image>)
    ensures AllEntries(a + b) == AllEntries(a) + AllEntries(b)
  {
    hide EntriesOf;
    if a == [] {
      assert a + b == b;
    } else {
      assert (a + b)[1..] == a[1..] + b;
      AllConcat(a[1..], b);
    }
  }

  lemma AllOne(img: Image)
    ensures AllEntries([img]) == EntriesOf(img)
  {
    hide EntriesOf;
    assert AllEntries([img][1..]) == [];
    assert AllEntries([img]) == EntriesOf([img][0]) + [];
  }

  /** The directory's entries around one block. */
  lemma AllAround(imgs: seq<Image>, l: nat, img: Image)
    requires l < |imgs|
    ensures AllEntries(imgs[l := img]) == AllEntries(imgs[..l]) + EntriesOf(img) + AllEntries(imgs[l + 1..])
  {
    hide EntriesOf, AllEntries;
    assert imgs[l := img] == imgs[..l] + ([img] + imgs[l + 1..]);
    AllConcat(imgs[..l], [img] + imgs[l + 1..]);
    AllConcat([img], imgs[l + 1..]);
    AllOne(img);
  }

  // ---- the map ------------------------------------------------------------

  /** Names to inodes; the first entry of a name counts. */
  function NameMap(entries: seq<DirEntry>): map<Name, u64>
  {
    if entries == [] then map[] else NameMap(entries[1..])[entries[0].name := entries[0].inode]
  }

  ghost predicate Distinct(entries: seq<DirEntry>)
  {
    forall i, j :: 0 <= i < j < |entries| ==> entries[i].name != entries[j].name
  }

  lemma {:induction false} BindUnnamed(entries: seq<DirEntry>, name: Name)
    ensures name in NameMap(entries) <==> !Unnamed(entries, name)
  {
    if entries != [] {
      BindUnnamed(entries[1..], name);
      if !Unnamed(entries[1..], name) {
        var j :| 0 <= j < |entries[1..]| && entries[1..][j].name == name;
        assert entries[j + 1].name == name;
      }
    }
  }

  lemma {:induction false} BindFirst(entries: seq<DirEntry>, k: nat)
    requires k < |entries| && Unnamed(entries[..k], entries[k].name)
    ensures entries[k].name in NameMap(entries) && NameMap(entries)[entries[k].name] == entries[k].inode
  {
    if k > 0 {
      assert entries[..k][0] == entries[0];
      assert entries[1..][..k - 1] == entries[..k][1..];
      BindFirst(entries[1..], k - 1);
    }
  }

  /** Adding an absent name adds that binding and no other. */
  lemma {:induction false} BindInsert(entries: seq<DirEntry>, k: nat, e: DirEntry)
    requires k <= |entries| && Unnamed(entries, e.name)
    ensures NameMap(Insert(entries, k, e)) == NameMap(entries)[e.name := e.inode]
    ensures Distinct(entries) ==> Distinct(Insert(entries, k, e))
  {
    var all := Insert(entries, k, e);
    if k == 0 {
      assert all == [e] + entries && all[1..] == entries;
    } else {
      assert all[0] == entries[0];
      assert all[1..] == Insert(entries[1..], k - 1, e);
      BindInsert(entries[1..], k - 1, e);
    }
  }

  lemma NameMapCons(e: DirEntry, rest: seq<DirEntry>)
    ensures NameMap([e] + rest) == NameMap(rest)[e.name := e.inode]
  {
    assert ([e] + rest)[1..] == rest;
  }

  lemma DistinctCut(entries: seq<DirEntry>, k: nat)
    requires k < |entries| && Distinct(entries)
    ensures Distinct(entries[..k] + entries[k + 1..]) && Distinct(entries[1..])
    ensures Unnamed(entries[1..], entries[0].name) && (k > 0 ==> entries[0].name != entries[k].name)
  {
  }

  /** Removing an entry of a directory without duplicates removes that binding and no other. */
  lemma {:induction false} BindRemove(entries: seq<DirEntry>, k: nat)
    requires k < |entries| && Distinct(entries)
    ensures NameMap(entries[..k] + entries[k + 1..]) == NameMap(entries) - {entries[k].name}
    ensures Distinct(entries[..k] + entries[k + 1..])
  {
    hide NameMap, Distinct, Unnamed;
    DistinctCut(entries, k);
    var first, tail := entries[0], entries[1..];
    assert entries == [first] + tail;
    NameMapCons(first, tail);
    if k == 0 {
      assert entries[..k] + entries[k + 1..] == tail;
      BindUnnamed(tail, first.name);
      assert NameMap(tail)[first.name := first.inode] - {first.name} == NameMap(tail);
    } else {
      var cut := tail[..k - 1] + tail[k..];
      assert entries[..k] + entries[k + 1..] == [first] + cut;
      assert tail[k - 1] == entries[k];
      BindRemove(tail, k - 1);
      NameMapCons(first, cut);
    }
  }

  // ---- lookup -------------------------------------------------------------

  ghost predicate IsDir(o: Option<Inode>)
  {
    o.Some? && HasMode(o.value.mode, MODE_DIR)
  }

  /** The blocks of a directory, as the open window reads them. */
  ghost function DirImages(vol: Volume, inode: Inode): seq<Image>
    reads vol.storage
  {
    ImagesOf(vol.storage.View(), vol.device, Flat(inode.direct))
  }

  /** Reads one logical block of a directory through the checked path. */
  method ReadDirBlock(vol: Volume, dir: Inode, logical: nat) returns (ok: bool, img: Image)
    requires vol.Valid() && V.Sound(vol.super, dir) && logical < dir.blocks
    modifies vol.storage
    ensures vol.Valid() && vol.storage.View() == old(vol.storage.View())
    ensures |DirImages(vol, dir)| == dir.blocks == |Flat(dir.direct)|
    ensures ok ==> img == DirImages(vol, dir)[logical]
    ensures !ok ==>
      vol.storage.faults > old(vol.storage.faults)
      || !Readable(vol.storage.View(), vol.device, vol.csuper, Flat(dir.direct))
    ensures vol.storage.faults >= old(vol.storage.faults)
  {
    hide Good, PoolOk, Durable, Flat, CommittedUsed, BlockOf, SealOf, Crc32c, FromLe, ImagesOf, V.Sound;
    vol.Shape();
    SoundParts(vol.super, dir);
    var physical;
    ok, physical := InodeMap(dir.direct, logical);
    BlockOfFlat(vol.super, dir, logical);
    ok, img := vol.DataRead(physical);
    ImageAt(vol.storage.View(), vol.device, Flat(dir.direct), logical);
  }

  /** `at` in block `l` holds the directory's first entry of this name. */
  lemma FoundAt(imgs: seq<Image>, l: nat, name: Name, at: nat)
    requires l < |imgs| && DirTiled(imgs) && FirstNamed(imgs[l], name, at) && Unnamed(AllEntries(imgs[..l]), name)
    ensures var all, k := AllEntries(imgs), |AllEntries(imgs[..l])| + |Entries(imgs[l], 0, at)|;
      && k < |all| && all[k] == EntryAt(imgs[l], at, BLOCK_SIZE) && Unnamed(all[..k], name)
      && name in NameMap(all) && NameMap(all)[name] == RecordAt(imgs[l], at).inode
  {
    hide Tiles, Entries, AllEntries, RecordAt, NameMap;
    var img := imgs[l];
    TombstoneBlock(img, at);
    TilesJoin(img, 0, at, BLOCK_SIZE);
    assert imgs[l := img] == imgs;
    AllAround(imgs, l, img);
    var before, here, all := AllEntries(imgs[..l]), Entries(img, 0, at), AllEntries(imgs);
    var k := |before| + |here|;
    assert EntriesOf(img)[..|here|] == here;
    assert all[..k] == before + here;
    BindFirst(all, k);
  }

  lemma NotInBlock(imgs: seq<Image>, l: nat, name: Name)
    requires l < |imgs| && Unnamed(AllEntries(imgs[..l]), name) && Unnamed(EntriesOf(imgs[l]), name)
    ensures Unnamed(AllEntries(imgs[..l + 1]), name)
  {
    hide EntriesOf, AllEntries;
    assert imgs[..l + 1] == imgs[..l] + [imgs[l]];
    AllConcat(imgs[..l], [imgs[l]]);
    AllOne(imgs[l]);
  }

  /** adytumfs_dir_lookup: exactly the directory's map. */
  method DirLookup(vol: Volume, n: nat, name: Name) returns (ok: bool, target: u64)
    requires vol.Valid() && V.SlotsSound(TableOf(vol), vol.super)
    modifies vol.storage
    ensures vol.Valid() && vol.storage.View() == old(vol.storage.View())
    ensures ok ==> 0 < |name| <= NAME_MAX && IsDir(InodeOf(vol, n)) && target != 0
    ensures ok && DirTiled(DirImages(vol, InodeOf(vol, n).value)) ==>
      var m := NameMap(AllEntries(DirImages(vol, InodeOf(vol, n).value))); name in m && m[name] == target
    ensures (&& !ok && 0 < |name| <= NAME_MAX && IsDir(InodeOf(vol, n)) && vol.storage.faults == old(vol.storage.faults)
             && DirTiled(DirImages(vol, InodeOf(vol, n).value))
             && Readable(vol.storage.View(), vol.device, vol.csuper, Flat(InodeOf(vol, n).value.direct))) ==>
      name !in NameMap(AllEntries(DirImages(vol, InodeOf(vol, n).value)))
    ensures vol.storage.faults >= old(vol.storage.faults)
  {
    hide Good, PoolOk, Durable, LaySet, SetOf, StageOf, Flat, SlotsOf, Readable, ImagesOf, V.Sound, Tiles, AllEntries,
         NameMap, RecordAt, FirstNamed, Unnamed;
    target := 0;
    if |name| == 0 || |name| > NAME_MAX {
      return false, 0;
    }
    var dir;
    ok, dir := ReadInode(vol, n);
    if !ok || !HasMode(dir.mode, MODE_DIR) {
      return false, 0;
    }
    assert V.Sound(vol.super, dir);
    ghost var imgs := DirImages(vol, dir);
    SoundParts(vol.super, dir);
    NoneYet(imgs, name);
    var logical := 0;
    while logical < dir.blocks
      invariant vol.Valid() && vol.storage.View() == old(vol.storage.View())
                && vol.storage.faults >= old(vol.storage.faults)
      invariant 0 <= logical <= dir.blocks == |imgs|
      invariant DirTiled(imgs) ==> Unnamed(AllEntries(imgs[..logical]), name)
    {
      var img;
      ok, img := ReadDirBlock(vol, dir, logical);
      if !ok {
        return;
      }
      var found, at := FindName(img, name);
      if found {
        if DirTiled(imgs) {
          FoundAt(imgs, logical, name, at);
        }
        return true, RecordAt(img, at).inode;
      }
      if DirTiled(imgs) {
        NotInBlock(imgs, logical, name);
      }
      logical := logical + 1;
    }
    assert imgs[..logical] == imgs;
    BindUnnamed(AllEntries(imgs), name);
    ok := false;
  }

  lemma NoneYet(imgs: seq<Image>, name: Name)
    ensures Unnamed(AllEntries(imgs[..0]), name)
  {
  }

  // ---- replacing and appending blocks -------------------------------------

  /** The directory's slot is the only one that moves, and only in its blocks, size and times. */
  ghost predicate DirMoved(t: V.Table, t': V.Table, n: nat, now: u64)
  {
    && 0 < n < |t| == |t'| && t[n].Some? && t'[n].Some?
    && t' == t[n := t'[n]]
    && var i, j := t[n].value, t'[n].value;
       j == i.(direct := j.direct, blocks := j.blocks, size := j.size, mtime := now, ctime := now)
  }

  /** The bitmap and the counters agree with the table `t`, which may be ahead of the stored one. */
  ghost predicate AgreesAs(vol: Volume, t: V.Table)
    reads vol`committed, vol`csuper, vol`pool, vol`super
  {
    |t| == |TableOf(vol)| && V.ThreeViews(vol.Used(), t, vol.super)
  }

  /** Some block of the directory cannot be redirected. */
  ghost predicate Unmovable(direct: Direct, s: Superblock, busy: set<nat>)
  {
    exists l :: 0 <= l < |Flat(direct)| && Stuck(direct, l, s, busy)
  }

  /** The directory cannot grow by a block, or cannot redirect one of its own. */
  ghost predicate Cramped(direct: Direct, s: Superblock, busy: set<nat>)
  {
    NoGrowth(direct, 1, s, busy) || Unmovable(direct, s, busy)
  }

  /** Two free extent slots and one free block are enough. */
  lemma RoomEnough(direct: Direct, s: Superblock, busy: set<nat>)
    requires Live(direct) + 2 <= DIRECT_EXTENTS && !NoRun(busy, s, 1)
    ensures !Cramped(direct, s, busy)
  {
    hide NoRun, Live, Flat, Covering;
  }

  lemma NoRunMore(s: Superblock, s': Superblock, busy: set<nat>, busy': set<nat>)
    requires s'.dataStart == s.dataStart && s'.checksumRegion == s.checksumRegion && busy' <= busy
    requires NoRun(busy', s', 1)
    ensures NoRun(busy, s, 1)
  {
    forall b: nat | s.dataStart <= b && b + 1 <= s.checksumRegion
      ensures !Volumes.Fits(busy, b, 1)
    {
      assert !Volumes.Fits(busy', b, 1);
    }
  }

  /** Releasing blocks cramps nothing. */
  lemma UnmovableMore(direct: Direct, s: Superblock, s': Superblock, busy: set<nat>, busy': set<nat>)
    requires s'.dataStart == s.dataStart && s'.checksumRegion == s.checksumRegion && busy' <= busy
    requires Unmovable(direct, s', busy')
    ensures Unmovable(direct, s, busy)
  {
    hide Flat, Live, SplitOverflows, NoRun;
    var l :| 0 <= l < |Flat(direct)| && Stuck(direct, l, s', busy');
    if NoRun(busy', s', 1) {
      NoRunMore(s, s', busy, busy');
    }
    assert Stuck(direct, l, s, busy);
  }

  lemma CrampedMore(direct: Direct, s: Superblock, s': Superblock, busy: set<nat>, busy': set<nat>)
    requires s'.dataStart == s.dataStart && s'.checksumRegion == s.checksumRegion && busy' <= busy
    requires Cramped(direct, s', busy')
    ensures Cramped(direct, s, busy)
  {
    hide Live, NoRun, Unmovable;
    if Unmovable(direct, s', busy') {
      UnmovableMore(direct, s, s', busy, busy');
    } else if NoRun(busy', s', 1) {
      NoRunMore(s, s', busy, busy');
    }
  }

  lemma UnmovableAt(direct: Direct, l: nat, s: Superblock, busy: set<nat>)
    requires l < |Flat(direct)| && Stuck(direct, l, s, busy)
    ensures Unmovable(direct, s, busy)
  {
    hide Flat, Stuck;
  }

  /** One block of a directory gets a new image, by redirection. */
  method ReplaceBlock(vol: Volume, n: nat, dir: Inode, logical: nat, img: Image, now: u64, ghost t: V.Table)
    returns (ok: bool, ghost next: Inode, ghost touched: set<nat>, ghost back: bool)
    requires vol.Valid() && AgreesAs(vol, t) && InodeOf(vol, n) == Some(dir) && dir.mode != 0 && logical < dir.blocks
             && t[n] == Some(dir)
    modifies vol`pool, vol`super, vol.storage
    ensures StagedMore(old(vol.pool), vol.pool, vol.device)
    ensures vol.Valid() && DataOnly(old(vol.storage.View()), vol.storage.View(), vol.device, vol.csuper, touched)
    ensures touched !! old(vol.Used())
    ensures ok ==>
      AgreesAs(vol, t[n := Some(next)]) && DirMoved(old(TableOf(vol)), TableOf(vol), n, now)
      && InodeOf(vol, n) == Some(next)
    ensures ok ==>
      logical < |old(DirImages(vol, dir))| && DirImages(vol, next) == old(DirImages(vol, dir))[logical := img]
    ensures ok ==> vol.super == old(vol.super)
    ensures ok && old(Sealed(vol)) ==> Sealed(vol)
    ensures !ok && back ==>
      RolledBack(vol.Used(), old(vol.Used()), TableOf(vol), old(TableOf(vol)), vol.super, old(vol.super))
    ensures !ok && !back ==> PoolFull(vol.pool) || vol.storage.faults > old(vol.storage.faults)
    ensures !ok ==>
      Unmovable(dir.direct, vol.super, old(vol.Busy())) || PoolFull(vol.pool)
      || vol.storage.faults > old(vol.storage.faults)
    ensures vol.storage.faults >= old(vol.storage.faults)
  {
    hide Good, PoolOk, Durable, LaySet, SetOf, UsedIn, StageOf, Flat, SlotsOf, CommittedUsed, ImagesOf, PoolFull,
         V.SetOfSeq, V.ThreeViews, V.Sound, DataOnly, SealedIn, Apart, Stuck, Unmovable;
    ghost var others := vol.Used() - V.SetOfSeq(Flat(dir.direct));
    var stamped := dir.(mtime := now, ctime := now);
    StartWriting(vol, n, dir, stamped, t);
    var moved;
    ok, moved, touched, back := WriteMoved(vol, n, stamped, logical, img, t, others);
    next := moved;
    if ok {
      assert InodeOf(vol, n) == Some(next) by {
        assert TableOf(vol)[n] == Some(next);
      }
    } else if Stuck(dir.direct, logical, vol.super, old(vol.Busy())) {
      UnmovableAt(dir.direct, logical, vol.super, old(vol.Busy()));
    }
  }

  /** A stamped copy of an inode in the table is ready to be written through. */
  lemma StartWriting(vol: Volume, n: nat, dir: Inode, stamped: Inode, t: V.Table)
    requires AgreesAs(vol, t) && 0 < n < |t| && t[n] == Some(dir) && dir.mode != 0
    requires stamped == dir.(mtime := stamped.mtime, ctime := stamped.ctime)
    ensures Writing(vol, n, stamped, t, vol.Used() - V.SetOfSeq(Flat(dir.direct)))
    ensures |Flat(dir.direct)| == dir.blocks
  {
    hide LaySet, SetOf, UsedIn, StageOf, Flat, SlotsOf, Apart;
    StartApart(vol.Used(), t, vol.super, n);
    assert t[n := Some(dir)] == t;
    TouchAgrees(vol.Used(), t, vol.super, n, dir, stamped);
    assert V.Sound(vol.super, dir);
  }

  /** The directory grows by one block with this image. */
  method AppendBlock(vol: Volume, n: nat, dir: Inode, img: Image, now: u64)
    returns (ok: bool, ghost next: Inode, ghost touched: set<nat>, ghost back: bool)
    requires vol.Valid() && Agrees(vol) && InodeOf(vol, n) == Some(dir) && dir.mode != 0
    modifies vol`pool, vol`super, vol.storage
    ensures StagedMore(old(vol.pool), vol.pool, vol.device)
    ensures vol.Valid() && DataOnly(old(vol.storage.View()), vol.storage.View(), vol.device, vol.csuper, touched)
    ensures touched !! old(vol.Used())
    ensures ok ==> Agrees(vol) && DirMoved(old(TableOf(vol)), TableOf(vol), n, now) && InodeOf(vol, n) == Some(next)
    ensures ok ==> DirImages(vol, next) == old(DirImages(vol, dir)) + [img]
    ensures ok && old(Sealed(vol)) ==> Sealed(vol)
    ensures !ok && back ==>
      RolledBack(vol.Used(), old(vol.Used()), TableOf(vol), old(TableOf(vol)), vol.super, old(vol.super))
    ensures !ok && !back ==> PoolFull(vol.pool) || vol.storage.faults > old(vol.storage.faults)
    ensures !ok ==>
      Cramped(dir.direct, vol.super, old(vol.Busy())) || PoolFull(vol.pool)
      || vol.storage.faults > old(vol.storage.faults)
    ensures vol.storage.faults >= old(vol.storage.faults)
  {
    hide Good, PoolOk, Durable, LaySet, SetOf, UsedIn, StageOf, Flat, SlotsOf, CommittedUsed, ImagesOf, PoolFull,
         V.SetOfSeq, Writing, V.ThreeViews, V.Sound, DataOnly, SealedIn, Apart, TailFree, NoGrowth, Unmovable;
    next, back := dir, false;
    ghost var view, others, t := vol.storage.View(), vol.Used() - V.SetOfSeq(Flat(dir.direct)), TableOf(vol);
    StartWriting(vol, n, dir, dir, t);
    vol.Shape();
    WritingShort(vol, n, dir, t, others);
    var grown;
    ok, grown, touched, back := GrowForWrite(vol, n, dir, dir.blocks + 1, t, others);
    if !ok {
      return;
    }
    back := false;
    WritingShort(vol, n, grown, t, others);
    LastFree(Flat(grown.direct), dir.blocks, vol.Committed());
    LastFree(Flat(grown.direct), dir.blocks, old(vol.Used()));
    ghost var before, more := vol.storage.View(), {};
    ok, more := WriteInPlace(vol, n, grown, grown.blocks - 1, img, t, others);
    DataOnlyTrans(view, before, vol.storage.View(), vol.device, vol.csuper, touched, more);
    touched := touched + more;
    if !ok {
      return;
    }
    LastImage(ImagesOf(view, vol.device, Flat(dir.direct)), img);
    var last := grown.(size := grown.blocks * BLOCK_SIZE, mtime := now, ctime := now);
    FinishWriting(vol, n, grown, last, t, others);
    ok := WriteInode(vol, n, last);
    next := last;
    if ok {
      assert t[n] == Some(dir);
    }
  }

  lemma LastFree(q: seq<nat>, from: nat, committed: set<nat>)
    requires TailFree(q, from, committed) && |q| == from + 1
    ensures q[from] !in committed
  {
  }

  lemma LastImage(imgs: seq<Image>, img: Image)
    ensures (imgs + BlankImages(1))[|imgs| := img] == imgs + [img]
  {
  }

  /** A file in the middle of a write maps as many blocks as it counts, far below 2^52. */
  lemma WritingShort(vol: Volume, n: nat, inode: Inode, t: V.Table, others: set<nat>)
    requires vol.Valid() && Writing(vol, n, inode, t, others)
    ensures |Flat(inode.direct)| == inode.blocks < 0x1_0000_0000
  {
    hide Good, PoolOk, Durable, LaySet, SetOf, UsedIn, StageOf, Flat, SlotsOf;
    vol.Shape();
    WritingParts(vol, n, inode, t, others);
    V.SoundIsBounded(vol.super, inode);
  }

  lemma FinishWriting(vol: Volume, n: nat, inode: Inode, last: Inode, t: V.Table, others: set<nat>)
    requires Writing(vol, n, inode, t, others)
             && last == inode.(size := last.size, mtime := last.mtime, ctime := last.ctime)
    ensures 0 < n < |t| && V.ThreeViews(vol.Used(), t[n := Some(last)], vol.super)
  {
    hide LaySet, SetOf, UsedIn, StageOf, Flat, SlotsOf, V.ThreeViews;
    TouchAgrees(vol.Used(), t, vol.super, n, inode, last);
  }

  // ---- adding -------------------------------------------------------------

  /** A block with one free record spanning it. */
  function FreshBlock(): Image
  {
    Patch(Zeros(BLOCK_SIZE), 8, Le(BLOCK_SIZE, 2))
  }

  lemma FreshIsEmpty()
    ensures RecordAt(FreshBlock(), 0) == Record(0, BLOCK_SIZE, 0, 0)
    ensures Tiles(FreshBlock(), 0, BLOCK_SIZE) && Entries(FreshBlock(), 0, BLOCK_SIZE) == []
  {
    hide Le, FromLe, Tiles, Entries;
    var z, img := Zeros(BLOCK_SIZE), FreshBlock();
    Pow256Values();
    LeRoundTrip(BLOCK_SIZE, 2);
    LeRoundTrip(0, 8);
    ZeroBytes();
    PatchOutside(z, 8, Le(BLOCK_SIZE, 2), 0, 8);
    PatchInside(z, 8, Le(BLOCK_SIZE, 2), 0, 2);
    assert img[0..8] == Le(0, 8) && img[8..10] == Le(BLOCK_SIZE, 2)[0..2] == Le(BLOCK_SIZE, 2);
    assert img[10] == 0 && img[11] == 0;
    TilesOne(img, 0, BLOCK_SIZE);
  }

  lemma ZeroBytes()
    ensures Le(0, 8) == Zeros(BLOCK_SIZE)[0..8]
  {
    var z := Zeros(BLOCK_SIZE)[0..8];
    assert Le(0, 8) == [0, 0, 0, 0, 0, 0, 0, 0];
  }

  /** Refilling a stretch of one block inserts one entry into the directory. */
  lemma PlaceInDir(imgs: seq<Image>, l: nat, img: Image, k: nat, e: DirEntry)
    requires l < |imgs| && DirTiled(imgs) && Tiles(img, 0, BLOCK_SIZE)
    requires k <= |Entries(imgs[l], 0, BLOCK_SIZE)|
             && Entries(img, 0, BLOCK_SIZE) == Insert(Entries(imgs[l], 0, BLOCK_SIZE), k, e)
    ensures DirTiled(imgs[l := img])
    ensures |AllEntries(imgs[..l])| + k <= |AllEntries(imgs)|
    ensures AllEntries(imgs[l := img]) == Insert(AllEntries(imgs), |AllEntries(imgs[..l])| + k, e)
  {
    hide Tiles, Entries, AllEntries;
    assert imgs[l := imgs[l]] == imgs;
    AllAround(imgs, l, imgs[l]);
    AllAround(imgs, l, img);
  }

  lemma AppendToDir(imgs: seq<Image>, img: Image, e: DirEntry)
    requires DirTiled(imgs) && Tiles(img, 0, BLOCK_SIZE) && Entries(img, 0, BLOCK_SIZE) == [e]
    ensures DirTiled(imgs + [img])
    ensures AllEntries(imgs + [img]) == Insert(AllEntries(imgs), |AllEntries(imgs)|, e)
  {
    hide Tiles, Entries, AllEntries;
    AllConcat(imgs, [img]);
    AllOne(img);
    var all := AllEntries(imgs);
    assert all[..|all|] == all && all[|all|..] == [];
  }

  /** The entry list with one entry more. */
  ghost predicate Added(entries: seq<DirEntry>, entries': seq<DirEntry>, e: DirEntry)
  {
    exists k :: 0 <= k <= |entries| && entries' == Insert(entries, k, e)
  }

  /** No tiled block of the directory has a free record of that length. */
  ghost predicate AllFull(imgs: seq<Image>, needed: nat)
  {
    forall l :: 0 <= l < |imgs| && Tiles(imgs[l], 0, BLOCK_SIZE) ==> NoHole(imgs[l], 0, BLOCK_SIZE, needed)
  }

  /** The search for a block with room, and the redirection that fills it. */
  method AddToBlocks(vol: Volume, n: nat, dir: Inode, e: DirEntry, now: u64)
    returns (placed: bool, ok: bool, ghost next: Inode, ghost touched: set<nat>, ghost back: bool)
    requires vol.Valid() && Agrees(vol) && InodeOf(vol, n) == Some(dir) && dir.mode != 0
    requires 0 < |e.name| <= NAME_MAX && e.inode != 0
    modifies vol`pool, vol`super, vol.storage
    ensures StagedMore(old(vol.pool), vol.pool, vol.device)
    ensures vol.Valid() && DataOnly(old(vol.storage.View()), vol.storage.View(), vol.device, vol.csuper, touched)
    ensures touched !! old(vol.Used())
    ensures ok ==> Agrees(vol) && InodeOf(vol, n) == Some(next)
    ensures ok && placed ==> DirMoved(old(TableOf(vol)), TableOf(vol), n, now)
    ensures ok && placed && DirTiled(old(DirImages(vol, dir))) ==>
      DirTiled(DirImages(vol, next)) && Added(AllEntries(old(DirImages(vol, dir))), AllEntries(DirImages(vol, next)), e)
    ensures ok && placed && DirTiled(old(DirImages(vol, dir))) ==>
      |DirImages(vol, next)| == |old(DirImages(vol, dir))| && !AllFull(old(DirImages(vol, dir)), Needed(|e.name|))
    ensures ok && !placed ==>
      next == dir && vol.storage.View() == old(vol.storage.View())
      && AllFull(old(DirImages(vol, dir)), Needed(|e.name|))
    ensures ok && old(Sealed(vol)) ==> Sealed(vol)
    ensures (!ok && back) || (ok && !placed) ==>
      RolledBack(vol.Used(), old(vol.Used()), TableOf(vol), old(TableOf(vol)), vol.super, old(vol.super))
    ensures !ok && !back ==> PoolFull(vol.pool) || vol.storage.faults > old(vol.storage.faults)
    ensures !ok && old(Readable(vol.storage.View(), vol.device, vol.csuper, Flat(dir.direct))) ==>
      Cramped(dir.direct, vol.super, old(vol.Busy())) || PoolFull(vol.pool)
      || vol.storage.faults > old(vol.storage.faults)
    ensures vol.storage.faults >= old(vol.storage.faults)
  {
    hide Good, PoolOk, Durable, LaySet, SetOf, UsedIn, StageOf, Flat, SlotsOf, CommittedUsed, ImagesOf, PoolFull,
         V.SetOfSeq, Insert, V.ThreeViews, V.Sound, DataOnly, SealedIn, Tiles, Entries, AllEntries, RecordAt, Readable,
         Unmovable, NoGrowth, NoHole;
    placed, ok, next, touched, back := false, true, dir, {}, true;
    DataOnlyRefl(vol.storage.View(), vol.device, vol.csuper, touched);
    ghost var imgs := DirImages(vol, dir);
    AgreesSound(vol, n, dir);
    SoundParts(vol.super, dir);
    var logical := 0;
    while logical < dir.blocks
      invariant vol.Valid() && vol.storage.View() == old(vol.storage.View())
                && vol.storage.faults >= old(vol.storage.faults)
      invariant vol.pool == old(vol.pool) && vol.super == old(vol.super) && 0 <= logical <= dir.blocks
      invariant dir.blocks == |imgs| && AllFull(imgs[..logical], Needed(|e.name|))
    {
      var img, fit, filled;
      ghost var k;
      ok, img := ReadDirBlock(vol, dir, logical);
      if !ok {
        return;
      }
      fit, filled, k := Place(img, e);
      if fit {
        placed := true;
        ok, next, touched, back := ReplaceBlock(vol, n, dir, logical, filled, now, TableOf(vol));
        if ok && DirTiled(imgs) {
          PlaceInDir(imgs, logical, filled, k, e);
          assert !NoHole(imgs[logical], 0, BLOCK_SIZE, Needed(|e.name|));
        }
        return;
      }
      assert imgs[..logical + 1] == imgs[..logical] + [img];
      logical := logical + 1;
    }
    assert imgs[..logical] == imgs;
    ok := true;
  }

  lemma AgreesSound(vol: Volume, n: nat, dir: Inode)
    requires Agrees(vol) && InodeOf(vol, n) == Some(dir) && dir.mode != 0
    ensures V.Sound(vol.super, dir)
  {
    hide LaySet, SetOf, UsedIn, StageOf, Flat, SlotsOf;
  }

  /** The blocks of the directory in slot `n`. */
  ghost function ImagesIn(vol: Volume, n: nat): seq<Image>
    reads vol`committed, vol`csuper, vol`pool, vol.storage
  {
    match InodeOf(vol, n)
    case Some(i) => DirImages(vol, i)
    case None => []
  }

  /** A directory as a map; empty when there is no inode. */
  ghost function MapIn(o: Option<Inode>, view: Disk, d: nat): map<Name, u64>
  {
    match o
    case Some(i) => NameMap(AllEntries(ImagesOf(view, d, Flat(i.direct))))
    case None => map[]
  }

  /** A directory whose blocks are tiled and whose names are distinct. */
  ghost predicate OkIn(o: Option<Inode>, view: Disk, d: nat): (r: bool)
    ensures r ==> IsDir(o)
  {
    match o
    case Some(i) =>
      var imgs := ImagesOf(view, d, Flat(i.direct));
      HasMode(i.mode, MODE_DIR) && DirTiled(imgs) && Distinct(AllEntries(imgs))
    case None => false
  }

  ghost predicate ReadableIn(o: Option<Inode>, view: Disk, d: nat, s: Superblock)
  {
    match o
    case Some(i) => Readable(view, d, s, Flat(i.direct))
    case None => false
  }

  ghost function MapOf(vol: Volume, n: nat): map<Name, u64>
    reads vol`committed, vol`csuper, vol`pool, vol.storage
  {
    MapIn(InodeOf(vol, n), vol.storage.View(), vol.device)
  }

  ghost predicate DirOk(vol: Volume, n: nat)
    reads vol`committed, vol`csuper, vol`pool, vol.storage
  {
    OkIn(InodeOf(vol, n), vol.storage.View(), vol.device)
  }

  ghost predicate DirReadable(vol: Volume, n: nat)
    reads vol`committed, vol`csuper, vol`pool, vol.storage
  {
    ReadableIn(InodeOf(vol, n), vol.storage.View(), vol.device, vol.csuper)
  }

  /** What an insertion does to the map. */
  lemma AddedMap(entries: seq<DirEntry>, entries': seq<DirEntry>, e: DirEntry)
    requires Added(entries, entries', e) && e.name !in NameMap(entries)
    ensures NameMap(entries') == NameMap(entries)[e.name := e.inode]
    ensures Distinct(entries) ==> Distinct(entries')
  {
    hide Insert, NameMap, Distinct, Unnamed;
    var k :| 0 <= k <= |entries| && entries' == Insert(entries, k, e);
    BindUnnamed(entries, e.name);
    BindInsert(entries, k, e);
  }

  /** Binding a name once more: the first of its entries counts. */
  lemma {:induction false} BindAgain(entries: seq<DirEntry>, k: nat, e: DirEntry)
    requires k <= |entries|
    ensures var m, m' := NameMap(entries), NameMap(Insert(entries, k, e));
      m' == m[e.name := e.inode] || (e.name in m && m' == m)
  {
    hide NameMap;
    var all := Insert(entries, k, e);
    if k == 0 {
      assert all == [e] + entries;
      NameMapCons(e, entries);
    } else {
      var first, tail := entries[0], entries[1..];
      assert entries == [first] + tail && all == [first] + Insert(tail, k - 1, e);
      NameMapCons(first, tail);
      NameMapCons(first, Insert(tail, k - 1, e));
      BindAgain(tail, k - 1, e);
    }
  }

  lemma NamedTwice(entries: seq<DirEntry>, k: nat, e: DirEntry)
    requires k <= |entries| && !Unnamed(entries, e.name)
    ensures !Distinct(Insert(entries, k, e))
  {
    var all := Insert(entries, k, e);
    var j :| 0 <= j < |entries| && entries[j].name == e.name;
    var l := if j < k then j else j + 1;
    assert all[k] == e && all[l] == entries[j];
    assert all[if l < k then l else k].name == all[if l < k then k else l].name;
  }

  /** What goes wrong when the lookup misses a present name: the directory stops being a map. */
  lemma AddedTwice(entries: seq<DirEntry>, entries': seq<DirEntry>, e: DirEntry)
    requires Added(entries, entries', e) && e.name in NameMap(entries)
    ensures !Distinct(entries')
    ensures NameMap(entries') == NameMap(entries) || NameMap(entries') == NameMap(entries)[e.name := e.inode]
  {
    hide Insert, NameMap, Distinct, Unnamed;
    var k :| 0 <= k <= |entries| && entries' == Insert(entries, k, e);
    BindUnnamed(entries, e.name);
    BindAgain(entries, k, e);
    NamedTwice(entries, k, e);
  }

  /**
    The law of a successful insertion, whatever the device did: the directory
    stays a map exactly when the name was absent, and then only that binding is new.
   */
  ghost predicate MapLaw(m: map<Name, u64>, m': map<Name, u64>, isMap: bool, name: Name, target: u64)
  {
    && (isMap <==> name !in m)
    && (m' == m[name := target] || (name in m && m' == m))
  }

  /** A tiled directory stays tiled and has one entry more; it has one block more exactly when no block had room. */
  ghost predicate Entered(imgs: seq<Image>, imgs': seq<Image>, e: DirEntry)
  {
    DirTiled(imgs) ==>
      && DirTiled(imgs') && Added(AllEntries(imgs), AllEntries(imgs'), e)
      && |imgs'| == if AllFull(imgs, Needed(|e.name|)) then |imgs| + 1 else |imgs|
  }

  /** adytumfs_dir_add after the lookup: a free record is refilled, or else the directory grows by a block. */
  method AddEntry(vol: Volume, n: nat, dir: Inode, e: DirEntry, now: u64)
    returns (ok: bool, ghost next: Inode, ghost touched: set<nat>, ghost back: bool)
    requires vol.Valid() && Agrees(vol) && InodeOf(vol, n) == Some(dir) && dir.mode != 0
    requires 0 < |e.name| <= NAME_MAX && e.inode != 0
    modifies vol`pool, vol`super, vol.storage
    ensures StagedMore(old(vol.pool), vol.pool, vol.device)
    ensures vol.Valid() && DataOnly(old(vol.storage.View()), vol.storage.View(), vol.device, vol.csuper, touched)
    ensures touched !! old(vol.Used())
    ensures ok ==> Agrees(vol) && InodeOf(vol, n) == Some(next) && DirMoved(old(TableOf(vol)), TableOf(vol), n, now)
    ensures ok && old(Sealed(vol)) ==> Sealed(vol)
    ensures !ok && back ==>
      RolledBack(vol.Used(), old(vol.Used()), TableOf(vol), old(TableOf(vol)), vol.super, old(vol.super))
    ensures !ok && !back ==> PoolFull(vol.pool) || vol.storage.faults > old(vol.storage.faults)
    ensures !ok && old(DirReadable(vol, n)) ==>
      Cramped(dir.direct, vol.super, old(vol.Busy())) || PoolFull(vol.pool)
      || vol.storage.faults > old(vol.storage.faults)
    ensures vol.storage.faults >= old(vol.storage.faults)
    ensures ok ==> Entered(old(DirImages(vol, dir)), DirImages(vol, next), e)
  {
    hide Good, PoolOk, Durable, LaySet, SetOf, UsedIn, StageOf, Flat, SlotsOf, CommittedUsed, ImagesOf, PoolFull,
         V.SetOfSeq, Insert, V.ThreeViews, V.Sound, DataOnly, SealedIn, Tiles, Entries, AllEntries, RecordAt, Readable,
         Added, DirTiled, FreshBlock, Cramped, AllFull;
    ghost var imgs := DirImages(vol, dir);
    var placed;
    placed, ok, next, touched, back := AddToBlocks(vol, n, dir, e, now);
    if ok && !placed {
      FreshIsEmpty();
      var img;
      ghost var k, more, view;
      ok, img, k := Place(FreshBlock(), e);
      InsertOnly(k, e);
      view := vol.storage.View();
      ok, next, more, back := AppendBlock(vol, n, dir, img, now);
      DataOnlyTrans(old(vol.storage.View()), view, vol.storage.View(), vol.device, vol.csuper, touched, more);
      touched := touched + more;
      if ok && DirTiled(imgs) {
        AppendToDir(imgs, img, e);
        AddedEnd(AllEntries(imgs), e);
      }
    }
  }

  /**
    adytumfs_dir_add: a present name is refused and nothing changes; an absent
    one is bound, and no other binding moves.  Because a lookup that fails on a
    device error also counts as absent, a name can be bound twice; a success
    keeps the directory a map exactly when the name was absent.
   */
  method DirAdd(vol: Volume, n: nat, name: Name, target: u64, kind: u8, now: u64)
    returns (ok: bool, ghost touched: set<nat>, ghost back: bool)
    requires vol.Valid() && Agrees(vol)
    modifies vol`pool, vol`super, vol.storage
    ensures StagedMore(old(vol.pool), vol.pool, vol.device)
    ensures vol.Valid() && DataOnly(old(vol.storage.View()), vol.storage.View(), vol.device, vol.csuper, touched)
    ensures touched !! old(vol.Used())
    ensures ok ==> Agrees(vol) && DirMoved(old(TableOf(vol)), TableOf(vol), n, now)
    ensures ok ==> 0 < |name| <= NAME_MAX && target != 0 && IsDir(old(InodeOf(vol, n)))
    ensures old(DirOk(vol, n) && DirReadable(vol, n)) && vol.storage.faults == old(vol.storage.faults)
            && name in old(MapOf(vol, n)) ==>
      !ok && back
    ensures ok && old(DirOk(vol, n)) ==> MapLaw(old(MapOf(vol, n)), MapOf(vol, n), DirOk(vol, n), name, target)
    ensures ok && old(Sealed(vol)) ==> Sealed(vol)
    ensures !ok && back ==>
      RolledBack(vol.Used(), old(vol.Used()), TableOf(vol), old(TableOf(vol)), vol.super, old(vol.super))
    ensures !ok && !back ==> PoolFull(vol.pool) || vol.storage.faults > old(vol.storage.faults)
    ensures !ok && old(DirOk(vol, n) && DirReadable(vol, n)) && 0 < |name| <= NAME_MAX && target != 0
            && name !in old(MapOf(vol, n)) ==>
      Cramped(old(InodeOf(vol, n)).value.direct, vol.super, old(vol.Busy())) || PoolFull(vol.pool)
      || vol.storage.faults > old(vol.storage.faults)
    ensures vol.storage.faults >= old(vol.storage.faults)
    ensures ok ==> Entered(old(ImagesIn(vol, n)), ImagesIn(vol, n), DirEntry(name, target, kind))
  {
    hide Good, PoolOk, Durable, LaySet, SetOf, UsedIn, StageOf, Flat, SlotsOf, CommittedUsed, ImagesOf, PoolFull,
         V.SetOfSeq, Insert, V.ThreeViews, V.Sound, DataOnly, SealedIn, Tiles, Entries, AllEntries, RecordAt, Readable,
         NameMap, Distinct, Added, DirTiled, FreshBlock, Cramped, AllFull;
    ok, touched, back := false, {}, true;
    DataOnlyRefl(vol.storage.View(), vol.device, vol.csuper, touched);
    if |name| == 0 || |name| > NAME_MAX || target == 0 {
      return;
    }
    AgreesSlots(vol);
    var present, _ := DirLookup(vol, n, name);
    if present {
      return;
    }
    var dir;
    ok, dir := ReadInode(vol, n);
    if !ok || !HasMode(dir.mode, MODE_DIR) {
      return false, touched, true;
    }
    var e := DirEntry(name, target, kind);
    ghost var imgs, next := DirImages(vol, dir), dir;
    ok, next, touched, back := AddEntry(vol, n, dir, e, now);
    if ok && DirTiled(imgs) {
      if name in NameMap(AllEntries(imgs)) {
        AddedTwice(AllEntries(imgs), AllEntries(DirImages(vol, next)), e);
      } else {
        AddedMap(AllEntries(imgs), AllEntries(DirImages(vol, next)), e);
      }
    }
  }

  lemma AddedEnd(entries: seq<DirEntry>, e: DirEntry)
    ensures Added(entries, Insert(entries, |entries|, e), e)
  {
    hide Insert;
  }

  lemma InsertOnly(k: nat, e: DirEntry)
    ensures k == 0 ==> Insert([], k, e) == [e]
  {
  }

  lemma AgreesSlots(vol: Volume)
    requires Agrees(vol)
    ensures V.SlotsSound(TableOf(vol), vol.super)
  {
    hide LaySet, SetOf, UsedIn, StageOf, SlotsOf;
  }

  // ---- removing -----------------------------------------------------------

  /** Freeing the first record of a name removes that entry from the directory. */
  lemma RemoveFromDir(imgs: seq<Image>, l: nat, name: Name, at: nat)
    requires l < |imgs| && DirTiled(imgs) && FirstNamed(imgs[l], name, at) && Unnamed(AllEntries(imgs[..l]), name)
    ensures name in NameMap(AllEntries(imgs)) && DirTiled(imgs[l := Tombstone(imgs[l], at)])
    ensures Distinct(AllEntries(imgs)) ==>
      && NameMap(AllEntries(imgs[l := Tombstone(imgs[l], at)])) == NameMap(AllEntries(imgs)) - {name}
      && Distinct(AllEntries(imgs[l := Tombstone(imgs[l], at)]))
  {
    hide Tiles, Entries, AllEntries, RecordAt, NameMap, Distinct, Tombstone;
    FoundAt(imgs, l, name, at);
    var img, img' := imgs[l], Tombstone(imgs[l], at);
    TombstoneBlock(img, at);
    assert imgs[l := img] == imgs;
    AllAround(imgs, l, img);
    AllAround(imgs, l, img');
    var all, before, j := AllEntries(imgs), AllEntries(imgs[..l]), |Entries(img, 0, at)|;
    var k := |before| + j;
    assert AllEntries(imgs[l := img']) == all[..k] + all[k + 1..];
    if Distinct(all) {
      BindRemove(all, k);
    }
  }

  /** adytumfs_dir_remove: the binding goes and no other moves; a missing name leaves everything alone. */
  method DirRemove(vol: Volume, n: nat, name: Name, now: u64, ghost t: V.Table)
    returns (ok: bool, ghost touched: set<nat>, ghost back: bool)
    requires vol.Valid() && AgreesAs(vol, t) && (n < |t| ==> t[n] == TableOf(vol)[n])
    modifies vol`pool, vol`super, vol.storage
    ensures vol.Valid() && DataOnly(old(vol.storage.View()), vol.storage.View(), vol.device, vol.csuper, touched)
    ensures touched !! old(vol.Used())
    ensures ok ==> DirMoved(old(TableOf(vol)), TableOf(vol), n, now) && IsDir(old(InodeOf(vol, n)))
    ensures ok ==> n < |t| && AgreesAs(vol, t[n := InodeOf(vol, n)]) && vol.super == old(vol.super)
    ensures ok && old(DirOk(vol, n)) ==>
      DirOk(vol, n) && name in old(MapOf(vol, n)) && MapOf(vol, n) == old(MapOf(vol, n)) - {name}
    ensures ok && DirTiled(old(ImagesIn(vol, n))) ==> DirTiled(ImagesIn(vol, n))
    ensures old(DirOk(vol, n)) && name !in old(MapOf(vol, n)) ==> !ok && back
    ensures ok && old(Sealed(vol)) ==> Sealed(vol)
    ensures !ok && back ==>
      RolledBack(vol.Used(), old(vol.Used()), TableOf(vol), old(TableOf(vol)), vol.super, old(vol.super))
    ensures !ok && !back ==> PoolFull(vol.pool) || vol.storage.faults > old(vol.storage.faults)
    ensures !ok && old(DirOk(vol, n) && DirReadable(vol, n)) && 0 < |name| <= NAME_MAX && name in old(MapOf(vol, n)) ==>
      Unmovable(old(InodeOf(vol, n)).value.direct, vol.super, old(vol.Busy())) || PoolFull(vol.pool)
      || vol.storage.faults > old(vol.storage.faults)
    ensures vol.storage.faults >= old(vol.storage.faults)
  {
    hide Good, PoolOk, Durable, LaySet, SetOf, UsedIn, StageOf, Flat, SlotsOf, CommittedUsed, ImagesOf, PoolFull,
         V.SetOfSeq, FirstNamed, V.ThreeViews, V.Sound, DataOnly, SealedIn, Tiles, Entries, AllEntries, RecordAt,
         Readable, NameMap, Distinct, DirTiled, Tombstone, Unnamed, Unmovable;
    ok, touched, back := false, {}, true;
    DataOnlyRefl(vol.storage.View(), vol.device, vol.csuper, touched);
    if |name| == 0 || |name| > NAME_MAX {
      return;
    }
    var dir;
    ok, dir := ReadInode(vol, n);
    if !ok || !HasMode(dir.mode, MODE_DIR) {
      return false, touched, true;
    }
    SoundIn(vol, n, dir, t);
    ghost var imgs, tiled := DirImages(vol, dir), DirTiled(DirImages(vol, dir));
    NoneYet(imgs, name);
    SoundParts(vol.super, dir);
    var logical := 0;
    while logical < dir.blocks
      invariant vol.Valid() && vol.storage.View() == old(vol.storage.View())
                && vol.storage.faults >= old(vol.storage.faults)
      invariant vol.pool == old(vol.pool) && vol.super == old(vol.super) && 0 <= logical <= dir.blocks == |imgs|
      invariant tiled ==> Unnamed(AllEntries(imgs[..logical]), name)
    {
      var img;
      ok, img := ReadDirBlock(vol, dir, logical);
      if !ok {
        return;
      }
      var found, at := FindName(img, name);
      if tiled {
        TiledAt(imgs, logical);
      }
      if found {
        ghost var next;
        if tiled {
          RemoveFromDir(imgs, logical, name, at);
        }
        ok, next, touched, back := ReplaceBlock(vol, n, dir, logical, Tombstone(img, at), now, t);
        return;
      }
      if tiled {
        NotInBlock(imgs, logical, name);
      }
      logical := logical + 1;
    }
    assert imgs[..logical] == imgs;
    BindUnnamed(AllEntries(imgs), name);
    ok := false;
  }

  lemma SoundIn(vol: Volume, n: nat, dir: Inode, t: V.Table)
    requires AgreesAs(vol, t) && 0 < n < |t| && t[n] == Some(dir) && dir.mode != 0
    ensures V.Sound(vol.super, dir)
  {
    hide LaySet, SetOf, UsedIn, StageOf, Flat, SlotsOf;
  }

  lemma TiledAt(imgs: seq<Image>, l: nat)
    requires DirTiled(imgs) && l < |imgs|
    ensures Tiles(imgs[l], 0, BLOCK_SIZE) && EntriesOf(imgs[l]) == Entries(imgs[l], 0, BLOCK_SIZE)
  {
    hide Tiles, Entries;
  }

  // ---- iterating ----------------------------------------------------------

  /** The cursor stands at a record boundary. */
  ghost predicate OnRecord(imgs: seq<Image>, p: nat)
  {
    p / BLOCK_SIZE < |imgs| ==> Tiles(imgs[p / BLOCK_SIZE], p % BLOCK_SIZE, BLOCK_SIZE)
  }

  /** The entries from the cursor on. */
  ghost function EntriesAfter(imgs: seq<Image>, p: nat): seq<DirEntry>
  {
    if p / BLOCK_SIZE < |imgs| && OnRecord(imgs, p) then
      Entries(imgs[p / BLOCK_SIZE], p % BLOCK_SIZE, BLOCK_SIZE) + AllEntries(imgs[p / BLOCK_SIZE + 1..])
    else []
  }

  lemma AfterStart(imgs: seq<Image>, l: nat)
    requires DirTiled(imgs) && l <= |imgs|
    ensures OnRecord(imgs, BLOCK_SIZE * l) && EntriesAfter(imgs, BLOCK_SIZE * l) == AllEntries(imgs[l..])
  {
    hide Tiles, Entries;
    if l < |imgs| {
      assert BLOCK_SIZE * l / BLOCK_SIZE == l && BLOCK_SIZE * l % BLOCK_SIZE == 0;
      assert imgs[l..][0] == imgs[l] && imgs[l..][1..] == imgs[l + 1..];
    }
  }

  /** A step that stays in its block, or ends exactly at the next one. */
  lemma CursorStep(p: nat, length: nat)
    requires p % BLOCK_SIZE + length <= BLOCK_SIZE && length > 0
    ensures p % BLOCK_SIZE + length < BLOCK_SIZE ==>
      (p + length) / BLOCK_SIZE == p / BLOCK_SIZE && (p + length) % BLOCK_SIZE == p % BLOCK_SIZE + length
    ensures p % BLOCK_SIZE + length == BLOCK_SIZE ==> p + length == BLOCK_SIZE * (p / BLOCK_SIZE + 1)
  {
  }

  /** One record further. */
  lemma AfterStep(imgs: seq<Image>, p: nat)
    requires DirTiled(imgs) && OnRecord(imgs, p) && p / BLOCK_SIZE < |imgs|
    ensures var img, w := imgs[p / BLOCK_SIZE], p % BLOCK_SIZE;
      && RecordFits(img, w, BLOCK_SIZE)
      && OnRecord(imgs, p + RecordAt(img, w).length)
      && EntriesAfter(imgs, p) == (if RecordAt(img, w).inode != 0 then [EntryAt(img, w, BLOCK_SIZE)] else [])
                                  + EntriesAfter(imgs, p + RecordAt(img, w).length)
  {
    hide Tiles, Entries, RecordAt, EntryAt, AllEntries, DirTiled;
    var l, w := p / BLOCK_SIZE, p % BLOCK_SIZE;
    var img := imgs[l];
    TilesHead(img, w, BLOCK_SIZE);
    var n := RecordAt(img, w).length;
    CursorStep(p, n);
    if w + n == BLOCK_SIZE {
      AfterStart(imgs, l + 1);
      TilesEmpty(img, BLOCK_SIZE);
      Chained(Entries(img, w, BLOCK_SIZE), [], AllEntries(imgs[l + 1..]));
    } else {
      Chained(Entries(img, w, w + n), Entries(img, w + n, BLOCK_SIZE), AllEntries(imgs[l + 1..]));
    }
  }

  lemma Chained(a: seq<DirEntry>, b: seq<DirEntry>, c: seq<DirEntry>)
    ensures (a + b) + c == a + (b + c) && [] + c == c && a + [] == a
  {
  }

  /**
    adytumfs_dir_iter: 0 hands out the next live entry and moves the cursor
    just past it, 1 means there is none left.
   */
  method DirIter(vol: Volume, n: nat, cursor: nat) returns (r: int, next: nat, e: DirEntry)
    requires vol.Valid() && V.SlotsSound(TableOf(vol), vol.super)
    modifies vol.storage
    ensures vol.Valid() && vol.storage.View() == old(vol.storage.View())
    ensures r == -1 || r == 0 || r == 1
    ensures r >= 0 ==> IsDir(InodeOf(vol, n))
    ensures r == 0 ==> cursor < next <= BLOCK_SIZE * |DirImages(vol, InodeOf(vol, n).value)|
    ensures r >= 0 && DirTiled(DirImages(vol, InodeOf(vol, n).value))
            && OnRecord(DirImages(vol, InodeOf(vol, n).value), cursor) ==>
      var imgs := DirImages(vol, InodeOf(vol, n).value);
      OnRecord(imgs, next) && EntriesAfter(imgs, cursor) == if r == 0 then [e] + EntriesAfter(imgs, next) else []
    ensures (&& r == -1 && vol.storage.faults == old(vol.storage.faults) && IsDir(InodeOf(vol, n))
             && DirReadable(vol, n)
             && DirTiled(DirImages(vol, InodeOf(vol, n).value))) ==>
               !OnRecord(DirImages(vol, InodeOf(vol, n).value), cursor)
    ensures vol.storage.faults >= old(vol.storage.faults)
  {
    hide Good, PoolOk, Durable, LaySet, SetOf, StageOf, Flat, SlotsOf, Readable, ImagesOf, V.Sound, Tiles, RecordAt,
         EntriesAfter, DirTiled, OnRecord;
    r, next, e := -1, cursor, DirEntry([], 0, 0);
    var ok, dir := ReadInode(vol, n);
    if !ok || !HasMode(dir.mode, MODE_DIR) {
      return;
    }
    assert V.Sound(vol.super, dir);
    SoundParts(vol.super, dir);
    ghost var imgs := DirImages(vol, dir);
    ghost var good := DirTiled(imgs) && OnRecord(imgs, cursor);
    while next + DIR_HEADER <= BLOCK_SIZE * dir.blocks
      invariant vol.Valid() && vol.storage.View() == old(vol.storage.View())
                && vol.storage.faults >= old(vol.storage.faults)
      invariant good ==> OnRecord(imgs, next) && EntriesAfter(imgs, next) == EntriesAfter(imgs, cursor)
      invariant next >= cursor && |imgs| == dir.blocks
      decreases BLOCK_SIZE * dir.blocks - next
    {
      var position := next;
      var logical, within := position / BLOCK_SIZE, position % BLOCK_SIZE;
      var img;
      ok, img := ReadDirBlock(vol, dir, logical);
      if !ok {
        return;
      }
      if good {
        AfterStep(imgs, position);
      }
      if within + DIR_HEADER > BLOCK_SIZE {
        return;
      }
      var record := RecordAt(img, within);
      if record.length < DIR_HEADER || within + record.length > BLOCK_SIZE {
        return;
      }
      next := position + record.length;
      if record.inode != 0 {
        if DIR_HEADER + record.nameLen > record.length {
          return;
        }
        e := DirEntry(img[within + DIR_HEADER..within + DIR_HEADER + record.nameLen], record.inode, record.kind);
        return 0, next, e;
      }
      NothingBefore(EntriesAfter(imgs, next));
    }
    if good && next / BLOCK_SIZE < |imgs| {
      AfterStep(imgs, next);
    }
    NothingAfter(imgs, next);
    r := 1;
  }

  lemma NothingBefore(s: seq<DirEntry>)
    ensures [] + s == s
  {
  }

  lemma NothingAfter(imgs: seq<Image>, p: nat)
    ensures p / BLOCK_SIZE >= |imgs| ==> EntriesAfter(imgs, p) == []
  {
  }

  /** Iterating from cursor 0 ends, and yields every live entry exactly once, in order. */
  method DirList(vol: Volume, n: nat) returns (ok: bool, out: seq<DirEntry>)
    requires vol.Valid() && V.SlotsSound(TableOf(vol), vol.super)
    modifies vol.storage
    ensures vol.Valid() && vol.storage.View() == old(vol.storage.View())
    ensures ok ==> IsDir(InodeOf(vol, n))
    ensures ok && DirTiled(DirImages(vol, InodeOf(vol, n).value)) ==>
      out == AllEntries(DirImages(vol, InodeOf(vol, n).value))
    ensures (&& IsDir(InodeOf(vol, n)) && DirReadable(vol, n) && DirTiled(DirImages(vol, InodeOf(vol, n).value))
             && vol.storage.faults == old(vol.storage.faults)) ==> ok
    ensures vol.storage.faults >= old(vol.storage.faults)
  {
    hide Good, PoolOk, Durable, LaySet, SetOf, StageOf, Flat, SlotsOf, Readable, ImagesOf, V.Sound, EntriesAfter,
         DirTiled, OnRecord, AllEntries;
    out := [];
    var cursor: nat, r: int, e := 0, 0, DirEntry([], 0, 0);
    ghost var imgs := if InodeOf(vol, n).Some? then DirImages(vol, InodeOf(vol, n).value) else [];
    if DirTiled(imgs) {
      AfterStart(imgs, 0);
      assert imgs[0..] == imgs;
      NothingBefore(EntriesAfter(imgs, 0));
    }
    while r == 0
      invariant vol.Valid() && vol.storage.View() == old(vol.storage.View())
                && vol.storage.faults >= old(vol.storage.faults)
      invariant r == -1 || r == 0 || r == 1
      invariant r == 0 && out != [] ==> cursor <= BLOCK_SIZE * |imgs|
      invariant r == 1 ==> IsDir(InodeOf(vol, n))
      invariant DirTiled(imgs) && r >= 0 ==>
        OnRecord(imgs, cursor) && AllEntries(imgs) == out + if r == 0 then EntriesAfter(imgs, cursor) else []
      invariant r == -1 && IsDir(InodeOf(vol, n)) && DirReadable(vol, n) && DirTiled(imgs) ==>
        vol.storage.faults > old(vol.storage.faults)
      decreases if r == 0 then 1 else 0, BLOCK_SIZE * |imgs| - cursor
    {
      ghost var before := cursor;
      r, cursor, e := DirIter(vol, n, cursor);
      if r == 0 {
        assert out + ([e] + EntriesAfter(imgs, cursor)) == (out + [e]) + EntriesAfter(imgs, cursor);
        out := out + [e];
      }
    }
    ok := r == 1;
  }
}
