/** Creating, unlinking and resolving by name (src/fs/adytumfs_ops.c). */
module Ops {
  import opened Bytes
  import opened BlockCache
  import opened Blocks
  import opened Superblocks
  import opened Durability
  import opened Staging
  import opened Volumes
  import opened Extents
  import opened Inodes
  import opened InodeOps
  import opened Files
  import opened DirRecords
  import opened Directories
  import V = Views
  import A = Audits

  const DTYPE_REG := 1
  const DTYPE_DIR := 2
  const DTYPE_LNK := 3

  function TypeOf(mode: u16): u8
  {
    if HasMode(mode, MODE_DIR) then DTYPE_DIR else if HasMode(mode, MODE_LNK) then DTYPE_LNK else DTYPE_REG
  }

  lemma NewbornSound(s: Superblock, mode: u16, generation: u64, now: u64, nsec: u32)
    ensures var i := Newborn(mode, generation, now, nsec); V.Sound(s, i) && Flat(i.direct) == []
  {
  }

  /** Allocating an inode keeps the records in agreement. */
  lemma BornAgrees(used: set<nat>, t: V.Table, s: Superblock, k: nat, mode: u16, now: u64, nsec: u32)
    requires V.ThreeViews(used, t, s) && 1 <= k < |t| && t[k].Some? && t[k].value.mode == 0 && mode != 0
    ensures s.freeInodes > 0
    ensures V.ThreeViews(used, t[k := Some(Newborn(mode, t[k].value.generation, now, nsec))],
      s.(freeInodes := SubU64(s.freeInodes, 1)))
  {
    hide V.ThreeViews, V.Sound;
    NewbornSound(s, mode, t[k].value.generation, now, nsec);
    V.BirthViews(used, t, s, k, Newborn(mode, t[k].value.generation, now, nsec));
  }

  lemma {:induction false} AllTaken(t: V.Table, n: nat)
    requires n <= |t| && forall k :: 0 < k < n ==> V.InUse(t[k])
    ensures V.FreeSlots(t, n) == 0
  {
    if n > 1 {
      AllTaken(t, n - 1);
    }
  }

  /** In an agreeing table there is no slot to allocate exactly when the counter says so. */
  lemma NoSlotCounted(used: set<nat>, t: V.Table, s: Superblock)
    requires V.ThreeViews(used, t, s)
    ensures NoSlot(t) <==> s.freeInodes == 0
  {
    hide V.Sound, Flat;
    if NoSlot(t) {
      AllTaken(t, |t|);
    } else {
      var k :| 0 < k < |t| && t[k].Some? && t[k].value.mode == 0 && !exists j :: 0 < j < k && t[j].None?;
      V.FreeUpdate(t, |t|, k, t[k]);
      SomeFree(t, |t|, k);
    }
  }

  lemma {:induction false} SomeFree(t: V.Table, n: nat, k: nat)
    requires 0 < k < n <= |t| && !V.InUse(t[k])
    ensures V.FreeSlots(t, n) > 0
  {
    if k < n - 1 {
      SomeFree(t, n - 1, k);
    }
  }

  /** Freeing an inode that maps nothing keeps the records in agreement. */
  lemma DiedAgrees(used: set<nat>, t: V.Table, s: Superblock, k: nat, x: Inode)
    requires V.ThreeViews(used, t, s) && 1 <= k < |t| && V.InUse(t[k]) && Flat(t[k].value.direct) == [] && x.mode == 0
    ensures V.ThreeViews(used, t[k := Some(x)], s.(freeInodes := AddU64(s.freeInodes, 1)))
  {
    hide V.ThreeViews, V.Sound, Flat;
    V.DeathViews(used, t, s, k, x);
  }

  /** Every used slot is as before, and no free slot came into use. */
  ghost predicate SameFiles(t: V.Table, t': V.Table)
  {
    |t| == |t'| && forall k :: 0 <= k < |t| ==>
      (V.InUse(t[k]) ==> t'[k] == t[k]) && (!V.InUse(t[k]) ==> !V.InUse(t'[k]))
  }

  /** The rollback of a create that could not be named: the slot is free again, nothing else moved. */
  lemma Undone(used: set<nat>, t: V.Table, s: Superblock, k: nat, mode: u16, now: u64, nsec: u32)
    requires V.ThreeViews(used, t, s) && 1 <= k < |t| && t[k].Some? && t[k].value.mode == 0 && mode != 0
    ensures var born := Newborn(mode, t[k].value.generation, now, nsec);
      V.ThreeViews(used, t[k := Some(born.(mode := 0))], s) && SameFiles(t, t[k := Some(born.(mode := 0))])
  {
    hide V.ThreeViews, V.Sound, Flat;
    var born := Newborn(mode, t[k].value.generation, now, nsec);
    var u := t[k := Some(born)];
    BornAgrees(used, t, s, k, mode, now, nsec);
    NewbornSound(s, mode, t[k].value.generation, now, nsec);
    DiedAgrees(used, u, s.(freeInodes := SubU64(s.freeInodes, 1)), k, born.(mode := 0));
    TakeAndGiveBack(s.freeInodes, 1);
    assert u[k := Some(born.(mode := 0))] == t[k := Some(born.(mode := 0))];
    assert s.(freeInodes := SubU64(s.freeInodes, 1)).(freeInodes := s.freeInodes) == s;
  }

  // ---- what every operation keeps -----------------------------------------

  /** The records agree and every used inode has one kind: what the mount audit asks for. */
  ghost predicate Auditable(vol: Volume)
    reads vol`committed, vol`csuper, vol`pool, vol`super
  {
    A.Mountable(vol.Used(), TableOf(vol), vol.super)
  }

  /** Every directory is tiled and readable. */
  ghost predicate TreeOk(view: Disk, d: nat, s: Superblock, t: V.Table)
  {
    forall n :: 0 < n < |t| && IsDir(t[n]) ==>
      DirTiled(ImagesOf(view, d, Flat(t[n].value.direct))) && Readable(view, d, s, Flat(t[n].value.direct))
  }

  ghost predicate Tree(vol: Volume)
    reads vol`committed, vol`csuper, vol`pool, vol.storage
  {
    TreeOk(vol.storage.View(), vol.device, vol.csuper, TableOf(vol))
  }

  /** Outside slot `target` no inode came into use and none changed its kind. */
  ghost predicate KindsKept(t: V.Table, t': V.Table, target: nat)
  {
    |t| == |t'| && forall k :: 0 < k < |t| && k != target && V.InUse(t'[k]) ==>
      V.InUse(t[k]) && t'[k].value.mode == t[k].value.mode
  }

  /** The audit turns on the one slot that may have a new kind. */
  lemma KindDecides(used: set<nat>, t: V.Table, s: Superblock, used': set<nat>, t': V.Table, s': Superblock,
      target: nat)
    requires A.Mountable(used, t, s) && V.ThreeViews(used', t', s') && KindsKept(t, t', target)
    ensures A.Mountable(used', t', s') <==>
      (0 < target < |t'| && V.InUse(t'[target]) ==> A.KindOk(t'[target].value.mode))
  {
    hide V.ThreeViews, A.KindOk;
  }

  /** Directories outside `parent` and `target` are where they were, and `target` is no directory with blocks. */
  ghost predicate DirsKept(t: V.Table, t': V.Table, parent: nat, target: nat)
  {
    && |t| == |t'|
    && (forall k :: 0 < k < |t| && k != parent && k != target && IsDir(t'[k]) ==> t'[k] == t[k])
    && (0 < target < |t'| && IsDir(t'[target]) ==> Flat(t'[target].value.direct) == [])
  }

  /** The tree stays well-formed when the one rewritten directory is. */
  lemma TreeKept(view: Disk, view': Disk, d: nat, c: Superblock, t: V.Table, t': V.Table, parent: nat, target: nat)
    requires TreeOk(view, d, c, t) && FilesKept(view, view', d, c, t, target) && DirsKept(t, t', parent, target)
    requires 0 < parent < |t'| && parent != target && IsDir(t'[parent]) ==>
      var q := Flat(t'[parent].value.direct); DirTiled(ImagesOf(view', d, q)) && Readable(view', d, c, q)
    ensures TreeOk(view', d, c, t')
  {
    hide Flat, DirTiled, ImagesOf, Readable, HasMode;
    forall n | 0 < n < |t'| && IsDir(t'[n])
      ensures var q := Flat(t'[n].value.direct); DirTiled(ImagesOf(view', d, q)) && Readable(view', d, c, q)
    {
      if n == target {
        NoBlocks(view', d, c);
      } else if n != parent {
        DirInUse(t[n].value);
        assert SameBlocks(view, view', d, c, Flat(t[n].value.direct));
      }
    }
  }

  lemma NoBlocks(view: Disk, d: nat, c: Superblock)
    ensures DirTiled(ImagesOf(view, d, [])) && Readable(view, d, c, [])
  {
  }

  /** Data no allocated block of which was touched stay sealed. */
  lemma SealedUntouched(view: Disk, view': Disk, d: nat, c: Superblock, used: set<nat>, touched: set<nat>)
    requires SealedIn(view, d, c, used) && DataOnly(view, view', d, c, touched) && touched !! used
    ensures SealedIn(view', d, c, used)
  {
    hide SealOf, BlockOf, SetOf, FromLe;
  }

  // ---- creating -----------------------------------------------------------

  /** A free slot has become a newborn inode, and the parent has moved as a directory does; no other slot changed. */
  ghost predicate Created(t: V.Table, t': V.Table, parent: nat, target: nat, mode: u16, now: u64, nsec: u32)
  {
    && |t| == |t'| && 0 < target < |t| && target != parent
    && t[target].Some? && !V.InUse(t[target])
    && t'[target] == Some(Newborn(mode, t[target].value.generation, now, nsec))
    && DirMoved(t[target := t'[target]], t', parent, now)
  }

  lemma CreatedParts(t: V.Table, t': V.Table, parent: nat, target: nat, mode: u16, now: u64, nsec: u32)
    requires Created(t, t', parent, target, mode, now, nsec)
    ensures KindsKept(t, t', target) && DirsKept(t, t', parent, target)
    ensures forall k :: 0 <= k < |t| && k != target && k != parent ==> t'[k] == t[k]
  {
    hide HasMode;
    NewbornFlat(mode, t[target].value.generation, now, nsec);
    var u := t[target := t'[target]];
    assert t' == u[parent := t'[parent]];
  }

  lemma NewbornFlat(mode: u16, generation: u64, now: u64, nsec: u32)
    ensures Flat(Newborn(mode, generation, now, nsec).direct) == []
  {
  }

  lemma SameFilesParts(t: V.Table, t': V.Table)
    requires SameFiles(t, t')
    ensures KindsKept(t, t', 0) && DirsKept(t, t', 0, 0)
  {
    forall k | 0 < k < |t| && IsDir(t'[k])
      ensures t'[k] == t[k]
    {
      DirInUse(t'[k].value);
    }
  }

  /** A tiled directory that got an entry is tiled and, in sealed data, readable. */
  lemma EnteredTree(vol: Volume, parent: nat, imgs: seq<Image>, e: DirEntry)
    requires Agrees(vol) && Sealed(vol) && IsDir(InodeOf(vol, parent)) && DirTiled(imgs)
    requires Entered(imgs, ImagesIn(vol, parent), e) && SameRegions(vol.super, vol.csuper)
    ensures var q := Flat(InodeOf(vol, parent).value.direct);
      && DirTiled(ImagesOf(vol.storage.View(), vol.device, q))
      && Readable(vol.storage.View(), vol.device, vol.csuper, q)
  {
    hide LaySet, SetOf, UsedIn, StageOf, SlotsOf, Flat, DirTiled, ImagesOf, Readable, HasMode, AllFull, Added,
         V.ThreeViews, SealedIn;
    DirInUse(InodeOf(vol, parent).value);
    SealedReadable(vol.storage.View(), vol.device, vol.super, vol.csuper, vol.Used(), TableOf(vol), parent);
  }

  predicate SameRegions(s: Superblock, c: Superblock)
  {
    c.dataStart == s.dataStart && c.checksumRegion == s.checksumRegion
  }

  /**
    adytumfs_create_at.  Success binds the name to a newly allocated inode and
    keeps the parent a map exactly when the name was absent; a refused name
    gives the inode back, leaving every file, the bitmap and the counters as
    they were.  No allocated block is written, so every inode there was keeps
    its bytes.  What the audit and the path walk need is kept, too, as long as
    the mode names a kind; the code does not ask for that.
   */
  method CreateAt(vol: Volume, parent: nat, name: Name, mode: u16, now: u64, nsec: u32)
    returns (ok: bool, target: nat, ghost touched: set<nat>, ghost back: bool)
    requires vol.Valid() && Agrees(vol)
    modifies vol`pool, vol`super, vol.storage
    ensures vol.Valid() && DataOnly(old(vol.storage.View()), vol.storage.View(), vol.device, vol.csuper, touched)
    ensures touched !! old(vol.Used())
    ensures FilesKept(old(vol.storage.View()), vol.storage.View(), vol.device, vol.csuper, old(TableOf(vol)), 0)
    ensures ok ==> Agrees(vol) && Created(old(TableOf(vol)), TableOf(vol), parent, target, mode, now, nsec)
    ensures ok && old(DirOk(vol, parent)) ==>
      target < U64_LIMIT && MapLaw(old(MapOf(vol, parent)), MapOf(vol, parent), DirOk(vol, parent), name, target)
    ensures old(DirOk(vol, parent) && DirReadable(vol, parent)) && name in old(MapOf(vol, parent)) ==>
      (!ok && back) || vol.storage.faults > old(vol.storage.faults)
    ensures !ok && back ==>
      Agrees(vol) && vol.Used() == old(vol.Used()) && vol.super == old(vol.super)
      && SameFiles(old(TableOf(vol)), TableOf(vol))
    ensures !ok && !back ==> PoolFull(vol.pool) || vol.storage.faults > old(vol.storage.faults)
    ensures !ok && mode != 0 && 0 < |name| <= NAME_MAX && old(DirOk(vol, parent) && DirReadable(vol, parent))
            && name !in old(MapOf(vol, parent)) ==>
      || old(vol.super).freeInodes == 0
      || Cramped(old(InodeOf(vol, parent)).value.direct, old(vol.super), old(vol.Busy()))
      || PoolFull(vol.pool) || vol.storage.faults > old(vol.storage.faults)
    ensures ok && old(Auditable(vol)) ==> (Auditable(vol) <==> A.KindOk(mode))
    ensures ok && old(Sealed(vol)) ==> Sealed(vol) && (old(Tree(vol)) ==> Tree(vol))
    ensures !ok && back ==>
      (old(Auditable(vol)) ==> Auditable(vol)) && (old(Sealed(vol)) ==> Sealed(vol)) && (old(Tree(vol)) ==> Tree(vol))
  {
    hide Good, PoolOk, Durable, LaySet, SetOf, UsedIn, StageOf, Flat, SlotsOf, CommittedUsed, ImagesOf, PoolFull,
         V.SetOfSeq, V.ThreeViews, V.Sound, DataOnly, SealedIn, AllEntries, Readable, NameMap, Distinct, DirTiled,
         AddU64, HasMode, Cramped, NoSlot, MapLaw, Created, SameFiles, FilesKept, TreeOk, A.Mountable, A.KindOk, MapIn,
         OkIn, ReadableIn, Entered;
    ghost var view, t, s, used := vol.storage.View(), TableOf(vol), vol.super, vol.Used();
    ghost var imgs := ImagesIn(vol, parent);
    ok, target, touched, back := CreateNamed(vol, parent, name, mode, now, nsec);
    OtherFilesKept(view, vol.storage.View(), vol.device, s, vol.csuper, used, t, 0, touched);
    if ok {
      CreateKeeps(vol, view, t, s, used, imgs, parent, name, target, mode, now, nsec);
    } else if back {
      RollbackKeeps(vol, view, t, s, used, touched);
    }
  }

  /** What a successful create keeps. */
  lemma CreateKeeps(vol: Volume, view: Disk, t: V.Table, s: Superblock, used: set<nat>, imgs: seq<Image>, parent: nat,
      name: Name, target: nat, mode: u16, now: u64, nsec: u32)
    requires Agrees(vol) && SameRegions(vol.super, vol.csuper) && mode != 0
    requires Created(t, TableOf(vol), parent, target, mode, now, nsec) && IsDir(InodeOf(vol, parent))
    requires FilesKept(view, vol.storage.View(), vol.device, vol.csuper, t, 0)
    requires 0 < parent < |t| && IsDir(t[parent]) && imgs == ImagesOf(view, vol.device, Flat(t[parent].value.direct))
    requires target < U64_LIMIT && Entered(imgs, ImagesIn(vol, parent), DirEntry(name, target, TypeOf(mode)))
    ensures A.Mountable(used, t, s) ==> (Auditable(vol) <==> A.KindOk(mode))
    ensures Sealed(vol) && TreeOk(view, vol.device, vol.csuper, t) ==> Tree(vol)
  {
    hide LaySet, SetOf, UsedIn, StageOf, SlotsOf, Flat, DirTiled, ImagesOf, Readable, HasMode, AllFull, Added,
         V.ThreeViews, SealedIn, FilesKept, A.Mountable, A.KindOk, Entered, TypeOf;
    CreatedParts(t, TableOf(vol), parent, target, mode, now, nsec);
    if A.Mountable(used, t, s) {
      KindDecides(used, t, s, vol.Used(), TableOf(vol), vol.super, target);
    }
    if Sealed(vol) && TreeOk(view, vol.device, vol.csuper, t) {
      EnteredTree(vol, parent, imgs, DirEntry(name, target, TypeOf(mode)));
      FewerKept(view, vol.storage.View(), vol.device, vol.csuper, t, target);
      TreeKept(view, vol.storage.View(), vol.device, vol.csuper, t, TableOf(vol), parent, target);
    }
  }

  lemma FewerKept(view: Disk, view': Disk, d: nat, c: Superblock, t: V.Table, but: nat)
    requires FilesKept(view, view', d, c, t, 0)
    ensures FilesKept(view, view', d, c, t, but)
  {
    hide SameBlocks;
  }

  /** A create that was taken back keeps everything. */
  lemma RollbackKeeps(vol: Volume, view: Disk, t: V.Table, s: Superblock, used: set<nat>, touched: set<nat>)
    requires Agrees(vol) && vol.Used() == used && SameFiles(t, TableOf(vol)) && touched !! used
    requires DataOnly(view, vol.storage.View(), vol.device, vol.csuper, touched)
    requires FilesKept(view, vol.storage.View(), vol.device, vol.csuper, t, 0)
    ensures A.Mountable(used, t, s) ==> Auditable(vol)
    ensures SealedIn(view, vol.device, vol.csuper, used) ==> Sealed(vol)
    ensures TreeOk(view, vol.device, vol.csuper, t) ==> Tree(vol)
  {
    hide LaySet, SetOf, UsedIn, StageOf, SlotsOf, TreeOk, SameFiles, FilesKept, A.Mountable, SealedIn, V.ThreeViews,
         DataOnly;
    SameFilesParts(t, TableOf(vol));
    if A.Mountable(used, t, s) {
      KindDecides(used, t, s, vol.Used(), TableOf(vol), vol.super, 0);
    }
    if SealedIn(view, vol.device, vol.csuper, used) {
      SealedUntouched(view, vol.storage.View(), vol.device, vol.csuper, used, touched);
    }
    if TreeOk(view, vol.device, vol.csuper, t) {
      TreeKept(view, vol.storage.View(), vol.device, vol.csuper, t, TableOf(vol), 0, 0);
    }
  }

  /** The steps of a create: a slot is taken, named, and given back if it cannot be. */
  method CreateNamed(vol: Volume, parent: nat, name: Name, mode: u16, now: u64, nsec: u32)
    returns (ok: bool, target: nat, ghost touched: set<nat>, ghost back: bool)
    requires vol.Valid() && Agrees(vol)
    modifies vol`pool, vol`super, vol.storage
    ensures vol.Valid() && DataOnly(old(vol.storage.View()), vol.storage.View(), vol.device, vol.csuper, touched)
    ensures touched !! old(vol.Used())
    ensures ok ==> Agrees(vol) && Created(old(TableOf(vol)), TableOf(vol), parent, target, mode, now, nsec)
    ensures ok ==> mode != 0 && IsDir(old(InodeOf(vol, parent))) && IsDir(InodeOf(vol, parent))
    ensures ok ==>
      target < U64_LIMIT
      && Entered(old(ImagesIn(vol, parent)), ImagesIn(vol, parent), DirEntry(name, target, TypeOf(mode)))
    ensures ok && old(DirOk(vol, parent)) ==>
      target < U64_LIMIT && MapLaw(old(MapOf(vol, parent)), MapOf(vol, parent), DirOk(vol, parent), name, target)
    ensures old(DirOk(vol, parent) && DirReadable(vol, parent)) && name in old(MapOf(vol, parent)) ==>
      (!ok && back) || vol.storage.faults > old(vol.storage.faults)
    ensures !ok && back ==>
      Agrees(vol) && vol.Used() == old(vol.Used()) && vol.super == old(vol.super)
      && SameFiles(old(TableOf(vol)), TableOf(vol))
    ensures !ok && !back ==> PoolFull(vol.pool) || vol.storage.faults > old(vol.storage.faults)
    ensures !ok && mode != 0 && 0 < |name| <= NAME_MAX && old(DirOk(vol, parent) && DirReadable(vol, parent))
            && name !in old(MapOf(vol, parent)) ==>
      || old(vol.super).freeInodes == 0
      || Cramped(old(InodeOf(vol, parent)).value.direct, old(vol.super), old(vol.Busy()))
      || PoolFull(vol.pool) || vol.storage.faults > old(vol.storage.faults)
    ensures ok && old(Sealed(vol)) ==> Sealed(vol)
  {
    hide Good, PoolOk, Durable, LaySet, SetOf, UsedIn, StageOf, Flat, SlotsOf, CommittedUsed, ImagesOf, PoolFull,
         V.SetOfSeq, V.ThreeViews, V.Sound, DataOnly, SealedIn, AllEntries, Readable, NameMap, Distinct, DirTiled,
         SubU64, AddU64, HasMode, Cramped, NoSlot, Entered, MapLaw, TypeOf, MapIn, OkIn, ReadableIn;
    ok, target, touched, back := false, 0, {}, true;
    DataOnlyRefl(vol.storage.View(), vol.device, vol.csuper, touched);
    if mode == 0 || |name| == 0 || |name| > NAME_MAX {
      return;
    }
    var dir;
    ok, dir := ReadInode(vol, parent);
    if !ok || !HasMode(dir.mode, MODE_DIR) {
      return false, 0, touched, true;
    }
    ghost var t, s, used := TableOf(vol), vol.super, vol.Used();
    NoSlotCounted(used, t, s);
    ok, target := AllocInode(vol, mode, now, nsec);
    if !ok {
      return;
    }
    DirInUse(dir);
    BornAgrees(used, t, s, target, mode, now, nsec);
    Undone(used, t, s, target, mode, now, nsec);
    ghost var born := Newborn(mode, t[target].value.generation, now, nsec);
    SetTwice(t, target, Some(born), Some(born.(mode := 0)));
    TakeAndGiveBack(s.freeInodes, 1);
    ghost var less := vol.super;
    ok, touched, back := NameOrFree(vol, parent, name, mode, now, target);
    if !ok {
      if Cramped(dir.direct, less, old(vol.Busy())) {
        CrampedMore(dir.direct, s, less, old(vol.Busy()), old(vol.Busy()));
      }
      target := 0;
    }
  }

  /** The naming half of a create; a newborn that cannot be named is freed again. */
  method NameOrFree(vol: Volume, parent: nat, name: Name, mode: u16, now: u64, target: nat)
    returns (ok: bool, ghost touched: set<nat>, ghost back: bool)
    requires vol.Valid() && Agrees(vol) && 0 < |name| <= NAME_MAX && 0 < target < U64_LIMIT && target != parent
    requires V.InUse(InodeOf(vol, target)) && TableStaged(vol.pool, vol.device, target / INODES_PER_BLOCK)
    modifies vol`pool, vol`super, vol.storage
    ensures vol.Valid() && DataOnly(old(vol.storage.View()), vol.storage.View(), vol.device, vol.csuper, touched)
    ensures touched !! old(vol.Used())
    ensures ok ==> Agrees(vol) && DirMoved(old(TableOf(vol)), TableOf(vol), parent, now)
    ensures ok ==> Entered(old(ImagesIn(vol, parent)), ImagesIn(vol, parent), DirEntry(name, target, TypeOf(mode)))
    ensures ok && old(DirOk(vol, parent)) ==>
      target < U64_LIMIT && MapLaw(old(MapOf(vol, parent)), MapOf(vol, parent), DirOk(vol, parent), name, target)
    ensures old(DirOk(vol, parent) && DirReadable(vol, parent)) && name in old(MapOf(vol, parent)) ==>
      (!ok && back) || vol.storage.faults > old(vol.storage.faults)
    ensures !ok && back ==>
      vol.Used() == old(vol.Used()) && vol.super == old(vol.super).(freeInodes := AddU64(old(vol.super).freeInodes, 1))
    ensures !ok && back ==>
      TableOf(vol) == old(TableOf(vol))[target := Some(old(InodeOf(vol, target)).value.(mode := 0))]
    ensures !ok && !back ==> PoolFull(vol.pool) || vol.storage.faults > old(vol.storage.faults)
    ensures !ok && old(DirOk(vol, parent) && DirReadable(vol, parent)) && name !in old(MapOf(vol, parent)) ==>
      || Cramped(old(InodeOf(vol, parent)).value.direct, old(vol.super), old(vol.Busy()))
      || PoolFull(vol.pool) || vol.storage.faults > old(vol.storage.faults)
    ensures ok && old(Sealed(vol)) ==> Sealed(vol)
    ensures vol.storage.faults >= old(vol.storage.faults)
  {
    hide Good, PoolOk, Durable, LaySet, SetOf, UsedIn, StageOf, Flat, SlotsOf, CommittedUsed, ImagesOf, PoolFull,
         V.SetOfSeq, V.ThreeViews, V.Sound, DataOnly, SealedIn, AllEntries, Readable, MapIn, ReadableIn, OkIn, SubU64,
         AddU64, HasMode, Cramped, Entered;
    ghost var staged, s, dir := vol.pool, vol.super, InodeOf(vol, parent);
    ok, touched, back := DirAdd(vol, parent, name, target, TypeOf(mode), now);
    if !ok {
      StagedStill(staged, vol.pool, vol.device, target / INODES_PER_BLOCK);
      if dir.Some? && Cramped(dir.value.direct, vol.super, old(vol.Busy())) {
        CrampedMore(dir.value.direct, s, vol.super, old(vol.Busy()), old(vol.Busy()));
      }
      var _ := FreeInode(vol, target);
    }
  }

  lemma SetTwice(t: V.Table, k: nat, a: Option<Inode>, b: Option<Inode>)
    requires k < |t|
    ensures t[k := a][k := b] == t[k := b]
  {
  }

  lemma DirInUse(dir: Inode)
    requires HasMode(dir.mode, MODE_DIR)
    ensures dir.mode != 0
  {
  }

  lemma StagedStill(before: seq<Staged>, after: seq<Staged>, d: nat, index: nat)
    requires StagedMore(before, after, d) && TableStaged(before, d, index)
    ensures TableStaged(after, d, index)
  {
    hide StageOf;
  }

  // ---- unlinking ----------------------------------------------------------

  /** Releasing a file's blocks while its slot still claims them breaks the agreement. */
  lemma HalfUnlinked(used: set<nat>, t: V.Table, s: Superblock, n: nat, s': Superblock)
    requires V.ThreeViews(used, t, s) && 1 <= n < |t| && V.InUse(t[n]) && Flat(t[n].value.direct) != []
    requires s'.dataStart == s.dataStart && s'.checksumRegion == s.checksumRegion
    ensures !V.ThreeViews(used - V.SetOfSeq(Flat(t[n].value.direct)), t, s')
  {
    hide Flat, V.Sound;
    var q := Flat(t[n].value.direct);
    var used' := used - V.SetOfSeq(q);
    V.ClaimsOwned(t, |t|, n);
    assert q[0] in multiset(q) && q[0] in V.SetOfSeq(q);
    V.DataUsedFrame(used', s, s');
    assert q[0] !in multiset(V.DataUsed(used', s'));
  }

  lemma SealedShrink(view: Disk, d: nat, s: Superblock, used: set<nat>, used': set<nat>)
    requires SealedIn(view, d, s, used) && used' <= used
    ensures SealedIn(view, d, s, used')
  {
    hide SealOf, BlockOf;
  }

  /** The release half of an unlink: the inode in hand maps nothing, the table still shows the old one. */
  method ReleaseFile(vol: Volume, n: nat, inode: Inode) returns (ok: bool, emptied: Inode)
    requires vol.Valid() && Agrees(vol) && InodeOf(vol, n) == Some(inode) && inode.mode != 0
    modifies vol`pool, vol`super, vol.storage
    ensures vol.Valid() && vol.storage.View() == old(vol.storage.View())
            && StagedMore(old(vol.pool), vol.pool, vol.device)
    ensures vol.storage.faults >= old(vol.storage.faults) && TableOf(vol) == old(TableOf(vol))
    ensures ok ==>
      emptied.mode == inode.mode && Flat(emptied.direct) == [] && AgreesAs(vol, TableOf(vol)[n := Some(emptied)])
    ensures ok ==> vol.Used() == old(vol.Used()) - V.SetOfSeq(Flat(inode.direct))
    ensures ok ==> vol.super == old(vol.super).(freeBlocks := AddU64(old(vol.super).freeBlocks, |Flat(inode.direct)|))
    ensures !ok ==> PoolFull(vol.pool) || vol.storage.faults > old(vol.storage.faults)
  {
    hide Good, PoolOk, Durable, LaySet, SetOf, UsedIn, StageOf, Flat, SlotsOf, PoolFull, V.SetOfSeq, V.ThreeViews,
         V.Sound;
    ghost var t, s, used := TableOf(vol), vol.super, vol.Used();
    AgreesSound(vol, n, inode);
    SoundParts(s, inode);
    ok, emptied := TruncateInode(vol, inode, 0);
    if ok {
      if inode.blocks > 0 {
        TruncatedAgrees(s, vol.super, used, vol.Used(), t, n, inode, emptied, 0);
        assert Flat(inode.direct)[0..] == Flat(inode.direct);
      } else {
        assert t[n := Some(inode)] == t;
        NothingDropped(s.freeBlocks, 0);
        assert Flat(inode.direct) == [];
      }
    }
  }

  /**
    The file's slot is freed and its blocks are counted free again, and the
    parent has moved as a directory does; no other slot changed.
   */
  ghost predicate Unlinked(t: V.Table, t': V.Table, s: Superblock, s': Superblock, parent: nat, target: nat, now: u64)
  {
    && |t| == |t'| && 0 < target < |t| && target != parent && IsFile(t[target])
    && t'[target] == Some(t[target].value.(mode := 0))
    && DirMoved(t[target := t'[target]], t', parent, now)
    && s'.freeInodes == AddU64(s.freeInodes, 1)
    && s'.freeBlocks == AddU64(s.freeBlocks, |Flat(t[target].value.direct)|)
  }

  /** A failed unlink: nothing changed, or the blocks are released but still claimed, or a resource ran out. */
  ghost predicate UnlinkFailed(t: V.Table, target: nat, cut: bool, back: bool, agrees: bool, same: bool,
      exhausted: bool)
  {
    && (!cut ==> same || exhausted)
    && (cut && back ==> 0 < target < |t| && IsFile(t[target]) && (agrees <==> Flat(t[target].value.direct) == []))
    && (cut && !back ==> exhausted)
  }

  /** Everything after the lookups of adytumfs_unlink_at. */
  method FinishUnlink(vol: Volume, parent: nat, name: Name, now: u64, child: nat, inode: Inode)
    returns (ok: bool, ghost touched: set<nat>, ghost cut: bool, ghost back: bool)
    requires vol.Valid() && Agrees(vol) && InodeOf(vol, child) == Some(inode) && HasMode(inode.mode, MODE_REG)
             && child != parent
    modifies vol`pool, vol`super, vol.storage
    ensures vol.Valid() && DataOnly(old(vol.storage.View()), vol.storage.View(), vol.device, vol.csuper, touched)
    ensures touched !! old(vol.Used()) - V.SetOfSeq(Flat(inode.direct))
    ensures !cut ==> vol.storage.View() == old(vol.storage.View())
    ensures ok ==>
      Agrees(vol) && Unlinked(old(TableOf(vol)), TableOf(vol), old(vol.super), vol.super, parent, child, now)
    ensures ok ==> IsDir(old(InodeOf(vol, parent))) && IsDir(InodeOf(vol, parent))
    ensures ok && DirTiled(old(ImagesIn(vol, parent))) ==> DirTiled(ImagesIn(vol, parent))
    ensures ok && old(DirOk(vol, parent)) ==>
      name in old(MapOf(vol, parent)) && DirOk(vol, parent) && MapOf(vol, parent) == old(MapOf(vol, parent)) - {name}
    ensures ok && old(Sealed(vol)) ==> Sealed(vol)
    ensures !ok ==> UnlinkFailed(old(TableOf(vol)), child, cut, back, Agrees(vol), false,
                                 PoolFull(vol.pool) || vol.storage.faults > old(vol.storage.faults))
    ensures !ok && 0 < |name| <= NAME_MAX && old(DirOk(vol, parent) && DirReadable(vol, parent))
            && name in old(MapOf(vol, parent)) ==>
      Unmovable(old(InodeOf(vol, parent)).value.direct, old(vol.super), old(vol.Busy())) || PoolFull(vol.pool)
      || vol.storage.faults > old(vol.storage.faults)
    ensures vol.storage.faults >= old(vol.storage.faults)
  {
    hide Good, PoolOk, Durable, LaySet, SetOf, UsedIn, StageOf, Flat, SlotsOf, CommittedUsed, ImagesOf, PoolFull,
         V.SetOfSeq, V.ThreeViews, V.Sound, DataOnly, SealedIn, AllEntries, Readable, MapIn, ReadableIn, OkIn, AddU64,
         HasMode, Unmovable;
    touched, cut, back := {}, false, true;
    ghost var t, s, used := TableOf(vol), vol.super, vol.Used();
    DataOnlyRefl(vol.storage.View(), vol.device, vol.csuper, touched);
    RegInUse(inode);
    var emptied;
    ok, emptied := ReleaseFile(vol, child, inode);
    if !ok {
      return;
    }
    cut := true;
    SealedKept(vol, vol.storage.View(), used);
    ghost var u := t[child := Some(emptied)];
    EmptyOrBroken(used, t, s, child, vol.Used(), vol.super);
    ghost var busy := vol.Busy();
    ok, touched, back := DirRemove(vol, parent, name, now, u);
    if !ok {
      if old(InodeOf(vol, parent)).Some? && Unmovable(old(InodeOf(vol, parent)).value.direct, vol.super, busy) {
        UnmovableMore(old(InodeOf(vol, parent)).value.direct, s, vol.super, old(vol.Busy()), busy);
      }
      return;
    }
    back := false;
    ok := FreeTarget(vol, child, inode, u[parent := InodeOf(vol, parent)]);
  }

  /** The last step of an unlink: the slot of a file that maps nothing any more is freed. */
  method FreeTarget(vol: Volume, child: nat, inode: Inode, ghost v: V.Table) returns (ok: bool)
    requires vol.Valid() && 0 < child < |v| && AgreesAs(vol, v) && V.InUse(v[child])
             && Flat(v[child].value.direct) == []
    requires inode.mode != 0 && TableOf(vol) == v[child := Some(inode)]
    modifies vol`pool, vol`super, vol.storage
    ensures vol.Valid() && vol.storage.View() == old(vol.storage.View()) && vol.Used() == old(vol.Used())
    ensures ok ==> Agrees(vol) && TableOf(vol) == v[child := Some(inode.(mode := 0))]
    ensures ok ==> vol.super == old(vol.super).(freeInodes := AddU64(old(vol.super).freeInodes, 1))
    ensures !ok ==> PoolFull(vol.pool) || vol.storage.faults > old(vol.storage.faults)
    ensures vol.storage.faults >= old(vol.storage.faults)
  {
    hide Good, PoolOk, Durable, LaySet, SetOf, UsedIn, StageOf, Flat, SlotsOf, PoolFull, V.ThreeViews, AddU64;
    vol.Shape();
    DiedAgrees(vol.Used(), v, vol.super, child, inode.(mode := 0));
    SetTwice(v, child, Some(inode), Some(inode.(mode := 0)));
    ok := FreeInode(vol, child);
  }

  /** The parent is a well-formed, readable directory that binds the name to a file. */
  ghost predicate Removable(vol: Volume, parent: nat, name: Name)
    reads vol`committed, vol`csuper, vol`pool, vol.storage
  {
    DirOk(vol, parent) && DirReadable(vol, parent) && name in MapOf(vol, parent)
    && IsFile(InodeOf(vol, MapOf(vol, parent)[name]))
  }

  lemma UnlinkedParts(t: V.Table, t': V.Table, s: Superblock, s': Superblock, parent: nat, target: nat, now: u64)
    requires Unlinked(t, t', s, s', parent, target, now)
    ensures KindsKept(t, t', target) && DirsKept(t, t', parent, target) && !V.InUse(t'[target])
    ensures forall k :: 0 <= k < |t| && k != target && k != parent ==> t'[k] == t[k]
  {
    hide HasMode;
    NoKind(t'[target].value);
    var u := t[target := t'[target]];
    assert t' == u[parent := t'[parent]];
  }

  lemma NoKind(i: Inode)
    requires i.mode == 0
    ensures !HasMode(i.mode, MODE_DIR)
  {
  }

  /**
    adytumfs_unlink_at, on a parent of an audited kind.  Success removes the
    binding, frees the inode and exactly its blocks; only those and free blocks
    are written, so every other inode keeps its bytes.  `cut` marks the point
    after which a failure leaves the file's blocks released but still claimed.
   */
  method UnlinkAt(vol: Volume, parent: nat, name: Name, now: u64)
    returns (ok: bool, ghost target: nat, ghost touched: set<nat>, ghost cut: bool, ghost back: bool)
    requires vol.Valid() && Agrees(vol) && (IsDir(InodeOf(vol, parent)) ==> A.KindOk(InodeOf(vol, parent).value.mode))
    modifies vol`pool, vol`super, vol.storage
    ensures vol.Valid() && DataOnly(old(vol.storage.View()), vol.storage.View(), vol.device, vol.csuper, touched)
    ensures touched !! old(vol.Used()) - FileBlocks(old(InodeOf(vol, target)))
    ensures !cut ==> vol.storage.View() == old(vol.storage.View())
    ensures FilesKept(old(vol.storage.View()), vol.storage.View(), vol.device, vol.csuper, old(TableOf(vol)), target)
    ensures ok ==>
      Agrees(vol) && Unlinked(old(TableOf(vol)), TableOf(vol), old(vol.super), vol.super, parent, target, now)
    ensures ok && old(DirOk(vol, parent)) ==>
      && name in old(MapOf(vol, parent)) && old(MapOf(vol, parent))[name] == target
      && DirOk(vol, parent) && MapOf(vol, parent) == old(MapOf(vol, parent)) - {name}
    ensures ok && old(Auditable(vol)) ==> Auditable(vol)
    ensures ok && old(Sealed(vol)) ==> Sealed(vol) && (old(Tree(vol)) ==> Tree(vol))
    ensures !ok ==> UnlinkFailed(old(TableOf(vol)), target, cut, back, Agrees(vol),
                                 RolledBack(vol.Used(), old(vol.Used()), TableOf(vol), old(TableOf(vol)), vol.super,
                                   old(vol.super)),
                                 PoolFull(vol.pool) || vol.storage.faults > old(vol.storage.faults))
    ensures !ok && 0 < |name| <= NAME_MAX && old(Removable(vol, parent, name)) ==>
      Unmovable(old(InodeOf(vol, parent)).value.direct, old(vol.super), old(vol.Busy())) || PoolFull(vol.pool)
      || vol.storage.faults > old(vol.storage.faults)
  {
    hide Good, PoolOk, Durable, LaySet, SetOf, UsedIn, StageOf, Flat, SlotsOf, CommittedUsed, ImagesOf, PoolFull,
         V.SetOfSeq, V.ThreeViews, V.Sound, DataOnly, SealedIn, AllEntries, Readable, DirTiled, AddU64, HasMode,
         Unlinked, A.KindOk, Unmovable, FilesKept, TreeOk, A.Mountable, MapIn, OkIn, ReadableIn, UnlinkFailed,
         RolledBack, Removable;
    ghost var view, t, s, used := vol.storage.View(), TableOf(vol), vol.super, vol.Used();
    ghost var imgs := ImagesIn(vol, parent);
    ok, target, touched, cut, back := UnlinkNamed(vol, parent, name, now);
    FileInUse(InodeOfTable(t, target));
    OtherFilesKept(view, vol.storage.View(), vol.device, s, vol.csuper, used, t, target, touched);
    if ok {
      UnlinkKeeps(vol, view, t, s, used, imgs, parent, target, now);
    }
  }

  ghost function InodeOfTable(t: V.Table, n: nat): Option<Inode>
  {
    if 0 < n < |t| then t[n] else None
  }

  lemma FileInUse(o: Option<Inode>)
    ensures IsFile(o) ==> V.InUse(o)
    ensures FileBlocks(o) == {} || (V.InUse(o) && FileBlocks(o) == V.SetOfSeq(Flat(o.value.direct)))
  {
    hide Flat, V.SetOfSeq;
  }

  /** What a successful unlink keeps. */
  lemma UnlinkKeeps(vol: Volume, view: Disk, t: V.Table, s: Superblock, used: set<nat>, imgs: seq<Image>, parent: nat,
      target: nat, now: u64)
    requires Agrees(vol) && SameRegions(vol.super, vol.csuper)
    requires Unlinked(t, TableOf(vol), s, vol.super, parent, target, now) && IsDir(InodeOf(vol, parent))
    requires FilesKept(view, vol.storage.View(), vol.device, vol.csuper, t, target)
    requires 0 < parent < |t| && IsDir(t[parent]) && imgs == ImagesOf(view, vol.device, Flat(t[parent].value.direct))
    requires DirTiled(imgs) ==> DirTiled(ImagesIn(vol, parent))
    ensures A.Mountable(used, t, s) ==> Auditable(vol)
    ensures Sealed(vol) && TreeOk(view, vol.device, vol.csuper, t) ==> Tree(vol)
  {
    hide LaySet, SetOf, UsedIn, StageOf, SlotsOf, Flat, DirTiled, ImagesOf, Readable, HasMode, V.ThreeViews, SealedIn,
         FilesKept, A.Mountable, A.KindOk;
    UnlinkedParts(t, TableOf(vol), s, vol.super, parent, target, now);
    if A.Mountable(used, t, s) {
      KindDecides(used, t, s, vol.Used(), TableOf(vol), vol.super, target);
    }
    if Sealed(vol) && TreeOk(view, vol.device, vol.csuper, t) {
      DirInUse(InodeOf(vol, parent).value);
      SealedReadable(vol.storage.View(), vol.device, vol.super, vol.csuper, vol.Used(), TableOf(vol), parent);
      TreeKept(view, vol.storage.View(), vol.device, vol.csuper, t, TableOf(vol), parent, target);
    }
  }

  /** The steps of an unlink. */
  method UnlinkNamed(vol: Volume, parent: nat, name: Name, now: u64)
    returns (ok: bool, ghost target: nat, ghost touched: set<nat>, ghost cut: bool, ghost back: bool)
    requires vol.Valid() && Agrees(vol) && (IsDir(InodeOf(vol, parent)) ==> A.KindOk(InodeOf(vol, parent).value.mode))
    modifies vol`pool, vol`super, vol.storage
    ensures vol.Valid() && DataOnly(old(vol.storage.View()), vol.storage.View(), vol.device, vol.csuper, touched)
    ensures touched !! old(vol.Used()) - FileBlocks(old(InodeOf(vol, target)))
    ensures !cut ==> vol.storage.View() == old(vol.storage.View())
    ensures ok ==>
      Agrees(vol) && Unlinked(old(TableOf(vol)), TableOf(vol), old(vol.super), vol.super, parent, target, now)
    ensures ok ==> IsDir(old(InodeOf(vol, parent))) && IsDir(InodeOf(vol, parent))
    ensures ok && DirTiled(old(ImagesIn(vol, parent))) ==> DirTiled(ImagesIn(vol, parent))
    ensures ok && old(DirOk(vol, parent)) ==>
      && name in old(MapOf(vol, parent)) && old(MapOf(vol, parent))[name] == target
      && DirOk(vol, parent) && MapOf(vol, parent) == old(MapOf(vol, parent)) - {name}
    ensures ok && old(Sealed(vol)) ==> Sealed(vol)
    ensures !ok ==> UnlinkFailed(old(TableOf(vol)), target, cut, back, Agrees(vol),
                                 RolledBack(vol.Used(), old(vol.Used()), TableOf(vol), old(TableOf(vol)), vol.super,
                                   old(vol.super)),
                                 PoolFull(vol.pool) || vol.storage.faults > old(vol.storage.faults))
    ensures !ok && 0 < |name| <= NAME_MAX && old(Removable(vol, parent, name)) ==>
      Unmovable(old(InodeOf(vol, parent)).value.direct, old(vol.super), old(vol.Busy())) || PoolFull(vol.pool)
      || vol.storage.faults > old(vol.storage.faults)
  {
    hide Good, PoolOk, Durable, LaySet, SetOf, UsedIn, StageOf, Flat, SlotsOf, CommittedUsed, ImagesOf, PoolFull,
         V.SetOfSeq, V.ThreeViews, V.Sound, DataOnly, SealedIn, AllEntries, Readable, NameMap, Distinct, DirTiled,
         AddU64, HasMode, Unlinked, A.KindOk, Unmovable;
    ok, target, touched, cut, back := false, 0, {}, false, true;
    DataOnlyRefl(vol.storage.View(), vol.device, vol.csuper, touched);
    if |name| == 0 || |name| > NAME_MAX {
      return;
    }
    AgreesSlots(vol);
    var child;
    ok, child := DirLookup(vol, parent, name);
    target := child;
    if !ok {
      return;
    }
    var inode;
    ok, inode := ReadInode(vol, child);
    if !ok || !HasMode(inode.mode, MODE_REG) {
      return false, target, touched, false, true;
    }
    KindApart(InodeOf(vol, parent).value.mode);
    ok, touched, cut, back := FinishUnlink(vol, parent, name, now, child, inode);
  }

  lemma KindApart(mode: u16)
    ensures A.KindOk(mode) && HasMode(mode, MODE_DIR) ==> !HasMode(mode, MODE_REG)
  {
  }

  lemma RegInUse(i: Inode)
    requires HasMode(i.mode, MODE_REG)
    ensures i.mode != 0
  {
  }

  lemma SealedKept(vol: Volume, view: Disk, used: set<nat>)
    requires vol.storage.View() == view && vol.Used() <= used
    ensures SealedIn(view, vol.device, vol.csuper, used) ==> Sealed(vol)
  {
    hide SealedIn;
    if SealedIn(view, vol.device, vol.csuper, used) {
      SealedShrink(view, vol.device, vol.csuper, used, vol.Used());
    }
  }

  /** After the release, the old table agrees exactly when there was nothing to release. */
  lemma EmptyOrBroken(used: set<nat>, t: V.Table, s: Superblock, n: nat, used': set<nat>, s': Superblock)
    requires V.ThreeViews(used, t, s) && 1 <= n < |t| && V.InUse(t[n])
    requires used' == used - V.SetOfSeq(Flat(t[n].value.direct))
    requires s' == s.(freeBlocks := AddU64(s.freeBlocks, |Flat(t[n].value.direct)|))
    ensures V.ThreeViews(used', t, s') <==> Flat(t[n].value.direct) == []
  {
    hide Flat, V.Sound, V.ThreeViews;
    if Flat(t[n].value.direct) == [] {
      assert V.SetOfSeq(Flat(t[n].value.direct)) == {} && used' == used;
    } else {
      HalfUnlinked(used, t, s, n, s');
    }
  }

  /** An inode that keeps its slot and its blocks stores the same bytes and, as a directory, is the same map. */
  lemma KeptReads(view: Disk, view': Disk, d: nat, c: Superblock, t: V.Table, t': V.Table, but: nat, k: nat)
    requires FilesKept(view, view', d, c, t, but) && 0 < k < |t| == |t'| && k != but && V.InUse(t[k]) && t'[k] == t[k]
    ensures Content(ImagesOf(view', d, Flat(t'[k].value.direct))) == Content(ImagesOf(view, d, Flat(t[k].value.direct)))
    ensures MapIn(t'[k], view', d) == MapIn(t[k], view, d) && (OkIn(t'[k], view', d) <==> OkIn(t[k], view, d))
    ensures ReadableIn(t[k], view, d, c) ==> ReadableIn(t'[k], view', d, c)
  {
    hide Flat, ImagesOf, Readable, Content, NameMap, AllEntries, Distinct, DirTiled, HasMode;
    assert SameBlocks(view, view', d, c, Flat(t[k].value.direct));
  }

  // ---- resolving paths ----------------------------------------------------

  const SLASH: u8 := 47

  /** The length of the leading component. */
  function FirstLength(path: seq<u8>): (k: nat)
    ensures k <= |path| && (k < |path| ==> path[k] == SLASH) && forall i :: 0 <= i < k ==> path[i] != SLASH
  {
    if path == [] || path[0] == SLASH then 0 else 1 + FirstLength(path[1..])
  }

  /** The names in a path; repeated, leading and trailing slashes separate nothing. */
  function Components(path: seq<u8>): seq<Name>
    decreases |path|
  {
    if path == [] then []
    else if path[0] == SLASH then Components(path[1..])
    else [path[..FirstLength(path)]] + Components(path[FirstLength(path)..])
  }

  /** The directory in slot `n` as a map; None when the slot holds no directory. */
  ghost function DirMap(view: Disk, d: nat, t: V.Table, n: nat): Option<map<Name, u64>>
  {
    if 0 < n < |t| && IsDir(t[n]) then Some(NameMap(AllEntries(ImagesOf(view, d, Flat(t[n].value.direct))))) else None
  }

  /** Following names through the directories' maps. */
  ghost function Walk(view: Disk, d: nat, t: V.Table, from: nat, names: seq<Name>): Option<nat>
    decreases |names|
  {
    if names == [] then Some(from)
    else match DirMap(view, d, t, from)
      case None => None
      case Some(m) => if names[0] in m then Walk(view, d, t, m[names[0]], names[1..]) else None
  }

  lemma {:induction false} FirstIs(path: seq<u8>, k: nat)
    requires k <= |path| && (k < |path| ==> path[k] == SLASH) && forall i :: 0 <= i < k ==> path[i] != SLASH
    ensures FirstLength(path) == k
  {
    if k > 0 {
      FirstIs(path[1..], k - 1);
    }
  }

  lemma ComponentStep(path: seq<u8>, k: nat)
    requires path != [] && k == FirstLength(path)
    ensures var rest := if k < |path| then path[k + 1..] else [];
      Components(path) == (if k > 0 then [path[..k]] else []) + Components(rest)
  {
    hide FirstLength;
    if k > 0 {
      var tail := path[k..];
      assert Components(path) == [path[..k]] + Components(tail);
      if k < |path| {
        assert tail[0] == SLASH && tail[1..] == path[k + 1..];
        assert Components(tail) == Components(tail[1..]);
      } else {
        assert tail == [];
      }
    } else {
      assert [] + Components(path[1..]) == Components(path[1..]);
    }
  }

  /** The scan for the end of a component, past the slash that ends it. */
  method NextName(path: seq<u8>, start: nat) returns (name: Name, next: nat)
    requires start < |path|
    ensures start < next <= |path|
    ensures Components(path[start..]) ==
            if |name| > 0 then [name] + Components(path[next..]) else Components(path[next..])
  {
    hide Components, FirstLength;
    var index := start;
    while index < |path| && path[index] != SLASH
      invariant start <= index <= |path| && forall i :: start <= i < index ==> path[i] != SLASH
    {
      index := index + 1;
    }
    ghost var tail := path[start..];
    FirstIs(tail, index - start);
    ComponentStep(tail, index - start);
    assert tail[..index - start] == path[start..index];
    name := path[start..index];
    if index < |path| {
      assert tail[index - start + 1..] == path[index + 1..];
      next := index + 1;
    } else {
      assert path[index..] == [];
      next := index;
    }
  }

  /** adytumfs_path_resolve: exactly the walk through the directory maps from the root. */
  method PathResolve(vol: Volume, path: seq<u8>) returns (ok: bool, out: nat)
    requires vol.Valid() && V.SlotsSound(TableOf(vol), vol.super)
    requires TreeOk(vol.storage.View(), vol.device, vol.csuper, TableOf(vol))
    modifies vol.storage
    ensures vol.Valid() && vol.storage.View() == old(vol.storage.View())
    ensures ok ==> path != [] && path[0] == SLASH && forall i :: 0 <= i < |Components(path)| ==>
      |Components(path)[i]| <= NAME_MAX
    ensures ok ==>
      Walk(vol.storage.View(), vol.device, TableOf(vol), vol.super.rootInode, Components(path)) == Some(out)
    ensures (&& !ok && vol.storage.faults == old(vol.storage.faults) && path != [] && path[0] == SLASH
             && forall i :: 0 <= i < |Components(path)| ==> |Components(path)[i]| <= NAME_MAX) ==>
      Walk(vol.storage.View(), vol.device, TableOf(vol), vol.super.rootInode, Components(path)).None?
  {
    hide Good, PoolOk, Durable, LaySet, SetOf, StageOf, Flat, SlotsOf, Readable, ImagesOf, AllEntries, NameMap,
         DirTiled, V.SlotsSound, Components, FirstLength, Walk, TreeOk;
    out := 0;
    if path == [] || path[0] != SLASH {
      return false, 0;
    }
    ghost var view, d, t := vol.storage.View(), vol.device, TableOf(vol);
    ghost var all := Components(path);
    var current: nat := vol.super.rootInode;
    var index := 1;
    ghost var done: seq<Name> := [];
    SkipSlash(path);
    while index < |path|
      invariant vol.Valid() && vol.storage.View() == view && vol.storage.faults >= old(vol.storage.faults)
      invariant 1 <= index <= |path| && all == done + Components(path[index..])
      invariant forall i :: 0 <= i < |done| ==> |done[i]| <= NAME_MAX
      invariant Walk(view, d, t, vol.super.rootInode, all) == Walk(view, d, t, current, Components(path[index..]))
      decreases |path| - index
    {
      var name;
      ghost var tail := Components(path[index..]);
      name, index := NextName(path, index);
      ghost var rest := Components(path[index..]);
      if |name| > NAME_MAX {
        assert all[|done|] == name;
        return false, 0;
      }
      if |name| > 0 {
        done := done + [name];
        ok, current := StepInto(vol, current, name, rest);
        if !ok {
          return;
        }
      }
    }
    assert path[index..] == [];
    WalkDone(view, d, t, current);
    out := current;
    ok := true;
  }

  lemma SkipSlash(path: seq<u8>)
    requires path != [] && path[0] == SLASH
    ensures Components(path) == Components(path[1..])
  {
  }

  lemma WalkDone(view: Disk, d: nat, t: V.Table, from: nat)
    ensures Components([]) == [] && Walk(view, d, t, from, []) == Some(from)
  {
  }

  /** One lookup of the walk. */
  method StepInto(vol: Volume, from: nat, name: Name, ghost rest: seq<Name>) returns (ok: bool, child: u64)
    requires vol.Valid() && V.SlotsSound(TableOf(vol), vol.super) && 0 < |name| <= NAME_MAX
    requires TreeOk(vol.storage.View(), vol.device, vol.csuper, TableOf(vol))
    modifies vol.storage
    ensures vol.Valid() && vol.storage.View() == old(vol.storage.View())
            && vol.storage.faults >= old(vol.storage.faults)
    ensures ok ==> (Walk(vol.storage.View(), vol.device, TableOf(vol), from, [name] + rest)
                    == Walk(vol.storage.View(), vol.device, TableOf(vol), child, rest))
    ensures !ok && vol.storage.faults == old(vol.storage.faults) ==>
      Walk(vol.storage.View(), vol.device, TableOf(vol), from, [name] + rest).None?
  {
    hide Good, PoolOk, Durable, LaySet, SetOf, StageOf, Flat, SlotsOf, Readable, ImagesOf, AllEntries, NameMap,
         DirTiled, V.SlotsSound;
    assert ([name] + rest)[0] == name && ([name] + rest)[1..] == rest;
    ok, child := DirLookup(vol, from, name);
  }
}
