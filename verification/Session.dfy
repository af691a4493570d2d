/** Runs of operations, commits, crashes and recoveries: what holds from mount to mount. */
module Sessions {
  import opened Bytes
  import opened BlockCache
  import opened Blocks
  import opened Superblocks
  import opened Durability
  import opened Staging
  import opened Volumes
  import opened Extents
  import opened Inodes
  import opened InodeOps
  import opened Files
  import opened DirRecords
  import opened Directories
  import opened Ops
  import V = Views
  import A = Audits
  import Mounts

  // ---- whole generations --------------------------------------------------

  /** Everything the operations keep: the audit would accept the window, and all of it can be read. */
  ghost predicate Healthy(vol: Volume)
    reads vol, vol.storage
  {
    vol.Valid() && Auditable(vol) && Sealed(vol) && Tree(vol)
  }

  /** The same of a generation on device contents: metadata set, data and directories. */
  ghost predicate Whole(view: Disk, d: nat, s: Superblock, m: MetaSet)
  {
    && A.AuditedSet(m, s)
    && SealedIn(view, d, s, UsedIn(m.bitmap, s.totalBlocks))
    && TreeOk(view, d, s, SlotsOf(m.table, s.inodeCount))
  }

  /** The generation a crash falls back to is whole. */
  ghost predicate Rooted(vol: Volume)
    reads vol`committed, vol`csuper
  {
    Whole(vol.committed, vol.device, vol.csuper, vol.Active())
  }

  /** Mounted, `h` shows the metadata set `m` under `s`, and every file as `view` has it. */
  ghost predicate Carries(h: Disk, view: Disk, d: nat, s: Superblock, m: MetaSet)
  {
    && Pick(h, d, s.totalBlocks) == Some(s) && SetOf(h, d, s, s.activeSlot) == m
    && FilesKept(view, h, d, s, SlotsOf(m.table, s.inodeCount), 0)
    && (Whole(view, d, s, m) ==> Whole(h, d, s, m))
  }

  /** The blocks the set allocates, and their checksum entries, are the same. */
  ghost predicate SameData(view: Disk, h: Disk, d: nat, s: Superblock, used: set<nat>)
  {
    forall b: nat :: IsData(s, b) && b in used ==>
      BlockOf(h, d, b) == BlockOf(view, d, b) && SealOf(h, d, s, b) == SealOf(view, d, s, b)
  }

  lemma SealedSame(view: Disk, h: Disk, d: nat, s: Superblock, used: set<nat>)
    requires SameData(view, h, d, s, used) && SealedIn(view, d, s, used)
    ensures SealedIn(h, d, s, used)
  {
    hide BlockOf, SealOf, FromLe;
  }

  /** Under agreement every file lives in allocated blocks, so equal data are equal files. */
  lemma EqualFiles(view: Disk, h: Disk, d: nat, s: Superblock, c: Superblock, used: set<nat>, t: V.Table)
    requires V.ThreeViews(used, t, s) && SameRegions(s, c) && SameData(view, h, d, c, used)
    ensures FilesKept(view, h, d, c, t, 0)
  {
    hide Flat, SameBlocks, V.ThreeViews, SameData;
    V.DataUsedFrame(used, s, c);
    forall k | 0 < k < |t| && V.InUse(t[k])
      ensures SameBlocks(view, h, d, c, Flat(t[k].value.direct))
    {
      V.SoundBlocks(used, t, s, k);
      BlocksSame(view, h, d, c, used, Flat(t[k].value.direct));
    }
  }

  lemma BlocksSame(view: Disk, h: Disk, d: nat, s: Superblock, used: set<nat>, q: seq<nat>)
    requires SameData(view, h, d, s, used) && V.SetOfSeq(q) <= V.DataUsed(used, s)
    ensures SameBlocks(view, h, d, s, q)
  {
    hide BlockOf, SealOf, FromLe;
    forall l | 0 <= l < |q|
      ensures IsData(s, q[l]) && q[l] in used
    {
      assert q[l] in V.SetOfSeq(q);
    }
    assert ImagesOf(h, d, q) == ImagesOf(view, d, q);
  }

  lemma TreeSame(view: Disk, h: Disk, d: nat, s: Superblock, t: V.Table)
    requires FilesKept(view, h, d, s, t, 0) && TreeOk(view, d, s, t)
    ensures TreeOk(h, d, s, t)
  {
    hide FilesKept, TreeOk;
    TreeKept(view, h, d, s, t, t, 0, 0);
  }

  lemma DataCarries(h: Disk, view: Disk, d: nat, s: Superblock, m: MetaSet)
    requires A.AuditedSet(m, s) && SameData(view, h, d, s, UsedIn(m.bitmap, s.totalBlocks))
    requires Pick(h, d, s.totalBlocks) == Some(s) && SetOf(h, d, s, s.activeSlot) == m
    ensures Carries(h, view, d, s, m)
  {
    hide UsedIn, SlotsOf, SetOf, Pick, V.ThreeViews, FilesKept, TreeOk, SealedIn, SameData, A.KindOk;
    var used, t := UsedIn(m.bitmap, s.totalBlocks), SlotsOf(m.table, s.inodeCount);
    EqualFiles(view, h, d, s, s, used, t);
    if Whole(view, d, s, m) {
      SealedSame(view, h, d, s, used);
      TreeSame(view, h, d, s, t);
    }
  }

  /** Between commits every crash leaves all files of the committed generation. */
  lemma WindowCarries(vol: Volume, k: nat)
    requires vol.Valid() && A.AuditedSet(vol.Active(), vol.csuper) && vol.windowStart <= k < |vol.storage.history|
    ensures Carries(vol.storage.history[k], vol.committed, vol.device, vol.csuper, vol.Active())
  {
    hide Good, PoolOk, Durable, SetOf, Pick, BlockOf, SealOf, A.AuditedSet, Carries;
    vol.CrashMounts(k);
    DataCarries(vol.storage.history[k], vol.committed, vol.device, vol.csuper, vol.Active());
  }

  /** A crash during a commit leaves all files of the old generation, or all files of the window. */
  lemma CrashCarries(h: Disk, view: Disk, c: Disk, d: nat, s: Superblock, next: Superblock, want: MetaSet)
    requires Geometry(s, c, d) && Unpack(BlockOf(c, d, SuperSlot(s, s.activeSlot))) == Some(s.(activeSlot := 0))
    requires SameRegions(s, next) && next.totalBlocks == s.totalBlocks
    requires A.AuditedSet(SetOf(c, d, s, s.activeSlot), s) && A.AuditedSet(want, next)
    requires CrashPoint(h, view, c, d, s, next, want)
    ensures Carries(h, c, d, s, SetOf(c, d, s, s.activeSlot)) || Carries(h, view, d, next, want)
  {
    hide A.AuditedSet, SetOf, Safe, Pick, BlockOf, Unpack, SealOf, Geometry, Carries, Openable, UsedIn;
    if Safe(h, c, d, s) {
      SafeMounts(h, c, d, s);
      DataCarries(h, c, d, s, SetOf(c, d, s, s.activeSlot));
    } else {
      forall b: nat | IsData(next, b) && b in UsedIn(want.bitmap, next.totalBlocks)
        ensures BlockOf(h, d, b) == BlockOf(view, d, b) && SealOf(h, d, next, b) == SealOf(view, d, next, b)
      {
        SealFrame(h, d, s, next, b);
        SealFrame(view, d, s, next, b);
      }
      DataCarries(h, view, d, next, want);
    }
  }

  lemma SealFrame(m: Disk, d: nat, s: Superblock, next: Superblock, b: nat)
    requires SameRegions(s, next) && s.dataStart <= b
    ensures SealOf(m, d, next, b) == SealOf(m, d, s, b)
  {
  }

  // ---- the beginning ------------------------------------------------------

  /** A fresh volume allocates no data block, so there is nothing to be wrong. */
  lemma FormattedWhole(view: Disk, d: nat, s: Superblock)
    requires Mounts.Formatted(view, d, s)
    ensures Whole(view, d, s, SetOf(view, d, s, 0))
  {
    hide UsedIn, SlotsOf, SetOf, Pick, Flat, Pack, Raw, Split, BlockOf, SealOf, SuperValid, ImagesOf, HasMode;
    var m := SetOf(view, d, s, 0);
    var used, t := UsedIn(m.bitmap, s.totalBlocks), SlotsOf(m.table, s.inodeCount);
    assert V.DataUsed(used, s) == {};
    forall b: nat | b in used
      ensures !IsData(s, b)
    {
      assert b !in V.DataUsed(used, s);
    }
    forall n | 0 < n < |t| && IsDir(t[n])
      ensures DirTiled(ImagesOf(view, d, Flat(t[n].value.direct))) && Readable(view, d, s, Flat(t[n].value.direct))
    {
      DirInUse(t[n].value);
      V.SoundBlocks(used, t, s, n);
      NoBlocks(view, d, s);
      assert Flat(t[n].value.direct) == [];
    }
  }

  /** A volume opened on a formatted device is healthy and rooted. */
  lemma FormattedHealthy(vol: Volume)
    requires vol.Valid() && vol.super == vol.csuper && StageOf(vol.pool, vol.device) == Stage(map[], map[])
    requires Mounts.Formatted(vol.storage.View(), vol.device, vol.csuper)
    ensures Healthy(vol) && Rooted(vol)
  {
    hide Good, PoolOk, LaySet, StageOf, SetOf, UsedIn, SlotsOf, Whole, Mounts.Formatted, Safe, Unpack, BlockOf, SealOf,
         Geometry, Shaped, Raw, Pick;
    var view, c, d, s := vol.storage.View(), vol.committed, vol.device, vol.csuper;
    FormattedWhole(view, d, s);
    FormattedSlots(view, d, s);
    SafeMounts(view, c, d, s);
    A.LayNothing(vol.Active());
    HealthyWhole(vol, s);
    HealthyRooted(vol);
  }

  lemma FormattedSlots(view: Disk, d: nat, s: Superblock)
    requires Mounts.Formatted(view, d, s)
    ensures s.activeSlot == 0
  {
  }

  // ---- windows ------------------------------------------------------------

  datatype Request =
    | Create(parent: nat, name: Name, mode: u16, now: u64, nsec: u32)
    | Unlink(parent: nat, name: Name, now: u64)
    | Write(n: nat, offset: u64, bytes: seq<u8>, now: u64)

  /** A request to create names one kind, and a length fits its type. */
  predicate Proper(r: Request)
  {
    (r.Create? ==> A.KindOk(r.mode)) && (r.Write? ==> |r.bytes| < U64_LIMIT)
  }

  lemma AuditableAgrees(vol: Volume)
    requires Auditable(vol)
    ensures Agrees(vol)
    ensures forall n: nat :: V.InUse(InodeOf(vol, n)) ==> A.KindOk(InodeOf(vol, n).value.mode)
  {
    hide LaySet, SetOf, UsedIn, StageOf, SlotsOf, V.ThreeViews, A.KindOk;
  }

  /** What a successful write keeps. */
  lemma WriteKeeps(vol: Volume, view: Disk, t: V.Table, s: Superblock, used: set<nat>, n: nat)
    requires A.Mountable(used, t, s) && Agrees(vol) && 0 < n < |t| && TableOf(vol) == t[n := InodeOf(vol, n)]
    requires IsFile(t[n]) && IsFile(InodeOf(vol, n)) && InodeOf(vol, n).value.mode == t[n].value.mode
    requires FilesKept(view, vol.storage.View(), vol.device, vol.csuper, t, n)
    ensures Auditable(vol) && (TreeOk(view, vol.device, vol.csuper, t) ==> Tree(vol))
  {
    hide LaySet, SetOf, UsedIn, StageOf, SlotsOf, Flat, HasMode, V.ThreeViews, FilesKept, A.KindOk, TreeOk;
    FileInUse(t[n]);
    KindApart(t[n].value.mode);
    KindDecides(used, t, s, vol.Used(), TableOf(vol), vol.super, 0);
    if TreeOk(view, vol.device, vol.csuper, t) {
      TreeKept(view, vol.storage.View(), vol.device, vol.csuper, t, TableOf(vol), 0, n);
    }
  }

  /** One request on a healthy window: success leaves it healthy. */
  method Perform(vol: Volume, r: Request) returns (ok: bool)
    requires Healthy(vol) && Proper(r)
    modifies vol`pool, vol`super, vol.storage
    ensures vol.Valid() && (ok ==> Healthy(vol))
  {
    hide Good, PoolOk, Durable, LaySet, SetOf, UsedIn, StageOf, Flat, SlotsOf, CommittedUsed, ImagesOf, PoolFull,
         V.SetOfSeq, V.ThreeViews, V.Sound, DataOnly, SealedIn, HasMode, A.KindOk, FilesKept, TreeOk, A.Mountable,
         MapIn, OkIn, ReadableIn, Created, Unlinked, UnlinkFailed, Removable, Cramped, Unmovable, MapLaw, Blocked,
         NoRoom, AfterWrite;
    AuditableAgrees(vol);
    ghost var target, touched, cut, back, held;
    match r
    case Create(parent, name, mode, now, nsec) =>
      var n;
      ok, n, touched, back := CreateAt(vol, parent, name, mode, now, nsec);
    case Unlink(parent, name, now) =>
      if IsDir(InodeOf(vol, parent)) {
        DirInUse(InodeOf(vol, parent).value);
      }
      ok, target, touched, cut, back := UnlinkAt(vol, parent, name, now);
    case Write(n, offset, bytes, now) =>
      ghost var view, t, s, used := vol.storage.View(), TableOf(vol), vol.super, vol.Used();
      var written;
      ok, written, touched, held := FileWrite(vol, n, offset, bytes, now);
      if ok {
        WriteKeeps(vol, view, t, s, used, n);
      }
  }

  /**
    Any run of requests in one window.  As long as they succeed the window stays
    healthy; and whatever happens, every crash leaves a device that mounts,
    passes the audit and has every file of the committed generation.
   */
  method RunWindow(vol: Volume, script: seq<Request>) returns (done: nat)
    requires Healthy(vol) && Rooted(vol)
    requires forall i :: 0 <= i < |script| ==> Proper(script[i])
    modifies vol`pool, vol`super, vol.storage
    ensures vol.Valid() && done <= |script| && (done == |script| ==> Healthy(vol))
    ensures Rooted(vol) && vol.Active() == old(vol.Active())
    ensures forall k :: vol.windowStart <= k < |vol.storage.history| ==>
      A.MountsAudited(vol.storage.history[k], vol.device, vol.csuper.totalBlocks)
      && Carries(vol.storage.history[k], vol.committed, vol.device, vol.csuper, vol.Active())
  {
    hide Good, PoolOk, Durable, Auditable, Sealed, Tree, A.MountsAudited, Proper, Carries, A.AuditedSet, SealedIn,
         TreeOk, SetOf, UsedIn, SlotsOf;
    done := 0;
    var ok := true;
    while done < |script| && ok
      invariant vol.Valid() && 0 <= done <= |script| && (ok ==> Healthy(vol)) && (!ok ==> done < |script|)
      decreases |script| - done, ok
    {
      ok := Perform(vol, script[done]);
      if ok {
        done := done + 1;
      }
    }
    forall k | vol.windowStart <= k < |vol.storage.history|
      ensures A.MountsAudited(vol.storage.history[k], vol.device, vol.csuper.totalBlocks)
      ensures Carries(vol.storage.history[k], vol.committed, vol.device, vol.csuper, vol.Active())
    {
      A.OpenWindowAudits(vol, k);
      WindowCarries(vol, k);
    }
  }

  // ---- commits ------------------------------------------------------------

  /** The window as a generation of its own. */
  lemma HealthyWhole(vol: Volume, s: Superblock)
    requires vol.Valid() && (s == vol.super || s == Next(vol.super))
    ensures Healthy(vol) <==> Whole(vol.storage.View(), vol.device, s, vol.Window())
  {
    hide Good, PoolOk, Durable, LaySet, StageOf, SetOf, UsedIn, SlotsOf, A.Mountable, TreeOk, SealedIn;
    vol.Shape();
    A.NextMountable(vol.Used(), TableOf(vol), vol.super);
    SealedFrame(vol.storage.View(), vol.device, vol.csuper, s, vol.Used());
    TreeFrame(vol.storage.View(), vol.device, vol.csuper, s, TableOf(vol));
  }

  lemma SealedFrame(view: Disk, d: nat, s: Superblock, next: Superblock, used: set<nat>)
    requires SameRegions(s, next)
    ensures SealedIn(view, d, next, used) <==> SealedIn(view, d, s, used)
  {
    hide BlockOf, SealOf, FromLe;
    forall b: nat | IsData(s, b)
      ensures SealOf(view, d, next, b) == SealOf(view, d, s, b)
    {
      SealFrame(view, d, s, next, b);
    }
  }

  lemma TreeFrame(view: Disk, d: nat, s: Superblock, next: Superblock, t: V.Table)
    requires SameRegions(s, next)
    ensures TreeOk(view, d, next, t) <==> TreeOk(view, d, s, t)
  {
    hide Flat, DirTiled, ImagesOf, HasMode, Readable;
    forall n | 0 < n < |t| && IsDir(t[n])
      ensures Readable(view, d, next, Flat(t[n].value.direct)) <==> Readable(view, d, s, Flat(t[n].value.direct))
    {
      ReadableFrame(view, d, s, next, Flat(t[n].value.direct));
    }
  }

  lemma ReadableFrame(view: Disk, d: nat, s: Superblock, next: Superblock, q: seq<nat>)
    requires SameRegions(s, next)
    ensures Readable(view, d, next, q) <==> Readable(view, d, s, q)
  {
    hide BlockOf, SealOf, FromLe;
    forall l | 0 <= l < |q| && s.dataStart <= q[l]
      ensures SealOf(view, d, next, q[l]) == SealOf(view, d, s, q[l])
    {
      SealFrame(view, d, s, next, q[l]);
    }
  }

  /** With nothing staged, a healthy volume is what it would fall back to. */
  lemma HealthyRooted(vol: Volume)
    requires Healthy(vol) && StageOf(vol.pool, vol.device) == Stage(map[], map[]) && vol.super == vol.csuper
    ensures Rooted(vol)
  {
    hide Good, PoolOk, LaySet, StageOf, SetOf, UsedIn, SlotsOf, A.Mountable, TreeOk, SealedIn, Safe, Geometry, Unpack,
         Shaped, BlockOf, SealOf, SameData, Raw;
    A.LayNothing(vol.Active());
    var view, c, d, s := vol.storage.View(), vol.committed, vol.device, vol.csuper;
    SafeMounts(view, c, d, s);
    assert SameData(view, c, d, s, vol.Used()) by {
      SafeSame(view, c, d, s);
    }
    SealedSame(view, c, d, s, vol.Used());
    MountableViews(vol.Used(), TableOf(vol), s);
    EqualFiles(view, c, d, s, s, vol.Used(), TableOf(vol));
    TreeSame(view, c, d, s, TableOf(vol));
  }

  lemma SafeSame(h: Disk, c: Disk, d: nat, s: Superblock)
    requires forall b :: IsData(s, b) && b in CommittedUsed(c, d, s) ==>
      BlockOf(h, d, b) == BlockOf(c, d, b) && SealOf(h, d, s, b) == SealOf(c, d, s, b)
    ensures SameData(h, c, d, s, CommittedUsed(c, d, s))
  {
    hide BlockOf, SealOf, CommittedUsed;
  }

  lemma MountableViews(used: set<nat>, t: V.Table, s: Superblock)
    requires A.Mountable(used, t, s)
    ensures V.ThreeViews(used, t, s)
  {
  }

  /**
    adytumfs_commit of a healthy window.  Every crash on the way leaves all
    files and directories of the old generation or all of the window; success
    leaves a healthy, rooted volume with the window's files.
   */
  method CommitWindow(vol: Volume) returns (ok: bool)
    requires Healthy(vol) && Rooted(vol) && vol.super.generation + 1 < U64_LIMIT
    requires Covers(Pair(vol.Active(), vol.Inactive()), StageOf(vol.pool, vol.device))
    modifies vol`super, vol`pool, vol`csuper, vol`committed, vol`windowStart, vol.storage
    ensures |old(vol.storage.history)| <= |vol.storage.history|
    ensures forall k :: |old(vol.storage.history)| <= k < |vol.storage.history| ==>
      var h := vol.storage.history[k];
      && A.MountsAudited(h, vol.device, old(vol.csuper).totalBlocks)
      && (|| Carries(h, old(vol.committed), vol.device, old(vol.csuper), old(vol.Active()))
          || Carries(h, old(vol.storage.View()), vol.device, Next(old(vol.super)), old(vol.Window())))
    ensures Whole(old(vol.storage.View()), vol.device, Next(old(vol.super)), old(vol.Window()))
    ensures ok ==> Healthy(vol) && TableOf(vol) == old(TableOf(vol))
    ensures ok ==> FilesKept(old(vol.storage.View()), vol.storage.View(), vol.device, vol.csuper, TableOf(vol), 0)
    ensures !ok && vol.Valid() ==>
      Healthy(vol) && Covers(Pair(vol.Active(), vol.Inactive()), StageOf(vol.pool, vol.device))
    ensures Rooted(vol)
  {
    hide Good, PoolOk, Durable, LaySet, StageOf, SetOf, UsedIn, SlotsOf, Covers, A.MountsAudited, Pick, Unpack, BlockOf,
         SealOf, Safe, CrashPoint, Carries, A.AuditedSet, A.Mountable, SealedIn, TreeOk, Geometry, Shaped, Raw,
         FilesKept;
    ghost var view, c, d, s, was := vol.storage.View(), vol.committed, vol.device, vol.csuper, vol.Active();
    ghost var next, m, first := Next(vol.super), vol.Window(), |vol.storage.history|;
    ghost var used, t := vol.Used(), TableOf(vol);
    vol.Shape();
    HealthyWhole(vol, next);
    A.DurableParts(vol);
    ok := A.CommitAudited(vol);
    forall k | first <= k < |vol.storage.history|
      ensures Carries(vol.storage.history[k], c, d, s, was) || Carries(vol.storage.history[k], view, d, next, m)
    {
      CrashCarries(vol.storage.history[k], view, c, d, s, next, m);
    }
    if vol.Valid() {
      StillHealthy(vol, view, s, used, t);
    }
    if ok && vol.super == vol.csuper == next {
      HealthyRooted(vol);
    }
  }

  /** A volume whose metadata and data are as they were is as healthy as it was. */
  lemma StillHealthy(vol: Volume, view: Disk, s: Superblock, used: set<nat>, t: V.Table)
    requires vol.Valid() && Auditable(vol) && vol.Used() == used && TableOf(vol) == t && SameRegions(s, vol.csuper)
    requires SealedIn(view, vol.device, s, used) && TreeOk(view, vol.device, s, t)
    requires forall x: nat :: IsData(vol.csuper, x) ==>
      s.dataStart <= x && vol.Data(x) == BlockOf(view, vol.device, x) && vol.Seal(x) == SealOf(view, vol.device, s, x)
    ensures Healthy(vol) && FilesKept(view, vol.storage.View(), vol.device, vol.csuper, t, 0)
  {
    hide Good, PoolOk, Durable, LaySet, StageOf, SetOf, UsedIn, SlotsOf, BlockOf, SealOf, SealedIn, TreeOk, FilesKept;
    var h, d, c := vol.storage.View(), vol.device, vol.csuper;
    forall b: nat | IsData(c, b) && b in used
      ensures BlockOf(h, d, b) == BlockOf(view, d, b) && SealOf(h, d, c, b) == SealOf(view, d, c, b)
    {
      SealFrame(view, d, s, c, b);
      assert vol.Data(b) == BlockOf(view, d, b) && vol.Seal(b) == SealOf(view, d, s, b);
    }
    SealedFrame(view, d, s, c, used);
    TreeFrame(view, d, s, c, t);
    SealedSame(view, h, d, c, used);
    MountableViews(used, t, vol.super);
    EqualFiles(view, h, d, vol.super, c, used, t);
    TreeSame(view, h, d, c, t);
  }

  // ---- recovery -----------------------------------------------------------

  /**
    Mounting after a crash.  Whatever generation the device carries, its files
    and directories are there, and the volume is as healthy as one that never
    crashed: windows, commits and crashes may go on from here.
   */
  method Recover(sizes: map<nat, u32>, h: Disk, d: nat, s: Superblock, ghost view: Disk, ghost m: MetaSet)
    returns (vol: Volume)
    requires DiskShape(sizes, h) && d in sizes && sizes[d] / SECTORS_PER_BLOCK == s.totalBlocks
    requires A.MountsAudited(h, d, s.totalBlocks) && Carries(h, view, d, s, m) && Whole(view, d, s, m)
    ensures fresh(vol) && fresh(vol.storage) && Healthy(vol) && Rooted(vol)
    ensures vol.device == d && vol.super == vol.csuper == s && vol.storage.disk == h && vol.Window() == m
    ensures FilesKept(view, vol.storage.View(), d, s, TableOf(vol), 0)
  {
    hide Good, PoolOk, Durable, LaySet, StageOf, SetOf, UsedIn, SlotsOf, A.MountsAudited, Pick, Whole, FilesKept,
         A.AuditedSet, A.Mountable;
    vol := A.Reopen(sizes, h, d, s);
    HealthyWhole(vol, s);
  }
}
