/** Inode operations over a mounted volume (src/fs/adytumfs_inode.c). */
module InodeOps {
  import opened Bytes
  import opened BlockCache
  import opened Blocks
  import opened Checksums
  import opened Superblocks
  import opened Durability
  import opened Staging
  import opened Volumes
  import opened Extents
  import opened Inodes
  import V = Views

  function SlotsOf(table: seq<Image>, count: nat): (t: V.Table)
    ensures |t| == count
  {
    seq(count, n requires 0 <= n => InodeAt(table, n))
  }

  /** The inode table as the open window reads it. */
  ghost function TableOf(vol: Volume): V.Table
    reads vol`committed, vol`csuper, vol`pool
  {
    SlotsOf(vol.Window().table, vol.csuper.inodeCount)
  }

  /** The inode in slot `n`, when the slot exists and parses. */
  ghost function InodeOf(vol: Volume, n: nat): Option<Inode>
    reads vol`committed, vol`csuper, vol`pool
  {
    if 0 < n < |TableOf(vol)| then TableOf(vol)[n] else None
  }

  /** The records of allocation agree, in the window. */
  ghost predicate Agrees(vol: Volume)
    reads vol`committed, vol`csuper, vol`pool, vol`super
  {
    V.ThreeViews(vol.Used(), TableOf(vol), vol.super)
  }

  lemma SlotInTable(s: Superblock, n: nat)
    requires SuperValid(s, s.totalBlocks) && n < s.inodeCount
    ensures n / INODES_PER_BLOCK < s.tableBlocks
  {
  }

  lemma SlotsPut(table: seq<Image>, count: nat, n: nat, i: Inode)
    requires n < count && n / INODES_PER_BLOCK < |table|
    ensures var b := n / INODES_PER_BLOCK;
            SlotsOf(table[b := PutSlot(table[b], n % INODES_PER_BLOCK, PackInode(i))], count)
            == SlotsOf(table, count)[n := Some(i)]
  {
    hide InodeAt, PutSlot, PackInode;
    var b := n / INODES_PER_BLOCK;
    var next := table[b := PutSlot(table[b], n % INODES_PER_BLOCK, PackInode(i))];
    forall m | 0 <= m < count
      ensures SlotsOf(next, count)[m] == SlotsOf(table, count)[n := Some(i)][m]
    {
      InodePut(table, n, i, m);
    }
  }

  /** adytumfs_inode_read. */
  method ReadInode(vol: Volume, n: nat) returns (ok: bool, inode: Inode)
    requires vol.Valid()
    modifies vol.storage
    ensures vol.Valid() && vol.storage.View() == old(vol.storage.View())
    ensures ok ==> 0 < n < vol.super.inodeCount == |TableOf(vol)| && TableOf(vol)[n] == Some(inode)
    ensures !ok ==>
      n == 0 || n >= vol.super.inodeCount || TableOf(vol)[n].None? || vol.storage.faults > old(vol.storage.faults)
    ensures InodeOf(vol, n).Some? && TableStaged(vol.pool, vol.device, n / INODES_PER_BLOCK) ==> ok
    ensures vol.storage.faults >= old(vol.storage.faults)
  {
    hide Good, PoolOk, Durable, LaySet, SetOf, UnpackInode, SuperValid;
    inode := Inode(0, 0, 0, 0, 0, 0, 0, 0, 0, 0, 0, NoExtents(), 0, 0, 0, 0, 0);
    vol.Shape();
    if n == 0 || n >= vol.super.inodeCount {
      return false, inode;
    }
    SlotInTable(vol.super, n);
    var img;
    ok, img := vol.TableRead(n / INODES_PER_BLOCK);
    if ok {
      match UnpackInode(SlotOf(img, n % INODES_PER_BLOCK))
      case Some(i) => inode := i;
      case None => ok := false;
    }
  }

  function NoExtents(): (d: Direct)
    ensures forall k :: 0 <= k < DIRECT_EXTENTS ==> d[k] == NO_EXTENT
  {
    seq(DIRECT_EXTENTS, _ => NO_EXTENT)
  }

  /** adytumfs_inode_write: the other fifteen slots of the block survive. */
  method WriteInode(vol: Volume, n: nat, inode: Inode) returns (ok: bool)
    requires vol.Valid()
    modifies vol`pool, vol.storage
    ensures vol.Valid() && vol.storage.View() == old(vol.storage.View())
    ensures StagedMore(old(vol.pool), vol.pool, vol.device) && vol.Used() == old(vol.Used())
    ensures ok ==> 0 < n < vol.super.inodeCount == |TableOf(vol)| && TableOf(vol) == old(TableOf(vol))[n := Some(inode)]
    ensures !ok ==> TableOf(vol) == old(TableOf(vol))
    ensures ok ==> TableStaged(vol.pool, vol.device, n / INODES_PER_BLOCK)
    ensures PoolFull(old(vol.pool)) ==> PoolFull(vol.pool)
    ensures 0 < n < vol.super.inodeCount && TableStaged(old(vol.pool), vol.device, n / INODES_PER_BLOCK) ==> ok
    ensures !ok ==>
      n == 0 || n >= vol.super.inodeCount || PoolFull(vol.pool) || vol.storage.faults > old(vol.storage.faults)
    ensures vol.storage.faults >= old(vol.storage.faults)
  {
    hide Good, PoolOk, Durable, LaySet, SetOf, UnpackInode, SuperValid, PutSlot, PackInode, SlotsOf, UsedIn, StageOf;
    vol.Shape();
    if n == 0 || n >= vol.super.inodeCount {
      return false;
    }
    SlotInTable(vol.super, n);
    var index := n / INODES_PER_BLOCK;
    var img;
    ok, img := vol.TableRead(index);
    if !ok {
      return;
    }
    SlotsPut(vol.Window().table, vol.csuper.inodeCount, n, inode);
    ok := vol.TableStage(index, PutSlot(img, n % INODES_PER_BLOCK, PackInode(inode)));
  }

  /** A reborn slot: no blocks, the next generation. */
  function Newborn(mode: u16, generation: u64, now: u64, nsec: u32): Inode
  {
    Inode(mode, if HasMode(mode, MODE_DIR) then 2 else 1, 0, 0, 0, 0, 0, now, now, now, AddU64(generation, 1),
          NoExtents(), 0, 0, nsec, nsec, nsec)
  }

  /** A single mode bit is set. */
  predicate HasMode(mode: u16, bit: nat)
    requires bit > 0
  {
    mode / bit % 2 == 1
  }

  /** Every free slot lies behind a slot that does not parse. */
  ghost predicate NoSlot(t: V.Table)
  {
    forall k :: 0 < k < |t| && t[k].Some? && t[k].value.mode == 0 ==> exists j :: 0 < j < k && t[j].None?
  }

  /** adytumfs_inode_alloc: the first free slot. */
  method AllocInode(vol: Volume, mode: u16, now: u64, nsec: u32) returns (ok: bool, n: nat)
    requires vol.Valid()
    modifies vol`pool, vol`super, vol.storage
    ensures vol.Valid() && vol.storage.View() == old(vol.storage.View())
    ensures StagedMore(old(vol.pool), vol.pool, vol.device) && vol.Used() == old(vol.Used())
    ensures ok ==> 0 < n < vol.super.inodeCount == |old(TableOf(vol))| && mode != 0
    ensures ok ==> old(TableOf(vol))[n].Some? && old(TableOf(vol))[n].value.mode == 0
    ensures ok ==> forall k :: 0 < k < n ==> V.InUse(old(TableOf(vol))[k])
    ensures ok ==>
      TableOf(vol) == old(TableOf(vol))[n := Some(Newborn(mode, old(TableOf(vol))[n].value.generation, now, nsec))]
    ensures ok ==> vol.super == old(vol.super).(freeInodes := SubU64(old(vol.super).freeInodes, 1))
    ensures ok ==> TableStaged(vol.pool, vol.device, n / INODES_PER_BLOCK)
    ensures !ok ==> vol.super == old(vol.super) && TableOf(vol) == old(TableOf(vol))
    ensures !ok && mode != 0 ==>
      NoSlot(TableOf(vol)) || PoolFull(vol.pool) || vol.storage.faults > old(vol.storage.faults)
    ensures vol.storage.faults >= old(vol.storage.faults)
  {
    hide Good, PoolOk, Durable, LaySet, SetOf, SlotsOf, UsedIn, StageOf;
    n := 0;
    vol.Shape();
    if mode == 0 {
      return false, 0;
    }
    var candidate := 1;
    while candidate < vol.super.inodeCount
      invariant vol.Valid() && vol.storage.View() == old(vol.storage.View()) && candidate >= 1
      invariant vol.pool == old(vol.pool) && vol.super == old(vol.super)
                && vol.storage.faults >= old(vol.storage.faults)
      invariant forall k :: 0 < k < candidate && k < |TableOf(vol)| ==> V.InUse(TableOf(vol)[k])
    {
      var inode;
      ok, inode := ReadInode(vol, candidate);
      if !ok {
        return;
      }
      if inode.mode == 0 {
        ok := WriteInode(vol, candidate, Newborn(mode, inode.generation, now, nsec));
        if ok {
          vol.super := vol.super.(freeInodes := SubU64(vol.super.freeInodes, 1));
          n := candidate;
        }
        return;
      }
      candidate := candidate + 1;
    }
    ok := false;
  }

  /** adytumfs_inode_free: the slot keeps its body, only the mode goes. */
  method FreeInode(vol: Volume, n: nat) returns (ok: bool)
    requires vol.Valid()
    modifies vol`pool, vol`super, vol.storage
    ensures vol.Valid() && vol.storage.View() == old(vol.storage.View())
    ensures StagedMore(old(vol.pool), vol.pool, vol.device) && vol.Used() == old(vol.Used())
    ensures ok ==> 0 < n < vol.super.inodeCount == |old(TableOf(vol))| && V.InUse(old(TableOf(vol))[n])
    ensures ok ==> TableOf(vol) == old(TableOf(vol))[n := Some(old(TableOf(vol))[n].value.(mode := 0))]
    ensures ok ==> vol.super == old(vol.super).(freeInodes := AddU64(old(vol.super).freeInodes, 1))
    ensures !ok ==> vol.super == old(vol.super) && TableOf(vol) == old(TableOf(vol))
    ensures PoolFull(old(vol.pool)) ==> PoolFull(vol.pool)
    ensures V.InUse(old(InodeOf(vol, n))) && TableStaged(old(vol.pool), vol.device, n / INODES_PER_BLOCK) ==> ok
    ensures !ok && 0 < n < vol.super.inodeCount == |old(TableOf(vol))| && V.InUse(old(TableOf(vol))[n]) ==>
      PoolFull(vol.pool) || vol.storage.faults > old(vol.storage.faults)
    ensures vol.storage.faults >= old(vol.storage.faults)
  {
    hide Good, PoolOk, Durable, LaySet, SetOf, SlotsOf, UsedIn, StageOf;
    var inode;
    ok, inode := ReadInode(vol, n);
    if !ok || inode.mode == 0 {
      return false;
    }
    ok := WriteInode(vol, n, inode.(mode := 0));
    if ok {
      vol.super := vol.super.(freeInodes := AddU64(vol.super.freeInodes, 1));
    }
  }

  // ---- growing ------------------------------------------------------------

  lemma RunIsRange(start: nat, length: nat)
    ensures V.SetOfSeq(Range(start, length)) == Run(start, length)
  {
    forall b | b in Run(start, length)
      ensures b in Range(start, length)
    {
      assert Range(start, length)[b - start] == b;
    }
  }

  lemma TakeAndGiveBack(free: u64, n: nat)
    ensures AddU64(SubU64(free, n), n) == free && SubU64(AddU64(free, n), n) == free
  {
    ModBack(free, 0 - n);
    ModBack(free, n);
  }

  lemma ModBack(free: u64, n: int)
    ensures ((free + n) % U64_LIMIT - n) % U64_LIMIT == free
  {
    var q := (free + n) / U64_LIMIT;
    assert (free + n) % U64_LIMIT == free + n - U64_LIMIT * q;
    assert (free - U64_LIMIT * q) % U64_LIMIT == free;
  }

  /**
    The allocation half of adytumfs_inode_grow.  Without a slot for the new
    extent the run goes back and nothing has changed.
   */
  method GrowRun(vol: Volume, inode: Inode, newBlocks: u64)
    returns (ok: bool, next: Inode, start: nat, ghost taken: bool)
    requires vol.Valid() && V.Sound(vol.super, inode) && inode.blocks < newBlocks
    modifies vol`pool, vol`super, vol.storage
    ensures vol.Valid() && vol.storage.View() == old(vol.storage.View())
    ensures StagedMore(old(vol.pool), vol.pool, vol.device) && vol.Window().table == old(vol.Window()).table
    ensures ok ==> vol.super.dataStart <= start && start + (newBlocks - inode.blocks) <= vol.super.checksumRegion
    ensures ok ==>
      Run(start, newBlocks - inode.blocks) !! old(vol.Used()) && Run(start, newBlocks - inode.blocks) !! vol.Committed()
    ensures ok ==> vol.Used() == old(vol.Used()) + Run(start, newBlocks - inode.blocks)
    ensures ok ==>
      vol.super == old(vol.super).(freeBlocks := SubU64(old(vol.super).freeBlocks, newBlocks - inode.blocks))
    ensures ok ==> next == inode.(direct := next.direct, blocks := newBlocks)
    ensures ok ==> Flat(next.direct) == Flat(inode.direct) + Range(start, newBlocks - inode.blocks)
    ensures ok ==> V.Sound(vol.super, next)
    ensures !ok ==> next == inode && vol.super == old(vol.super)
    ensures !ok && taken ==> vol.Used() == old(vol.Used()) && Live(inode.direct) == DIRECT_EXTENTS
    ensures !ok && !taken ==>
      vol.Used() == old(vol.Used()) || PoolFull(vol.pool) || vol.storage.faults > old(vol.storage.faults)
    ensures ok ==> !NoRun(old(vol.Busy()), vol.super, newBlocks - inode.blocks)
    ensures !ok && !taken ==>
      NoRun(old(vol.Busy()), vol.super, newBlocks - inode.blocks) || PoolFull(vol.pool)
      || vol.storage.faults > old(vol.storage.faults)
    ensures vol.storage.faults >= old(vol.storage.faults)
  {
    hide Good, PoolOk, Durable, LaySet, SetOf, UsedIn, StageOf, Flat, BitStaged, V.Sound, SubU64, AddU64, NoRun;
    vol.Shape();
    next := inode;
    taken := false;
    var add := newBlocks - inode.blocks;
    ok, start := vol.AllocRun(add);
    if !ok {
      return;
    }
    taken := true;
    V.SoundIsBounded(old(vol.super), inode);
    SoundParts(old(vol.super), inode);
    var direct;
    ok, direct := AppendRun(inode.direct, start, add);
    if !ok {
      TakeAndGiveBack(old(vol.super).freeBlocks, add);
      var _ := vol.FreeRun(start, add);
      assert old(vol.Used()) + Run(start, add) - Run(start, add) == old(vol.Used());
      return;
    }
    next := inode.(direct := direct, blocks := newBlocks);
    GrownSound(old(vol.super), vol.super, inode, next, start, add);
  }

  lemma SoundParts(s: Superblock, i: Inode)
    requires V.Sound(s, i)
    ensures Packed(i.direct) && i.blocks == |Flat(i.direct)|
  {
  }

  lemma GrownSound(s: Superblock, s': Superblock, i: Inode, next: Inode, start: nat, add: nat)
    requires V.Sound(s, i) && s'.dataStart == s.dataStart && s'.checksumRegion == s.checksumRegion
    requires Packed(next.direct) && next.blocks == i.blocks + add
    requires Flat(next.direct) == Flat(i.direct) + Range(start, add)
    requires s.dataStart <= start && start + add <= s.checksumRegion
    ensures V.Sound(s', next)
  {
    hide Flat;
    forall b | b in Flat(next.direct)
      ensures IsData(s', b)
    {
      if b in Flat(i.direct) {
        V.FlatInSpan(s, i.direct, b);
      } else {
        assert b in Range(start, add);
      }
    }
    V.SpanFromFlat(s', next.direct);
  }

  /** The block reads back as zeroes through the checked path. */
  ghost predicate Blank(vol: Volume, b: nat)
    reads vol.storage, vol`csuper
  {
    vol.csuper.dataStart <= b && vol.Data(b) == Zeros(BLOCK_SIZE) && vol.Seal(b) == Le(Crc32c(Zeros(BLOCK_SIZE)), 4)
  }

  /** The zeroing half of adytumfs_inode_grow. */
  method ZeroRun(vol: Volume, start: nat, length: nat) returns (ok: bool)
    requires vol.Valid() && vol.super.dataStart <= start && start + length <= vol.super.checksumRegion
    requires Run(start, length) !! vol.Committed()
    modifies vol.storage
    ensures vol.Valid()
            && DataOnly(old(vol.storage.View()), vol.storage.View(), vol.device, vol.csuper, Run(start, length))
    ensures ok ==> forall b :: start <= b < start + length ==> Blank(vol, b)
    ensures !ok ==> vol.storage.faults > old(vol.storage.faults)
    ensures vol.storage.faults >= old(vol.storage.faults)
  {
    hide Good, PoolOk, Durable, CommittedUsed, DataOnly, BlockOf, SealOf, Le, Crc32c;
    DataOnlyRefl(vol.storage.View(), vol.device, vol.csuper, Run(start, length));
    var block := start;
    while block < start + length
      invariant vol.Valid() && start <= block <= start + length
      invariant DataOnly(old(vol.storage.View()), vol.storage.View(), vol.device, vol.csuper, Run(start, length))
      invariant forall b :: start <= b < block ==> Blank(vol, b)
      invariant vol.storage.faults >= old(vol.storage.faults)
    {
      label Before:
      ghost var before := vol.storage.View();
      assert block in Run(start, length);
      ok := vol.BlockZero(block);
      DataOnlyTrans(old(vol.storage.View()), before, vol.storage.View(), vol.device, vol.csuper, Run(start, length),
        {block});
      assert Run(start, length) + {block} == Run(start, length);
      if !ok {
        return;
      }
      DataOnlyKeeps(before, vol.storage.View(), vol.device, vol.csuper, {block});
      forall b | start <= b < block
        ensures Blank(vol, b)
      {
        assert old@Before(Blank(vol, b)) && IsData(vol.csuper, b);
      }
      block := block + 1;
    }
    ok := true;
  }

  lemma DataOnlyKeeps(v: Disk, w: Disk, d: nat, s: Superblock, touched: set<nat>)
    requires DataOnly(v, w, d, s, touched)
    ensures forall x: nat :: IsData(s, x) && x !in touched ==>
      BlockOf(w, d, x) == BlockOf(v, d, x) && SealOf(w, d, s, x) == SealOf(v, d, s, x)
  {
  }

  /** No free run of that length, or no free slot for an extent. */
  ghost predicate NoGrowth(direct: Direct, add: nat, s: Superblock, busy: set<nat>)
  {
    NoRun(busy, s, add) || Live(direct) == DIRECT_EXTENTS
  }

  /** adytumfs_inode_grow: new blocks join the end of the file and read as zeroes; the old ones are untouched. */
  method GrowInode(vol: Volume, inode: Inode, newBlocks: u64)
    returns (ok: bool, next: Inode, ghost start: nat, ghost touched: set<nat>, ghost taken: bool)
    requires vol.Valid() && V.Sound(vol.super, inode)
    modifies vol`pool, vol`super, vol.storage
    ensures vol.Valid() && StagedMore(old(vol.pool), vol.pool, vol.device)
            && vol.Window().table == old(vol.Window()).table
    ensures newBlocks <= inode.blocks ==>
      ok && next == inode && vol.Used() == old(vol.Used()) && vol.super == old(vol.super)
    ensures newBlocks <= inode.blocks ==> vol.storage.View() == old(vol.storage.View())
    ensures ok && inode.blocks < newBlocks ==>
      Grown(old(vol.super), vol.super, old(vol.Used()), vol.Used(), vol.Committed(), inode, next, start, newBlocks)
    ensures ok && inode.blocks < newBlocks ==> forall b :: b in Run(start, newBlocks - inode.blocks) ==> Blank(vol, b)
    ensures DataOnly(old(vol.storage.View()), vol.storage.View(), vol.device, vol.csuper, touched)
            && touched !! old(vol.Used())
    ensures ok && inode.blocks < newBlocks ==> touched == Run(start, newBlocks - inode.blocks)
    ensures !ok && taken ==>
      vol.Used() == old(vol.Used()) && vol.super == old(vol.super) && vol.storage.View() == old(vol.storage.View())
    ensures !ok && !taken ==>
      (vol.Used() == old(vol.Used()) && vol.super == old(vol.super)) || PoolFull(vol.pool)
      || vol.storage.faults > old(vol.storage.faults)
    ensures ok && inode.blocks < newBlocks ==> !NoRun(old(vol.Busy()), vol.super, newBlocks - inode.blocks)
    ensures !ok ==> inode.blocks < newBlocks
    ensures !ok ==>
      NoGrowth(inode.direct, newBlocks - inode.blocks, vol.super, old(vol.Busy())) || PoolFull(vol.pool)
      || vol.storage.faults > old(vol.storage.faults)
    ensures vol.storage.faults >= old(vol.storage.faults)
  {
    hide Good, PoolOk, Durable, LaySet, SetOf, UsedIn, StageOf, Flat, V.Sound, SubU64, CommittedUsed, DataOnly, BlockOf,
         SealOf, Le, Crc32c, Range, PoolFull, NoRun;
    start, touched, taken := 0, {}, false;
    DataOnlyRefl(vol.storage.View(), vol.device, vol.csuper, touched);
    if newBlocks <= inode.blocks {
      return true, inode, start, touched, taken;
    }
    var first;
    ok, next, first, taken := GrowRun(vol, inode, newBlocks);
    start := first;
    if !ok {
      return;
    }
    touched, taken := Run(start, newBlocks - inode.blocks), false;
    ok := ZeroRun(vol, first, newBlocks - inode.blocks);
  }

  /** What a successful growth does to the allocation records. */
  ghost predicate Grown(s: Superblock, s': Superblock, used: set<nat>, used': set<nat>, committed: set<nat>,
                        i: Inode, next: Inode, start: nat, newBlocks: u64)
  {
    && i.blocks < newBlocks
    && s.dataStart <= start && start + (newBlocks - i.blocks) <= s.checksumRegion
    && Run(start, newBlocks - i.blocks) !! used && Run(start, newBlocks - i.blocks) !! committed
    && used' == used + Run(start, newBlocks - i.blocks)
    && s' == s.(freeBlocks := SubU64(s.freeBlocks, newBlocks - i.blocks))
    && next == i.(direct := next.direct, blocks := newBlocks)
    && Flat(next.direct) == Flat(i.direct) + Range(start, newBlocks - i.blocks)
    && V.Sound(s', next)
  }

  /** Growing keeps the three records in agreement. */
  lemma GrownAgrees(s: Superblock, s': Superblock, used: set<nat>, used': set<nat>, committed: set<nat>, t: V.Table,
      k: nat,
                    i: Inode, next: Inode, start: nat, newBlocks: u64)
    requires Grown(s, s', used, used', committed, i, next, start, newBlocks)
    requires V.ThreeViews(used, t, s) && 1 <= k < |t| && t[k] == Some(i) && i.mode != 0
    ensures V.ThreeViews(used', t[k := Some(next)], s')
  {
    hide Flat, V.Sound;
    var add := newBlocks - i.blocks;
    RunIsRange(start, add);
    V.RangeMultiset(start, add);
    FreeRoom(used, s, Run(start, add));
    V.SoundFrame(s, s', next);
    V.GrowViews(used, t, s, k, next, start, add, s');
  }

  /** Blocks outside the used set are counted as free. */
  lemma FreeRoom(used: set<nat>, s: Superblock, run: set<nat>)
    requires run !! used && forall b :: b in run ==> IsData(s, b)
    ensures |V.DataUsed(used, s)| + |run| <= s.checksumRegion - s.dataStart || s.checksumRegion < s.dataStart
  {
    if s.dataStart <= s.checksumRegion {
      var both := V.DataUsed(used, s) + run;
      assert |both| == |V.DataUsed(used, s)| + |run|;
      V.SpanSize(both, s.dataStart, s.checksumRegion);
    }
  }

  // ---- truncating ---------------------------------------------------------

  /** What a successful truncation does to the allocation records. */
  ghost predicate Truncated(s: Superblock, s': Superblock, used: set<nat>, used': set<nat>, i: Inode, next: Inode,
      newBlocks: u64)
  {
    && newBlocks < i.blocks == |Flat(i.direct)|
    && next == i.(direct := next.direct, blocks := newBlocks)
    && Flat(next.direct) == Flat(i.direct)[..newBlocks]
    && V.Sound(s', next)
    && used' == used - V.SetOfSeq(Flat(i.direct)[newBlocks..])
    && s' == s.(freeBlocks := AddU64(s.freeBlocks, i.blocks - newBlocks))
  }

  /** One turn of the truncation loop. */
  method ReleaseExtent(vol: Volume, e: Extent, base: nat, limit: nat) returns (ok: bool, cut: Extent)
    requires vol.Valid() && V.InSpan(vol.super, e) && e.length > 0
    modifies vol`pool, vol`super, vol.storage
    ensures vol.Valid() && vol.storage.View() == old(vol.storage.View())
    ensures StagedMore(old(vol.pool), vol.pool, vol.device) && vol.Window().table == old(vol.Window()).table
    ensures ok ==> cut == CutExtent(e, base, limit)
    ensures ok ==> vol.Used() == old(vol.Used()) - V.SetOfSeq(CutOff(e, base, limit))
    ensures ok ==>
      vol.super == old(vol.super).(freeBlocks := AddU64(old(vol.super).freeBlocks, |CutOff(e, base, limit)|))
    ensures !ok ==> PoolFull(vol.pool) || vol.storage.faults > old(vol.storage.faults)
    ensures vol.storage.faults >= old(vol.storage.faults)
  {
    hide Good, PoolOk, Durable, LaySet, SetOf, UsedIn, StageOf, PoolFull, Run;
    cut := CutExtent(e, base, limit);
    if base >= limit {
      RunIsRange(e.start, e.length);
      ok := vol.FreeRun(e.start, e.length);
    } else if base + e.length > limit {
      var keep := limit - base;
      RunIsRange(e.start + keep, e.length - keep);
      ok := vol.FreeRun(e.start + keep, e.length - keep);
    } else {
      ok := true;
    }
  }

  /** adytumfs_inode_truncate: exactly the blocks past the new end are released. */
  method TruncateInode(vol: Volume, inode: Inode, newBlocks: u64) returns (ok: bool, next: Inode)
    requires vol.Valid() && V.Sound(vol.super, inode)
    modifies vol`pool, vol`super, vol.storage
    ensures vol.Valid() && vol.storage.View() == old(vol.storage.View())
    ensures StagedMore(old(vol.pool), vol.pool, vol.device) && vol.Window().table == old(vol.Window()).table
    ensures inode.blocks <= newBlocks ==>
      ok && next == inode && vol.Used() == old(vol.Used()) && vol.super == old(vol.super)
    ensures ok && newBlocks < inode.blocks ==>
      Truncated(old(vol.super), vol.super, old(vol.Used()), vol.Used(), inode, next, newBlocks)
    ensures !ok ==> PoolFull(vol.pool) || vol.storage.faults > old(vol.storage.faults)
    ensures vol.storage.faults >= old(vol.storage.faults)
  {
    hide Good, PoolOk, Durable, LaySet, SetOf, UsedIn, StageOf, Flat, Live, V.Sound, AddU64, CutAll, Run, Dropped,
         PoolFull, V.SetOfSeq, CutOff;
    next := inode;
    if newBlocks >= inode.blocks {
      return true, next;
    }
    SoundParts(vol.super, inode);
    NoneFlat();
    ghost var d, goal := inode.direct, CutAll(inode.direct, 0, newBlocks);
    var base := 0;
    var index := 0;
    assert d[..0] == [];
    NothingDropped(vol.super.freeBlocks, newBlocks);
    while index < DIRECT_EXTENTS
      invariant vol.Valid() && vol.storage.View() == old(vol.storage.View())
                && vol.storage.faults >= old(vol.storage.faults)
      invariant StagedMore(old(vol.pool), vol.pool, vol.device) && vol.Window().table == old(vol.Window()).table
      invariant 0 <= index <= DIRECT_EXTENTS && index <= Live(d) && base == |Flat(d[..index])|
      invariant next == inode.(direct := next.direct)
      invariant forall k :: 0 <= k < DIRECT_EXTENTS ==> next.direct[k] == if k < index then goal[k] else d[k]
      invariant vol.Used() == old(vol.Used()) - V.SetOfSeq(Dropped(Flat(d[..index]), newBlocks))
      invariant vol.super
        == old(vol.super).(freeBlocks := AddU64(old(vol.super).freeBlocks, |Dropped(Flat(d[..index]), newBlocks)|))
    {
      var e := next.direct[index];
      if e.length == 0 {
        break;
      }
      LiveMore(d, index);
      CutAllAt(d, 0, newBlocks, index);
      FlatStep(d, index);
      DroppedStep(Flat(d[..index]), e, newBlocks);
      SoundExtent(old(vol.super), inode, index);
      ReleaseStep(old(vol.Used()), Dropped(Flat(d[..index]), newBlocks), old(vol.super).freeBlocks,
        CutOff(e, base, newBlocks));
      var cut;
      ok, cut := ReleaseExtent(vol, e, base, newBlocks);
      if !ok {
        return;
      }
      next := next.(direct := next.direct[index := cut]);
      base := base + e.length;
      index := index + 1;
    }
    TruncatedDone(inode, next, newBlocks, index, old(vol.super), vol.super);
    next := next.(blocks := newBlocks);
    ok := true;
  }

  lemma NothingDropped(free: u64, limit: nat)
    ensures AddU64(free, 0) == free && Dropped([], limit) == [] && V.SetOfSeq([]) == {}
  {
  }

  lemma LiveMore(exts: seq<Extent>, i: nat)
    requires i <= Live(exts) && i < |exts| && exts[i].length > 0
    ensures i < Live(exts)
  {
  }

  lemma SoundExtent(s: Superblock, i: Inode, k: nat)
    requires V.Sound(s, i) && k < DIRECT_EXTENTS && i.direct[k].length > 0
    ensures V.InSpan(s, i.direct[k])
  {
  }

  lemma ReleaseStep(used: set<nat>, gone: seq<nat>, free: u64, more: seq<nat>)
    ensures (used - V.SetOfSeq(gone)) - V.SetOfSeq(more) == used - V.SetOfSeq(gone + more)
    ensures AddU64(AddU64(free, |gone|), |more|) == AddU64(free, |gone + more|)
  {
    assert V.SetOfSeq(gone + more) == V.SetOfSeq(gone) + V.SetOfSeq(more);
    var q := (free + |gone|) / U64_LIMIT;
    assert AddU64(free, |gone|) == free + |gone| - U64_LIMIT * q;
    ModShift(free + |gone| + |more|, q);
  }

  lemma ModShift(x: int, q: int)
    ensures (x - U64_LIMIT * q) % U64_LIMIT == x % U64_LIMIT
  {
    var r := x / U64_LIMIT;
    assert x - U64_LIMIT * q == U64_LIMIT * (r - q) + x % U64_LIMIT;
  }

  lemma TruncatedDone(i: Inode, cut: Inode, newBlocks: u64, index: nat, s: Superblock, s': Superblock)
    requires V.Sound(s, i) && newBlocks < i.blocks && index <= Live(i.direct)
    requires index < DIRECT_EXTENTS ==> i.direct[index].length == 0
    requires index <= DIRECT_EXTENTS && cut == i.(direct := cut.direct)
    requires forall k :: 0 <= k < DIRECT_EXTENTS ==>
      cut.direct[k] == if k < index then CutAll(i.direct, 0, newBlocks)[k] else i.direct[k]
    requires s'.dataStart == s.dataStart && s'.checksumRegion == s.checksumRegion
    ensures Flat(i.direct[..index]) == Flat(i.direct)
    ensures Dropped(Flat(i.direct), newBlocks) == Flat(i.direct)[newBlocks..]
    ensures Flat(cut.direct) == Flat(i.direct)[..newBlocks]
    ensures V.Sound(s', cut.(blocks := newBlocks))
  {
    hide Flat, Live, CutAll;
    LiveIs(i.direct, index);
    FlatLive(i.direct);
    var goal := CutAll(i.direct, 0, newBlocks);
    forall k | index <= k < DIRECT_EXTENTS
      ensures goal[k] == i.direct[k]
    {
      CutAllAt(i.direct, 0, newBlocks, k);
    }
    assert cut.direct == goal;
    CutAllFlat(i.direct, 0, newBlocks);
    CutAllPacked(i.direct, 0, newBlocks);
    forall b | b in Flat(cut.direct)
      ensures IsData(s', b)
    {
      assert b in Flat(i.direct);
      V.FlatInSpan(s, i.direct, b);
    }
    V.SpanFromFlat(s', cut.direct);
  }

  /** Truncating keeps the three records in agreement. */
  lemma TruncatedAgrees(s: Superblock, s': Superblock, used: set<nat>, used': set<nat>, t: V.Table, k: nat, i: Inode,
      next: Inode, newBlocks: u64)
    requires Truncated(s, s', used, used', i, next, newBlocks)
    requires V.ThreeViews(used, t, s) && 1 <= k < |t| && t[k] == Some(i) && i.mode != 0
    ensures V.ThreeViews(used', t[k := Some(next)], s')
  {
    hide Flat, V.Sound;
    V.SoundBlocks(used, t, s, k);
    V.SubsetSize(V.SetOfSeq(Flat(i.direct)), V.DataUsed(used, s));
    V.SoundFrame(s, s', next);
    V.TruncateViews(used, t, s, k, next, newBlocks, s');
  }

  // ---- moving one block ---------------------------------------------------

  /** adytumfs_redirect_stage. */
  method RedirectStage(vol: Volume, inode: Inode, logical: nat) returns (ok: bool, oldBlock: nat, target: nat)
    requires vol.Valid()
    modifies vol`pool, vol`super, vol.storage
    ensures vol.Valid() && vol.storage.View() == old(vol.storage.View())
    ensures StagedMore(old(vol.pool), vol.pool, vol.device) && vol.Window().table == old(vol.Window()).table
    ensures ok ==> logical < |Flat(inode.direct)| && oldBlock == Flat(inode.direct)[logical]
    ensures ok ==> IsData(vol.csuper, target) && target !in old(vol.Used()) && target !in vol.Committed()
    ensures ok ==> vol.Used() == old(vol.Used()) + {target} && BitStaged(vol.pool, vol.device, target)
    ensures ok ==> vol.super == old(vol.super).(freeBlocks := SubU64(old(vol.super).freeBlocks, 1))
    ensures !ok ==> vol.super == old(vol.super) && vol.Used() == old(vol.Used())
    ensures ok ==> !NoRun(old(vol.Busy()), vol.super, 1)
    ensures !ok && logical < |Flat(inode.direct)| ==>
      NoRun(old(vol.Busy()), vol.super, 1) || PoolFull(vol.pool) || vol.storage.faults > old(vol.storage.faults)
    ensures vol.storage.faults >= old(vol.storage.faults)
  {
    hide Good, PoolOk, Durable, LaySet, SetOf, UsedIn, StageOf, Flat, BitStaged, CommittedUsed, NoRun;
    target := 0;
    ok, oldBlock := InodeMap(inode.direct, logical);
    if !ok {
      return;
    }
    ok, target := vol.AllocRun(1);
    if ok {
      assert Run(target, 1) == {target};
    }
  }

  /** adytumfs_redirect_commit; `back` says a failure gave the new block back and left the table alone. */
  method RedirectCommit(vol: Volume, inode: Inode, n: nat, logical: nat, oldBlock: nat, target: u64)
    returns (ok: bool, next: Inode, ghost back: bool)
    requires vol.Valid() && Bounded(inode.direct)
    requires IsData(vol.csuper, target) && BitStaged(vol.pool, vol.device, target)
    modifies vol`pool, vol`super, vol.storage
    ensures vol.Valid() && vol.storage.View() == old(vol.storage.View())
            && StagedMore(old(vol.pool), vol.pool, vol.device)
    ensures ok ==> 0 < n < |old(TableOf(vol))| && TableOf(vol) == old(TableOf(vol))[n := Some(next)]
    ensures ok ==> next == inode.(direct := next.direct) && Packed(next.direct)
    ensures ok ==> logical < |Flat(inode.direct)| && Flat(next.direct) == Flat(inode.direct)[logical := target]
    ensures ok ==> vol.Used() == old(vol.Used()) - {oldBlock}
    ensures ok ==> vol.super == old(vol.super).(freeBlocks := AddU64(old(vol.super).freeBlocks, 1))
    ensures !ok && back ==>
      next == inode && TableOf(vol) == old(TableOf(vol)) && vol.Used() == old(vol.Used()) - {target}
    ensures !ok && back ==> vol.super == old(vol.super).(freeBlocks := AddU64(old(vol.super).freeBlocks, 1))
    ensures !ok && !back && IsData(vol.csuper, oldBlock) ==>
      PoolFull(vol.pool) || vol.storage.faults > old(vol.storage.faults)
    ensures ok ==> !SplitOverflows(inode.direct, logical)
    ensures !ok && back && 0 < n < vol.super.inodeCount && logical < |Flat(inode.direct)| ==>
      SplitOverflows(inode.direct, logical) || PoolFull(vol.pool) || vol.storage.faults > old(vol.storage.faults)
    ensures vol.storage.faults >= old(vol.storage.faults)
  {
    hide Good, PoolOk, Durable, LaySet, SetOf, UsedIn, StageOf, Flat, BitStaged, CommittedUsed, SlotsOf, SplitOverflows;
    back := true;
    var direct;
    ok, direct := ExtentReroute(inode.direct, logical, target);
    if !ok {
      var _ := vol.FreeRun(target, 1);
      assert Run(target, 1) == {target};
      return false, inode, true;
    }
    next := inode.(direct := direct);
    ghost var before := vol.pool;
    ok := WriteInode(vol, n, next);
    if !ok {
      StagedMoreBits(before, vol.pool, vol.device);
      var _ := vol.FreeRun(target, 1);
      assert Run(target, 1) == {target};
      return false, inode, true;
    }
    back := false;
    ok := vol.FreeRun(oldBlock, 1);
    assert Run(oldBlock, 1) == {oldBlock};
  }

  /** A mapped block cannot be redirected: its extent would split into too many, or no data block is free. */
  ghost predicate Stuck(direct: Direct, logical: nat, s: Superblock, busy: set<nat>)
  {
    SplitOverflows(direct, logical) || NoRun(busy, s, 1)
  }

  /** What a successful redirection does to the allocation records. */
  ghost predicate Moved(s: Superblock, used: set<nat>, used': set<nat>, committed: set<nat>, i: Inode, next: Inode,
      logical: nat, target: nat)
  {
    && logical < |Flat(i.direct)|
    && IsData(s, target) && target !in used && target !in committed
    && used' == used + {target} - {Flat(i.direct)[logical]}
    && next == i.(direct := next.direct)
    && Flat(next.direct) == Flat(i.direct)[logical := target]
    && V.Sound(s, next)
  }

  /**
    adytumfs_inode_remap: one logical block moves to a block free in the window
    and in the committed generation, holding the new bytes.
   */
  method RemapInode(vol: Volume, inode: Inode, n: nat, logical: nat, content: Image)
    returns (ok: bool, next: Inode, ghost target: nat, ghost touched: set<nat>, ghost back: bool)
    requires vol.Valid() && V.Sound(vol.super, inode)
    modifies vol`pool, vol`super, vol.storage
    ensures vol.Valid() && StagedMore(old(vol.pool), vol.pool, vol.device)
    ensures DataOnly(old(vol.storage.View()), vol.storage.View(), vol.device, vol.csuper, touched)
    ensures touched <= {target} && touched !! old(vol.Used())
    ensures ok ==> Moved(vol.super, old(vol.Used()), vol.Used(), vol.Committed(), inode, next, logical, target)
    ensures ok ==>
      0 < n < |old(TableOf(vol))| && TableOf(vol) == old(TableOf(vol))[n := Some(next)] && vol.super == old(vol.super)
    ensures ok ==>
      vol.csuper.dataStart <= target && vol.Data(target) == content && vol.Seal(target) == Le(Crc32c(content), 4)
    ensures !ok && back ==>
      next == inode && TableOf(vol) == old(TableOf(vol)) && vol.Used() == old(vol.Used()) && vol.super == old(vol.super)
    ensures !ok && !back ==> PoolFull(vol.pool) || vol.storage.faults > old(vol.storage.faults)
    ensures ok ==> !Stuck(inode.direct, logical, vol.super, old(vol.Busy()))
    ensures !ok && 0 < n < vol.super.inodeCount && logical < |Flat(inode.direct)| ==>
      Stuck(inode.direct, logical, vol.super, old(vol.Busy())) || PoolFull(vol.pool)
      || vol.storage.faults > old(vol.storage.faults)
    ensures vol.storage.faults >= old(vol.storage.faults)
  {
    hide Good, PoolOk, Durable, LaySet, SetOf, UsedIn, StageOf, Flat, BitStaged, CommittedUsed, SlotsOf, V.Sound,
         DataOnly, BlockOf, SealOf, Le, Crc32c, SubU64, AddU64, NoRun, SplitOverflows;
    vol.Shape();
    V.SoundIsBounded(vol.super, inode);
    next, back := inode, true;
    var oldBlock, block;
    ok, oldBlock, block := RedirectStage(vol, inode, logical);
    target, touched := block, {};
    DataOnlyRefl(vol.storage.View(), vol.device, vol.csuper, touched);
    if !ok {
      return;
    }
    touched := {block};
    ghost var s := old(vol.super);
    TakeAndGiveBack(s.freeBlocks, 1);
    NoRunFrame(old(vol.Busy()), s, vol.super, 1);
    BlockOfFlat(s, inode, logical);
    ok := vol.DataWrite(block, content);
    if !ok {
      var _ := vol.FreeRun(block, 1);
      assert Run(block, 1) == {block} && old(vol.Used()) + {block} - {block} == old(vol.Used());
      return;
    }
    ok, next, back := RedirectCommit(vol, inode, n, logical, oldBlock, block);
    if ok {
      MovedSound(s, inode, next, logical, block);
    } else if back {
      assert old(vol.Used()) + {block} - {block} == old(vol.Used());
    }
  }

  lemma BlockOfFlat(s: Superblock, i: Inode, logical: nat)
    requires V.Sound(s, i) && logical < |Flat(i.direct)|
    ensures IsData(s, Flat(i.direct)[logical])
  {
    hide Flat;
    V.FlatInSpan(s, i.direct, Flat(i.direct)[logical]);
  }

  lemma MovedSound(s: Superblock, i: Inode, next: Inode, logical: nat, target: nat)
    requires V.Sound(s, i) && next == i.(direct := next.direct) && Packed(next.direct) && IsData(s, target)
    requires logical < |Flat(i.direct)| && Flat(next.direct) == Flat(i.direct)[logical := target]
    ensures V.Sound(s, next)
  {
    hide Flat;
    forall b | b in Flat(next.direct)
      ensures IsData(s, b)
    {
      if b != target {
        assert b in Flat(i.direct);
        V.FlatInSpan(s, i.direct, b);
      }
    }
    V.SpanFromFlat(s, next.direct);
  }

  /** Moving a block keeps the three records in agreement. */
  lemma MovedAgrees(s: Superblock, used: set<nat>, used': set<nat>, committed: set<nat>, t: V.Table, k: nat, i: Inode,
      next: Inode,
                    logical: nat, target: nat)
    requires Moved(s, used, used', committed, i, next, logical, target)
    requires V.ThreeViews(used, t, s) && 1 <= k < |t| && t[k] == Some(i) && i.mode != 0
    ensures V.ThreeViews(used', t[k := Some(next)], s)
  {
    hide Flat, V.Sound;
    V.RemapViews(used, t, s, k, next, logical, target);
  }
}
