/** A mounted volume: staged metadata, allocation, checksummed data and the commit (src/fs/adytumfs_volume.c). */
module Volumes {
  import opened Bytes
  import opened BlockCache
  import opened Blocks
  import opened Superblocks
  import opened Checksums
  import opened Durability
  import opened Staging

  lemma ReadsBlock(view: Disk, d: nat, b: nat, buffer: seq<Sector>)
    requires OnDisk(view, d, b) && |buffer| == SECTORS_PER_BLOCK
    requires ReadsAs(view, d, SECTORS_PER_BLOCK * b, buffer)
    ensures Join(buffer) == BlockOf(view, d, b)
  {
    forall s | 0 <= s < SECTORS_PER_BLOCK
      ensures buffer[s] == Raw(view, d, b)[s]
    {
      assert Sec(d, b, s) == Loc(d, SECTORS_PER_BLOCK * b + s);
    }
    assert buffer == Raw(view, d, b);
  }

  class Volume {
    const storage: Storage
    const device: nat
    var super: Superblock
    var pool: seq<Staged>

    /** The generation the device would mount, and the device contents that carry it. */
    ghost var csuper: Superblock
    ghost var committed: Disk
    ghost var windowStart: nat

    ghost predicate Valid()
      reads this, storage
    {
      && storage.Valid()
      && device in storage.sizes
      && storage.sizes[device] / SECTORS_PER_BLOCK == super.totalBlocks
      && Durable(storage.View(), storage.disk, storage.history, windowStart, committed, device, csuper)
      && super == csuper.(freeBlocks := super.freeBlocks, freeInodes := super.freeInodes)
      && PoolOk(pool, device, csuper)
    }

    /** Mounting: the picked superblock, with no window open on the device and none of its pages cached dirty. */
    constructor (storage: Storage, device: nat, s: Superblock, pool: seq<Staged>)
      requires storage.Valid() && device in storage.sizes
      requires storage.sizes[device] / SECTORS_PER_BLOCK == s.totalBlocks
      requires Flushed(storage.View(), storage.disk, device)
      requires Openable(storage.disk, device, s)
      requires |pool| == POOL && OnePerKey(pool)
      requires forall i :: 0 <= i < POOL && pool[i].Staged? ==> pool[i].device != device
      ensures Valid() && this.storage == storage && this.device == device && super == s
      ensures committed == storage.disk && csuper == s && this.pool == pool
    {
      hide Durable, Good, Geometry, Unpack, Shaped, Outranked, Flushed;
      MountDurable(storage.View(), storage.disk, storage.history, device, s);
      this.storage := storage;
      this.device := device;
      super := s;
      this.pool := pool;
      csuper := s;
      committed := storage.disk;
      windowStart := |storage.history| - 1;
    }

    lemma Shape()
      requires Valid()
      ensures Geometry(csuper, committed, device)
      ensures SuperValid(super, super.totalBlocks) && SuperValid(csuper, csuper.totalBlocks)
      ensures super.bitmapBlocks <= 256 && super.tableBlocks <= TABLE_BLOCKS_MAX && super.activeSlot <= 1
      ensures |Active().bitmap| == |Window().bitmap| == super.bitmapBlocks
      ensures |Active().table| == |Window().table| == super.tableBlocks
    {
      hide Durable, Good;
      DurableParts(storage.View(), storage.disk, storage.history, windowStart, committed, device, csuper);
    }

    // ---- block transfers --------------------------------------------------

    /** adytumfs_block_read. */
    method BlockRead(b: nat) returns (ok: bool, img: Image)
      requires Valid() && b < super.totalBlocks
      modifies storage
      ensures Valid() && storage.View() == old(storage.View())
      ensures ok ==> img == BlockOf(storage.View(), device, b)
      ensures storage.faults >= old(storage.faults)
      ensures !ok ==> storage.faults > old(storage.faults)
    {
      hide Durable, Good, Settles, PoolOk, ReadsAs;
      var buffer;
      Reach(storage.View(), storage.disk, storage.history, windowStart, committed, device, csuper, b);
      ok, buffer := storage.Read(device, SECTORS_PER_BLOCK * b, SECTORS_PER_BLOCK);
      SettlesView(old(storage.Now()), storage.Now());
      DurableStill(old(storage.Now()), storage.Now(), windowStart, committed, device, csuper);
      if ok {
        ReadsBlock(storage.View(), device, b, buffer);
        img := Join(buffer);
      } else {
        img := Zeros(BLOCK_SIZE);
      }
    }

    /** adytumfs_block_write, to a block the committed generation does not need. */
    method BlockWrite(b: nat, img: Image) returns (ok: bool)
      requires Valid() && Writable(b, img)
      modifies storage
      ensures Valid()
      ensures storage.View() == if ok then Overlay(old(storage.View()), device, SECTORS_PER_BLOCK * b, Split(img))
                                else old(storage.View())
      ensures storage.faults >= old(storage.faults) && (!ok ==> storage.faults > old(storage.faults))
      ensures SlotKept(old(storage.history), storage.history, old(storage.View()), device, csuper)
    {
      hide Durable, Good, Lands, LandsOutside, PoolOk, Overlay, Frozen, CommittedUsed, KeepsSeal, SlotStill;
      Reach(storage.View(), storage.disk, storage.history, windowStart, committed, device, csuper, b);
      assert SECTORS_PER_BLOCK * b % CACHE_SECTORS == 0;
      ghost var done;
      WriteDurable(storage.View(), storage.disk, storage.history, windowStart, committed, device, csuper, b, img);
      ok, done := storage.Write(device, SECTORS_PER_BLOCK * b, Split(img));
      assert Split(img)[..SECTORS_PER_BLOCK] == Split(img) && Split(img)[..0] == [];
      OverlayNothing(old(storage.View()), device, SECTORS_PER_BLOCK * b);
      LandsStill(old(storage.Now()), storage.Now(), windowStart, committed, device, csuper);
      if ok {
        DurableLands(old(storage.Now()), storage.Now(), windowStart, committed, device, csuper);
      } else {
        DurableStill(old(storage.Now()), storage.Now(), windowStart, committed, device, csuper);
      }
    }

    ghost predicate Writable(b: nat, img: Image)
      reads this, storage
    {
      MayWrite(storage.View(), committed, device, csuper, b, img)
    }

    // ---- the window's view of the metadata --------------------------------

    /** The committed metadata set. */
    ghost function Active(): MetaSet
      reads `committed, `csuper
    {
      SetOf(committed, device, csuper, csuper.activeSlot)
    }

    /** The metadata as the open window reads it: staged images over the committed set. */
    ghost function Window(): MetaSet
      reads `committed, `csuper, `pool
    {
      LaySet(Active(), StageOf(pool, device))
    }

    /** Blocks allocated in the window's bitmap. */
    ghost function Used(): set<nat>
      reads `committed, `csuper, `pool
    {
      UsedIn(Window().bitmap, csuper.totalBlocks)
    }

    /** Blocks allocated in the committed bitmap. */
    ghost function Committed(): set<nat>
      reads `committed, `csuper
    {
      CommittedUsed(committed, device, csuper)
    }

    /** Blocks the allocator may not hand out. */
    ghost function Busy(): set<nat>
      reads `committed, `csuper, `pool
    {
      Used() + Committed()
    }

    /**
      Between commits: whatever prefix of the device writes since the window
      opened a crash leaves, the device mounts as the committed generation with
      its metadata set, its data blocks and their checksum entries untouched.
     */
    lemma CrashMounts(k: nat)
      requires Valid() && windowStart <= k < |storage.history|
      ensures Pick(storage.history[k], device, csuper.totalBlocks) == Some(csuper)
      ensures SetOf(storage.history[k], device, csuper, csuper.activeSlot) == Active()
      ensures forall b :: IsData(csuper, b) && b in Committed() ==>
        && BlockOf(storage.history[k], device, b) == BlockOf(committed, device, b)
        && SealOf(storage.history[k], device, csuper, b) == SealOf(committed, device, csuper, b)
    {
      hide Good, PoolOk, Safe, Geometry, Unpack, Shaped, Pick, SetOf, CommittedUsed, BlockOf, SealOf;
      SafeMounts(storage.history[k], committed, device, csuper);
    }

    // ---- the staging pool -------------------------------------------------

    /** staging_find: the key travels in a byte. */
    method FindStaged(isTable: bool, index: nat) returns (i: int)
      requires Valid()
      ensures i == StagedAt(pool, device, isTable, index % 256)
    {
      hide Durable, Good;
      i := 0;
      while i < POOL
        invariant 0 <= i <= POOL
        invariant forall k :: 0 <= k < i ==> !Keyed(pool[k], device, isTable, index % 256)
      {
        if Keyed(pool[i], device, isTable, index % 256) {
          StagedUnique(pool, i);
          return;
        }
        i := i + 1;
      }
      i := -1;
    }

    /** staging_claim: a claimed block starts as the committed image, so the window's view stays put. */
    method Claim(isTable: bool, index: nat) returns (i: int)
      requires Valid() && index < if isTable then super.tableBlocks else super.bitmapBlocks
      modifies this`pool, storage
      ensures Valid() && storage.View() == old(storage.View())
      ensures -1 <= i < POOL && (i >= 0 ==> Keyed(pool[i], device, isTable, index))
      ensures Window() == old(Window()) && StagedMore(old(pool), pool, device)
      ensures i < 0 ==> pool == old(pool) && (PoolFull(pool) || storage.faults > old(storage.faults))
      ensures StagedAt(old(pool), device, isTable, index) >= 0 ==> i >= 0
      ensures PoolFull(old(pool)) ==> PoolFull(pool)
      ensures storage.faults >= old(storage.faults)
    {
      hide Durable, Good, BlockOf, OnePerKey, SuperValid, LaySet, SetOf, StagedMore;
      Shape();
      StagedMoreRefl(pool, device);
      if index > 255 {
        return -1;
      }
      i := FindStaged(isTable, index);
      if i >= 0 {
        return;
      }
      i := FreeEntry();
      if i < 0 {
        return;
      }
      var ok := ClaimAt(i, isTable, index);
      if !ok {
        i := -1;
      }
    }

    /** The first free entry of the pool. */
    method FreeEntry() returns (i: int)
      requires |pool| == POOL
      ensures -1 <= i < POOL && (if i < 0 then PoolFull(pool) else pool[i].Free?)
    {
      i := 0;
      while i < POOL && pool[i].Staged?
        invariant 0 <= i <= POOL && forall k :: 0 <= k < i ==> pool[k].Staged?
      {
        i := i + 1;
      }
      if i == POOL {
        i := -1;
      }
    }

    /** A free entry takes the committed image of an unstaged block. */
    method ClaimAt(i: nat, isTable: bool, index: nat) returns (ok: bool)
      requires Valid() && index < (if isTable then super.tableBlocks else super.bitmapBlocks) && index <= 255
      requires i < POOL && pool[i].Free? && StagedAt(pool, device, isTable, index) < 0
      modifies this`pool, storage
      ensures Valid() && storage.View() == old(storage.View()) && Window() == old(Window())
              && StagedMore(old(pool), pool, device)
      ensures ok ==> Keyed(pool[i], device, isTable, index) && (PoolFull(old(pool)) ==> PoolFull(pool))
      ensures !ok ==> pool == old(pool) && storage.faults > old(storage.faults)
      ensures storage.faults >= old(storage.faults)
    {
      hide Durable, Good, StagedAt, BlockOf, OnePerKey, SuperValid, LaySet, SetOf;
      Shape();
      var img;
      ok, img := BlockRead(ActiveBlock(isTable, index));
      if !ok {
        return;
      }
      ActiveImage(storage.View(), storage.disk, storage.history, windowStart, committed, device, csuper, isTable,
        index);
      var e := Staged(device, isTable, index, img);
      Claimed(pool, i, e, device);
      BindCommitted(Active(), StageOf(pool, device), e);
      pool := pool[i := e];
    }

    /** Replaces the image of a staged block: the window's view changes at that block. */
    method EditStaged(i: nat, image: Image)
      requires Valid() && i < POOL && pool[i].Staged? && pool[i].device == device
      modifies this`pool
      ensures Valid() && StagedMore(old(pool), pool, device)
      ensures pool[i] == old(pool)[i].(image := image)
      ensures PoolFull(old(pool)) ==> PoolFull(pool)
      ensures Window() == SetImage(old(Window()), pool[i].isTable, pool[i].index, image)
    {
      hide Durable, Good, StagedAt, OnePerKey, SuperValid, LaySet, SetOf;
      Edited(pool, i, image, device);
      BindEdits(Active(), StageOf(pool, device), pool[i].(image := image));
      pool := pool[i := pool[i].(image := image)];
    }

    /** adytumfs_table_read: a staged block answers from the window's image. */
    method TableRead(index: nat) returns (ok: bool, img: Image)
      requires Valid() && index < super.tableBlocks
      modifies storage
      ensures Valid() && storage.View() == old(storage.View())
      ensures ok ==> index < |Window().table| && img == Window().table[index]
      ensures TableStaged(pool, device, index) ==> ok
      ensures storage.faults >= old(storage.faults)
      ensures !ok ==> storage.faults > old(storage.faults)
    {
      ok, img := MetaRead(true, index);
    }

    /** One metadata block of the active set, through the staging. */
    method MetaRead(isTable: bool, index: nat) returns (ok: bool, img: Image)
      requires Valid() && index < if isTable then super.tableBlocks else super.bitmapBlocks
      modifies storage
      ensures Valid() && storage.View() == old(storage.View())
      ensures ok ==> index < |Kind(Window(), isTable)| && img == Kind(Window(), isTable)[index]
      ensures isTable && TableStaged(pool, device, index) ==> ok
      ensures storage.faults >= old(storage.faults)
      ensures !ok ==> storage.faults > old(storage.faults)
    {
      hide Durable, Good, BlockOf, OnePerKey, SuperValid, SetOf, LaySet, StagedAt;
      Shape();
      var i := FindStaged(isTable, index);
      ActiveImage(storage.View(), storage.disk, storage.history, windowStart, committed, device, csuper, isTable,
        index);
      if i >= 0 {
        StagedIsWindow(Active(), pool, device, i);
        return true, pool[i].image;
      }
      UnstagedIsBase(Active(), pool, device, isTable, index);
      ok, img := BlockRead(ActiveBlock(isTable, index));
    }

    /** adytumfs_table_stage. */
    method TableStage(index: nat, img: Image) returns (ok: bool)
      requires Valid() && index < super.tableBlocks
      modifies this`pool, storage
      ensures Valid() && storage.View() == old(storage.View()) && StagedMore(old(pool), pool, device)
      ensures ok ==> Window() == SetImage(old(Window()), true, index, img) && TableStaged(pool, device, index)
      ensures TableStaged(old(pool), device, index) ==> ok
      ensures PoolFull(old(pool)) ==> PoolFull(pool)
      ensures !ok ==> Window() == old(Window()) && (PoolFull(pool) || storage.faults > old(storage.faults))
      ensures storage.faults >= old(storage.faults)
    {
      hide Durable, Good, OnePerKey, SuperValid, SetOf, LaySet, StagedAt;
      var i := Claim(true, index);
      if i < 0 {
        return false;
      }
      EditStaged(i, img);
      ok := true;
    }

    // ---- allocation bits --------------------------------------------------

    /** adytumfs_bit_test: -1 on a read error, else the bit through the staging. */
    method BitTest(b: nat) returns (r: int)
      requires Valid() && b < super.totalBlocks
      modifies storage
      ensures Valid() && storage.View() == old(storage.View())
      ensures r == -1 || r == if b in Used() then 1 else 0
      ensures storage.faults >= old(storage.faults)
      ensures r < 0 ==> storage.faults > old(storage.faults)
    {
      hide Durable, Good, BlockOf, OnePerKey, SetOf, LaySet, StagedAt, BitAt;
      Shape();
      var ok, img := MetaRead(false, b / BITS_PER_BLOCK);
      if !ok {
        return -1;
      }
      r := if BitAt(img, b % BITS_PER_BLOCK) then 1 else 0;
    }

    /** adytumfs_bit_committed: the bit of the committed bitmap, ignoring the staging. */
    method BitCommitted(b: nat) returns (r: int)
      requires Valid() && b < super.totalBlocks
      modifies storage
      ensures Valid() && storage.View() == old(storage.View())
      ensures r == -1 || r == if b in Committed() then 1 else 0
      ensures storage.faults >= old(storage.faults)
      ensures r < 0 ==> storage.faults > old(storage.faults)
    {
      hide Durable, Good, BlockOf, OnePerKey, SetOf, LaySet, StagedAt, BitAt;
      Shape();
      var index := b / BITS_PER_BLOCK;
      ActiveImage(storage.View(), storage.disk, storage.history, windowStart, committed, device, csuper, false, index);
      var ok, img := BlockRead(ActiveBlock(false, index));
      if !ok {
        return -1;
      }
      r := if BitAt(img, b % BITS_PER_BLOCK) then 1 else 0;
    }

    /** adytumfs_bit_write: stages one allocation bit edit. */
    method BitWrite(b: nat, on: bool) returns (ok: bool)
      requires Valid() && b < super.totalBlocks
      modifies this`pool, storage
      ensures Valid() && storage.View() == old(storage.View()) && StagedMore(old(pool), pool, device)
      ensures Window().table == old(Window()).table
      ensures ok ==> Used() == if on then old(Used()) + {b} else old(Used()) - {b}
      ensures ok ==> BitStaged(pool, device, b)
      ensures BitStaged(old(pool), device, b) ==> ok
      ensures PoolFull(old(pool)) ==> PoolFull(pool)
      ensures !ok ==> Window() == old(Window()) && (PoolFull(pool) || storage.faults > old(storage.faults))
      ensures storage.faults >= old(storage.faults)
    {
      hide Durable, Good, OnePerKey, SetOf, LaySet, BitAt, UsedIn;
      Shape();
      var index := b / BITS_PER_BLOCK;
      var i := Claim(false, index);
      if i < 0 {
        return false;
      }
      StagedIsWindow(Active(), pool, device, i);
      SetBitUsed(Window().bitmap, b, on, csuper.totalBlocks);
      EditStaged(i, SetBitAt(pool[i].image, b % BITS_PER_BLOCK, on));
      ok := true;
    }

    // ---- runs -------------------------------------------------------------

    /** The allocator's test of one block: -1 on a read error, 0 when it may not be handed out. */
    method TestReusable(b: nat) returns (r: int)
      requires Valid() && b < super.totalBlocks
      modifies storage
      ensures Valid() && storage.View() == old(storage.View())
      ensures r == -1 || r == if b in Busy() then 0 else 1
      ensures storage.faults >= old(storage.faults)
      ensures r < 0 ==> storage.faults > old(storage.faults)
    {
      hide Durable, Good, PoolOk, SetOf, LaySet, StagedAt, UsedIn, CommittedUsed, StageOf;
      var used := BitTest(b);
      if used < 0 {
        return -1;
      }
      if used == 1 {
        return 0;
      }
      var staged := FindStaged(false, b / BITS_PER_BLOCK);
      if staged >= 0 {
        var was := BitCommitted(b);
        return if was < 0 then -1 else if was == 1 then 0 else 1;
      }
      UnstagedBit(b);
      r := 1;
    }

    /** A block whose bitmap block is not staged is used exactly if it is committed. */
    lemma UnstagedBit(b: nat)
      requires Valid() && b < super.totalBlocks && StagedAt(pool, device, false, b / BITS_PER_BLOCK % 256) < 0
      ensures b in Used() <==> b in Committed()
    {
      hide Durable, Good, OnePerKey, SetOf, LaySet, StagedAt, BitAt;
      Shape();
      UnstagedIsBase(Active(), pool, device, false, b / BITS_PER_BLOCK);
    }

    /** The scan of adytumfs_alloc_run: first fit over the data blocks. */
    method FindRun(length: nat) returns (r: int, start: nat)
      requires Valid() && length > 0
      modifies storage
      ensures Valid() && storage.View() == old(storage.View())
      ensures -1 <= r <= 1
      ensures r == 1 ==>
        super.dataStart <= start && start + length <= super.checksumRegion && Fits(Busy(), start, length)
      ensures r == 1 ==> forall s: nat :: super.dataStart <= s < start ==> !Fits(Busy(), s, length)
      ensures r == 0 ==> NoRun(Busy(), super, length)
      ensures storage.faults >= old(storage.faults)
      ensures r < 0 ==> storage.faults > old(storage.faults)
    {
      hide Durable, Good, PoolOk, Busy;
      Shape();
      start := super.dataStart;
      var run := 0;
      var block: nat := super.dataStart;
      while block < super.checksumRegion
        invariant Valid() && storage.View() == old(storage.View()) && storage.faults >= old(storage.faults)
        invariant super.dataStart <= block <= super.checksumRegion && run < length
        invariant run > 0 ==> start + run == block
        invariant super.dataStart <= block - run
        invariant forall b: nat :: block - run <= b < block ==> b !in Busy()
        invariant block - run == super.dataStart || (block - run - 1) in Busy()
        invariant forall s: nat :: super.dataStart <= s && s + length <= block ==> !Fits(Busy(), s, length)
      {
        var free := TestReusable(block);
        if free < 0 {
          return -1, start;
        }
        if free == 0 {
          run := 0;
        } else {
          if run == 0 {
            start := block;
          }
          run := run + 1;
          if run == length {
            forall s: nat | super.dataStart <= s < start
              ensures !Fits(Busy(), s, length)
            {
              assert s + length <= block || s <= start - 1 < s + length;
            }
            return 1, start;
          }
        }
        block := block + 1;
        forall s: nat | super.dataStart <= s && s + length <= block
          ensures !Fits(Busy(), s, length)
        {
          if s + length == block {
            assert s <= block - run - 1 < s + length;
          }
        }
      }
      r := 0;
    }

    /** Sets or clears the bits of a run, one staged edit at a time. */
    method MarkRun(start: nat, length: nat, on: bool) returns (ok: bool, ghost done: nat)
      requires Valid() && start + length <= super.totalBlocks
      modifies this`pool, storage
      ensures Valid() && storage.View() == old(storage.View()) && StagedMore(old(pool), pool, device)
      ensures Window().table == old(Window()).table
      ensures done <= length && (ok <==> done == length)
      ensures Used() == if on then old(Used()) + Run(start, done) else old(Used()) - Run(start, done)
      ensures ok ==> forall b :: start <= b < start + length ==> BitStaged(pool, device, b)
      ensures (forall b :: start <= b < start + length ==> BitStaged(old(pool), device, b)) ==> ok
      ensures PoolFull(old(pool)) ==> PoolFull(pool)
      ensures !ok ==> PoolFull(pool) || storage.faults > old(storage.faults)
      ensures storage.faults >= old(storage.faults)
    {
      hide Durable, Good, PoolOk, UsedIn, SetOf, LaySet, StageOf, PoolFull;
      done := 0;
      var mark := start;
      while mark < start + length
        invariant Valid() && storage.View() == old(storage.View()) && StagedMore(old(pool), pool, device)
        invariant Window().table == old(Window()).table && storage.faults >= old(storage.faults)
        invariant start <= mark <= start + length && done == mark - start
        invariant PoolFull(old(pool)) ==> PoolFull(pool)
        invariant Used() == if on then old(Used()) + Run(start, done) else old(Used()) - Run(start, done)
        invariant forall b :: start <= b < mark ==> BitStaged(pool, device, b)
      {
        ghost var before := pool;
        StagedMoreBits(old(pool), pool, device);
        ok := BitWrite(mark, on);
        StagedMoreBits(before, pool, device);
        if !ok {
          return;
        }
        assert Run(start, done + 1) == Run(start, done) + {mark};
        mark := mark + 1;
        done := done + 1;
      }
      ok := true;
    }

    /**
      adytumfs_alloc_run: a handed-out run is free in the window and in the
      committed generation, lies in the data region, and is the first that fits.
     */
    method AllocRun(length: nat) returns (ok: bool, start: nat)
      requires Valid()
      modifies this`pool, this`super, storage
      ensures Valid() && storage.View() == old(storage.View()) && StagedMore(old(pool), pool, device)
      ensures Window().table == old(Window()).table
      ensures ok ==> length > 0 && super.dataStart <= start && start + length <= super.checksumRegion
      ensures ok ==> Run(start, length) !! old(Used()) && Run(start, length) !! Committed()
      ensures ok ==> Used() == old(Used()) + Run(start, length)
      ensures ok ==> super == old(super).(freeBlocks := SubU64(old(super).freeBlocks, length))
      ensures ok ==> forall s: nat :: super.dataStart <= s < start ==> !Fits(old(Busy()), s, length)
      ensures ok ==> forall b :: start <= b < start + length ==> BitStaged(pool, device, b)
      ensures !ok ==> super == old(super)
      ensures !ok ==> Used() == old(Used()) || (length > 1 && (PoolFull(pool) || storage.faults > old(storage.faults)))
      ensures ok ==> !NoRun(old(Busy()), super, length)
      ensures !ok && length > 0 ==>
        NoRun(old(Busy()), super, length) || PoolFull(pool) || storage.faults > old(storage.faults)
      ensures storage.faults >= old(storage.faults)
    {
      hide Durable, Good, PoolOk, UsedIn, SetOf, LaySet, StageOf;
      start := 0;
      ok := false;
      if length == 0 {
        return;
      }
      Shape();
      var r;
      r, start := FindRun(length);
      assert Busy() == old(Busy());
      if r != 1 {
        return;
      }
      FitsRun(Used(), Committed(), start, length);
      ghost var done;
      ok, done := MarkRun(start, length, true);
      if ok {
        super := super.(freeBlocks := SubU64(super.freeBlocks, length));
      }
    }

    /** adytumfs_free_run: only whole runs of data blocks are released. */
    method FreeRun(start: nat, length: nat) returns (ok: bool)
      requires Valid()
      modifies this`pool, this`super, storage
      ensures Valid() && storage.View() == old(storage.View()) && StagedMore(old(pool), pool, device)
      ensures Window().table == old(Window()).table
      ensures ok ==> length > 0 && super.dataStart <= start && start + length <= super.checksumRegion
      ensures ok ==> Used() == old(Used()) - Run(start, length)
      ensures ok ==> super == old(super).(freeBlocks := AddU64(old(super).freeBlocks, length))
      ensures (&& length > 0 && super.dataStart <= start && start + length <= super.checksumRegion
               && forall b :: start <= b < start + length ==> BitStaged(old(pool), device, b)) ==> ok
      ensures !ok ==> super == old(super) && (length <= 1 ==> Used() == old(Used()))
      ensures PoolFull(old(pool)) ==> PoolFull(pool)
      ensures !ok && length > 0 && super.dataStart <= start && start + length <= super.checksumRegion ==>
        PoolFull(pool) || storage.faults > old(storage.faults)
      ensures storage.faults >= old(storage.faults)
    {
      hide Durable, Good, PoolOk, UsedIn, SetOf, LaySet, StageOf;
      Shape();
      if length == 0 || start < super.dataStart || start >= super.checksumRegion ||
         length > super.checksumRegion - start {
        return false;
      }
      ghost var done;
      ok, done := MarkRun(start, length, false);
      if ok {
        super := super.(freeBlocks := AddU64(super.freeBlocks, length));
      }
    }

    // ---- checksummed data -------------------------------------------------

    ghost function Data(b: nat): Image
      reads storage
    {
      BlockOf(storage.View(), device, b)
    }

    /** The stored checksum bytes of a data block. */
    ghost function Seal(b: nat): seq<u8>
      requires csuper.dataStart <= b
      reads storage, `csuper
    {
      SealOf(storage.View(), device, csuper, b)
    }

    /** adytumfs_data_check: succeeds only when the region entry vouches for the bytes. */
    method DataCheck(b: nat, img: Image) returns (ok: bool)
      requires Valid()
      modifies storage
      ensures Valid() && storage.View() == old(storage.View())
      ensures ok ==> IsData(csuper, b) && FromLe(Seal(b)) == Crc32c(img)
      ensures !ok && IsData(csuper, b) && storage.faults == old(storage.faults) ==> FromLe(Seal(b)) != Crc32c(img)
      ensures storage.faults >= old(storage.faults)
    {
      hide Durable, Good, PoolOk, FromLe, Crc32c, BlockOf, SealOf, RegionBlock, RegionOffset, SuperValid, IsRegion;
      Shape();
      if b < super.dataStart || b >= super.checksumRegion {
        return false;
      }
      SameRegion(super, csuper, b);
      var region := RegionBlock(super, b);
      RegionInside(csuper, b);
      Reach(storage.View(), storage.disk, storage.history, windowStart, committed, device, csuper, region);
      SealBytes(storage.View(), device, csuper, b);
      var read, entry := BlockRead(region);
      if !read {
        return false;
      }
      var o := RegionOffset(super, b);
      ok := FromLe(entry[o..o + 4]) == Crc32c(img);
    }

    /** adytumfs_data_seal: rewrites one checksum entry, leaving every other byte of the region alone. */
    method DataSeal(b: nat, img: Image) returns (ok: bool)
      requires Valid() && (IsData(csuper, b) ==> b !in Committed())
      modifies storage
      ensures Valid() && DataOnly(old(storage.View()), storage.View(), device, csuper, {b})
      ensures ok ==> IsData(csuper, b) && Seal(b) == Le(Crc32c(img), 4)
      ensures IsData(csuper, b) ==> Data(b) == old(Data(b))
      ensures !ok && IsData(csuper, b) ==> storage.faults > old(storage.faults)
      ensures storage.faults >= old(storage.faults)
    {
      hide Durable, Good, PoolOk, Le, Crc32c, BlockOf, SealOf, DataOnly, MayWrite, Overlay, CommittedUsed, RegionBlock,
           RegionOffset, SuperValid, SlotKept, Patch;
      Shape();
      DataOnlyRefl(storage.View(), device, csuper, {b});
      if b < super.dataStart || b >= super.checksumRegion {
        return false;
      }
      SameRegion(super, csuper, b);
      var region := RegionBlock(super, b);
      RegionInside(csuper, b);
      var entry;
      ok, entry := BlockRead(region);
      if !ok {
        return;
      }
      var o := RegionOffset(super, b);
      var next := Patch(entry, o, Le(Crc32c(img), 4));
      SealWrite(storage.View(), storage.disk, storage.history, windowStart, committed, device, csuper, b,
        Le(Crc32c(img), 4));
      ok := BlockWrite(region, next);
    }

    /** adytumfs_data_read: hands back only bytes the region vouches for. */
    method DataRead(b: nat) returns (ok: bool, img: Image)
      requires Valid() && b < super.totalBlocks
      modifies storage
      ensures Valid() && storage.View() == old(storage.View())
      ensures ok ==> IsData(csuper, b) && img == Data(b) && FromLe(Seal(b)) == Crc32c(img)
      ensures (!ok && IsData(csuper, b) && storage.faults == old(storage.faults)) ==> FromLe(Seal(b)) != Crc32c(Data(b))
      ensures storage.faults >= old(storage.faults)
    {
      hide Durable, Good, PoolOk, FromLe, Crc32c, BlockOf, SealOf;
      ok, img := BlockRead(b);
      if ok {
        ok := DataCheck(b, img);
      }
    }

    /** adytumfs_data_write: new bytes and their checksum, in a block the committed generation does not hold. */
    method DataWrite(b: nat, img: Image) returns (ok: bool)
      requires Valid() && IsData(csuper, b) && b !in Committed()
      modifies storage
      ensures Valid() && DataOnly(old(storage.View()), storage.View(), device, csuper, {b})
      ensures ok ==> Data(b) == img && Seal(b) == Le(Crc32c(img), 4)
      ensures !ok ==> storage.faults > old(storage.faults)
      ensures storage.faults >= old(storage.faults)
    {
      hide Durable, Good, PoolOk, Le, Crc32c, BlockOf, SealOf, DataOnly, MayWrite, Overlay, CommittedUsed;
      Shape();
      DataOnlyRefl(storage.View(), device, csuper, {b});
      DataBlockWrite(storage.View(), storage.disk, storage.history, windowStart, committed, device, csuper, b, img);
      ok := BlockWrite(b, img);
      if !ok {
        return;
      }
      ghost var between := storage.View();
      ok := DataSeal(b, img);
      DataOnlyTrans(old(storage.View()), between, storage.View(), device, csuper, {b}, {b});
      assert {b} + {b} == {b};
    }

    /** Drops the cached page of an uncommitted data block before it is written directly. */
    method ForgetBlock(b: nat)
      requires Valid() && IsData(csuper, b) && b !in Committed()
      modifies storage
      ensures Valid() && DataOnly(old(storage.View()), storage.View(), device, csuper, {b})
      ensures Find(storage.entries, device, SECTORS_PER_BLOCK * b) < 0
      ensures storage.faults == old(storage.faults)
    {
      hide Durable, Good, PoolOk, DataOnly, CommittedUsed;
      Shape();
      RegionsApart(csuper, b);
      Reach(storage.View(), storage.disk, storage.history, windowStart, committed, device, csuper, b);
      var lba := SECTORS_PER_BLOCK * b;
      assert Page(lba) == lba && Page(lba + SECTORS_PER_BLOCK - 1) == lba;
      storage.Invalidate(device, lba, SECTORS_PER_BLOCK);
      ForgetAgrees(old(storage.View()), storage.View(), storage.disk, device, csuper, b);
      DurableAgree(old(storage.Now()), storage.Now(), windowStart, committed, device, csuper, b);
    }

    /** One zero sector, straight to the device. */
    method ZeroSector(b: nat, k: nat) returns (ok: bool)
      requires Valid() && IsData(csuper, b) && b !in Committed() && k < SECTORS_PER_BLOCK
      requires Find(storage.entries, device, SECTORS_PER_BLOCK * b) < 0
      modifies storage
      ensures Valid() && DataOnly(old(storage.View()), storage.View(), device, csuper, {b})
      ensures Find(storage.entries, device, SECTORS_PER_BLOCK * b) < 0
      ensures ok ==>
        Sec(device, b, k) in old(storage.View())
        && storage.View() == old(storage.View())[Sec(device, b, k) := Zeros(SECTOR_SIZE)]
      ensures storage.faults >= old(storage.faults) && (!ok ==> storage.faults > old(storage.faults))
    {
      hide Durable, Good, PoolOk, DataOnly, CommittedUsed;
      Shape();
      RegionsApart(csuper, b);
      Reach(storage.View(), storage.disk, storage.history, windowStart, committed, device, csuper, b);
      SecPage(device, b, k);
      DataOnlyRefl(storage.View(), device, csuper, {b});
      ok := storage.WriteDirect(Sec(device, b, k), Zeros(SECTOR_SIZE));
      if ok {
        SectorAgrees(old(storage.View()), device, csuper, b, k, Zeros(SECTOR_SIZE));
        SectorAgrees(old(storage.disk), device, csuper, b, k, Zeros(SECTOR_SIZE));
        DurableAgree(old(storage.Now()), storage.Now(), windowStart, committed, device, csuper, b);
      }
    }

    /** adytumfs_block_zero: direct zeroes below the cache, then a matching checksum entry. */
    method BlockZero(b: nat) returns (ok: bool)
      requires Valid() && IsData(csuper, b) && b !in Committed()
      modifies storage
      ensures Valid() && DataOnly(old(storage.View()), storage.View(), device, csuper, {b})
      ensures ok ==> Data(b) == Zeros(BLOCK_SIZE) && Seal(b) == Le(Crc32c(Zeros(BLOCK_SIZE)), 4)
      ensures !ok ==> storage.faults > old(storage.faults)
      ensures storage.faults >= old(storage.faults)
    {
      hide Durable, Good, PoolOk, DataOnly, CommittedUsed, Le, Crc32c, BlockOf;
      Shape();
      RegionsApart(csuper, b);
      ForgetBlock(b);
      var sector := 0;
      while sector < SECTORS_PER_BLOCK
        invariant Valid() && 0 <= sector <= SECTORS_PER_BLOCK
        invariant DataOnly(old(storage.View()), storage.View(), device, csuper, {b})
        invariant Find(storage.entries, device, SECTORS_PER_BLOCK * b) < 0
        invariant storage.faults >= old(storage.faults)
        invariant forall k :: 0 <= k < sector ==>
          Sec(device, b, k) in storage.View() && storage.View()[Sec(device, b, k)] == Zeros(SECTOR_SIZE)
      {
        ghost var before := storage.View();
        ok := ZeroSector(b, sector);
        DataOnlyTrans(old(storage.View()), before, storage.View(), device, csuper, {b}, {b});
        assert {b} + {b} == {b};
        if !ok {
          return;
        }
        sector := sector + 1;
      }
      ghost var zeroed := storage.View();
      ZeroBlock(zeroed, device, b);
      ok := DataSeal(b, Zeros(BLOCK_SIZE));
      DataOnlyTrans(old(storage.View()), zeroed, storage.View(), device, csuper, {b}, {b});
      assert {b} + {b} == {b};
    }

    // ---- the commit -------------------------------------------------------

    /** The metadata set the next commit will name. */
    ghost function Inactive(): MetaSet
      reads storage, `csuper
    {
      SetOf(storage.View(), device, csuper, Other(csuper.activeSlot))
    }

    /** Writes one staged image to the inactive set. */
    method LandOne(isTable: bool, index: nat, image: Image) returns (ok: bool)
      requires Valid() && index < if isTable then super.tableBlocks else super.bitmapBlocks
      modifies storage
      ensures Valid() && MetaOnly(old(storage.View()), storage.View(), device, csuper)
      ensures Inactive() == if ok then SetImage(old(Inactive()), isTable, index, image) else old(Inactive())
      ensures storage.faults >= old(storage.faults) && (!ok ==> storage.faults > old(storage.faults))
      ensures SlotKept(old(storage.history), storage.history, old(storage.View()), device, csuper)
    {
      hide Durable, Good, MayWrite, MetaOnly, SetOf, Overlay, OnePerKey, SuperValid, SetImage, Geometry, BlockOf,
           SlotKept;
      Shape();
      var b := InactiveBlock(isTable, index);
      LandWrite(storage.View(), storage.disk, storage.history, windowStart, committed, device, csuper, isTable, index,
        image);
      MetaOnlyRefl(storage.View(), device, csuper);
      ok := BlockWrite(b, image);
    }

    /** The device block of one metadata block of the inactive set. */
    function InactiveBlock(isTable: bool, index: nat): (b: nat)
      requires SuperValid(super, super.totalBlocks)
      requires index < if isTable then super.tableBlocks else super.bitmapBlocks
      reads this
      ensures InSet(super, Other(super.activeSlot), b) && b < super.totalBlocks
    {
      (if isTable then TableBase(super, Other(super.activeSlot)) else BitmapBase(super, Other(super.activeSlot)))
        + index
    }

    /** The first half of the commit: every staged image lands in the inactive set. */
    method LandStage() returns (ok: bool)
      requires Valid()
      modifies storage
      ensures Valid() && MetaOnly(old(storage.View()), storage.View(), device, csuper)
      ensures ok ==> Inactive() == LaySet(old(Inactive()), StageOf(pool, device))
      ensures Target() == old(Target())
      ensures storage.faults >= old(storage.faults) && (!ok ==> storage.faults > old(storage.faults))
      ensures SlotKept(old(storage.history), storage.history, old(storage.View()), device, csuper)
    {
      hide Durable, Good, MetaOnly, SetOf, LaySet, StageOf, OnePerKey, SlotKept, Geometry;
      Shape();
      MetaOnlyRefl(storage.View(), device, csuper);
      SlotKeptRefl(storage.history, storage.View(), device, csuper);
      NoStage(old(Inactive()), device);
      var entry := 0;
      while entry < POOL
        invariant Valid() && 0 <= entry <= POOL && storage.faults >= old(storage.faults)
        invariant SlotKept(old(storage.history), storage.history, old(storage.View()), device, csuper)
        invariant MetaOnly(old(storage.View()), storage.View(), device, csuper)
        invariant Inactive() == LaySet(old(Inactive()), StageOf(pool[..entry], device)) && Target() == old(Target())
      {
        PrefixStage(old(Inactive()), pool, entry, device);
        if pool[entry].Staged? && pool[entry].device == device {
          ghost var before, was := storage.View(), storage.history;
          SameSlot(old(storage.View()), before, committed, device, csuper);
          LayOver(Inactive(), pool, entry, device);
          ok := LandOne(pool[entry].isTable, pool[entry].index, pool[entry].image);
          MetaOnlyTrans(old(storage.View()), before, storage.View(), device, csuper);
          SlotKeptTrans(old(storage.history), was, storage.history, old(storage.View()), before, device, csuper);
          if !ok {
            return;
          }
        }
        entry := entry + 1;
      }
      assert pool[..POOL] == pool;
      ok := true;
    }

    /** adytumfs_window_discard. */
    method Discard()
      requires |pool| == POOL && OnePerKey(pool)
      modifies this`pool
      ensures |pool| == POOL && OnePerKey(pool)
      ensures forall k :: 0 <= k < POOL ==>
        pool[k] == if old(pool)[k].Staged? && old(pool)[k].device == device then Free else old(pool)[k]
      ensures StageOf(pool, device) == Stage(map[], map[])
    {
      var entry := 0;
      while entry < POOL
        invariant 0 <= entry <= POOL && |pool| == POOL
        invariant forall k :: 0 <= k < POOL ==>
          pool[k] == if k < entry && old(pool)[k].Staged? && old(pool)[k].device == device then Free else old(pool)[k]
      {
        if pool[entry].Staged? && pool[entry].device == device {
          pool := pool[entry := Free];
        }
        entry := entry + 1;
      }
      NothingStaged(pool, device);
    }

    /**
      The flip slot already stores the checksum of the superblock the commit is
      about to write, so the write would be complete after its first sector.
     */
    ghost predicate Aliased()
      reads this, storage
    {
      StoresCrc(storage.View(), device, csuper, Next(super))
    }

    /** Puts the new superblock into the cache; on success only it is dirty on this device. */
    method StageFlip(ghost view: Disk) returns (ok: bool)
      requires Valid() && super.generation + 1 < U64_LIMIT
      requires MetaOnly(view, storage.View(), device, csuper)
      requires Flushed(storage.View(), storage.disk, device)
      requires forall loc :: loc in storage.disk && loc.dev == device ==> !DirtyAt(storage.entries, loc)
      modifies storage
      ensures storage.Valid() && SlotKept(old(storage.history), storage.history, old(storage.View()), device, csuper)
      ensures forall k :: |old(storage.history)| <= k < |storage.history| ==>
        Safe(storage.history[k], committed, device, csuper)
      ensures !ok ==> Valid() && storage.View() == old(storage.View())
      ensures ok ==> Flipping(storage.disk, storage.View(), old(storage.View()), device, csuper, super)
      ensures ok ==> forall loc :: loc in storage.disk && loc.dev == device && DirtyAt(storage.entries, loc) ==>
        Page(loc.lba) == SECTORS_PER_BLOCK * OtherSlot(csuper)
      ensures storage.faults >= old(storage.faults) && (!ok ==> storage.faults > old(storage.faults))
    {
      hide Durable, Good, MetaOnly, Flipping, Flushed, Safe, Pack, Overlay, DirtyAt, SuperValid, LandsOutside, PoolOk,
           SlotStill;
      Shape();
      SlotInRange(csuper, committed, device);
      var flip := SuperSlot(super, Other(super.activeSlot));
      assert flip == OtherSlot(csuper);
      Reach(storage.View(), storage.disk, storage.history, windowStart, committed, device, csuper, flip);
      DurableParts(storage.View(), storage.disk, storage.history, windowStart, committed, device, csuper);
      var img := Pack(Next(super));
      assert SECTORS_PER_BLOCK * flip % CACHE_SECTORS == 0
             && Page(SECTORS_PER_BLOCK * flip) == SECTORS_PER_BLOCK * flip;
      ghost var done;
      ok, done := storage.Write(device, SECTORS_PER_BLOCK * flip, Split(img));
      assert Split(img)[..SECTORS_PER_BLOCK] == Split(img) && Split(img)[..0] == [];
      OverlayNothing(old(storage.View()), device, SECTORS_PER_BLOCK * flip);
      LandsSafe(old(storage.Now()), storage.Now(), windowStart, committed, device, csuper);
      LandsStill(old(storage.Now()), storage.Now(), windowStart, committed, device, csuper);
      if ok {
        FlipStart(old(storage.Now()), storage.Now(), committed, device, csuper, super);
      } else {
        DurableStill(old(storage.Now()), storage.Now(), windowStart, committed, device, csuper);
      }
    }

    /** Flushes the cached superblock; a failed flip drops the half-written copy again. */
    method FlushFlip(ghost f: Disk, ghost view: Disk) returns (ok: bool)
      requires storage.Valid() && device in storage.sizes
               && storage.sizes[device] / SECTORS_PER_BLOCK == super.totalBlocks
      requires SameGeneration(csuper, super) && Ready(f, view, committed, device, csuper, super)
      requires Flipping(storage.disk, storage.View(), f, device, csuper, super)
      requires forall loc :: loc in storage.disk && loc.dev == device && DirtyAt(storage.entries, loc) ==>
        Page(loc.lba) == SECTORS_PER_BLOCK * OtherSlot(csuper)
      modifies storage
      ensures storage.Valid() && |old(storage.history)| <= |storage.history|
      ensures storage.history[..|old(storage.history)|] == old(storage.history)
      ensures CrashPoints(|old(storage.history)|, storage.history, view, committed, device, csuper, Next(super),
                          SetOf(f, device, csuper, Other(csuper.activeSlot)))
      ensures OnlyFlip(storage.disk, f, device, csuper)
      ensures ok ==> Flushed(storage.View(), storage.disk, device)
      ensures ok ==> Raw(storage.disk, device, OtherSlot(csuper)) == Split(Pack(Next(super)))
      ensures !ok ==> OnlyFlip(storage.View(), f, device, csuper)
      ensures !ok ==> Raw(storage.View(), device, OtherSlot(csuper)) == Raw(storage.disk, device, OtherSlot(csuper))
      ensures !ok ==> FlipStates(|old(storage.history)|, storage.history, f, committed, device, csuper, Next(super))
      ensures storage.faults >= old(storage.faults) && (!ok ==> storage.faults > old(storage.faults))
    {
      hide Good, Ready, CrashPoints, OnlyFlip, Safe, Pack, SuperBody, Crc32c, Settles, DirtyAt, SetOf, Unmoved,
           FlipStates, StoresCrc, Begun;
      ghost var stuck;
      ok, stuck := storage.Flush(device);
      SettlesView(old(storage.Now()), storage.Now());
      FlushCrash(old(storage.Now()), storage.Now(), f, view, committed, device, csuper, super);
      if ok {
        FlushedRaw(storage.View(), storage.disk, device);
      } else {
        FlipPage(f, view, committed, device, csuper, super, storage.sizes[device], stuck);
        FlipStuck(old(storage.Now()), storage.Now(), f, view, committed, device, csuper, super);
        DropFlip(f, view);
      }
    }

    /** The cached copy of a failed flip is dropped, so a retry rebuilds it from the staging. */
    method DropFlip(ghost f: Disk, ghost view: Disk)
      requires storage.Valid() && device in storage.sizes
               && storage.sizes[device] / SECTORS_PER_BLOCK == super.totalBlocks
      requires SameGeneration(csuper, super) && Ready(f, view, committed, device, csuper, super)
      requires storage.View().Keys == f.Keys
      requires forall e: nat :: e < csuper.totalBlocks && e != OtherSlot(csuper) ==>
        Raw(storage.View(), device, e) == Raw(f, device, e)
      modifies storage`entries
      ensures storage.Valid()
      ensures OnlyFlip(storage.View(), f, device, csuper)
      ensures Raw(storage.View(), device, OtherSlot(csuper)) == Raw(storage.disk, device, OtherSlot(csuper))
    {
      hide Good, Ready, OnlyFlip, Raw, Peek;
      FlipRange(f, view, committed, device, csuper, super, storage.sizes[device]);
      var lba := SECTORS_PER_BLOCK * SuperSlot(super, Other(super.activeSlot));
      assert Page(lba) == lba;
      storage.Invalidate(device, lba, SECTORS_PER_BLOCK);
      FlipForgotten(old(storage.View()), storage.View(), storage.disk, f, view, committed, device, csuper, super, lba);
    }

    method HasStaged() returns (staged: bool)
      requires Valid()
      ensures staged <==> exists k :: 0 <= k < POOL && pool[k].Staged? && pool[k].device == device
    {
      hide Durable, Good, OnePerKey;
      staged := false;
      var entry := 0;
      while entry < POOL
        invariant 0 <= entry <= POOL
        invariant staged <==> exists k :: 0 <= k < entry && pool[k].Staged? && pool[k].device == device
      {
        if pool[entry].Staged? && pool[entry].device == device {
          staged := true;
        }
        entry := entry + 1;
      }
    }

    /** The metadata set a commit of the open window publishes. */
    ghost function Target(): MetaSet
      reads storage, `csuper, `pool
    {
      LaySet(Inactive(), StageOf(pool, device))
    }

    /** A commit publishes the window's own view exactly when the stage covers every block where the sets differ. */
    lemma ExactPublication()
      requires Valid()
      ensures Target() == Window() <==> Covers(Pair(Active(), Inactive()), StageOf(pool, device))
    {
      hide Durable, Good, LaySet, StageOf, Covers, PoolOk;
      Shape();
      TwoSets(storage.View(), committed, device, csuper);
      PublishedExactly(Pair(Active(), Inactive()), StageOf(pool, device));
    }

    /** A block that is not staged: the window shows the active copy, the commit publishes the other one. */
    lemma Unstaged(isTable: bool, i: nat)
      requires Valid() && i < if isTable then csuper.tableBlocks else csuper.bitmapBlocks
      requires i !in if isTable then StageOf(pool, device).table else StageOf(pool, device).bitmap
      ensures i < |Kind(Window(), isTable)| == |Kind(Target(), isTable)| == |Kind(Active(), isTable)|
        == |Kind(Inactive(), isTable)|
      ensures Kind(Window(), isTable)[i] == Kind(Active(), isTable)[i]
      ensures Kind(Target(), isTable)[i] == Kind(Inactive(), isTable)[i]
    {
      hide Durable, Good, StageOf, PoolOk;
      Shape();
      TwoSets(storage.View(), committed, device, csuper);
    }

    /** Landing the stage and flushing: everything but the flip, with the old generation mountable throughout. */
    method LandAndFlush() returns (ok: bool)
      requires Valid()
      modifies storage
      ensures Valid() && MetaOnly(old(storage.View()), storage.View(), device, csuper)
      ensures Target() == old(Target()) && (ok ==> Inactive() == old(Target()))
      ensures ok ==> Flushed(storage.View(), storage.disk, device)
      ensures ok ==> forall loc :: loc in storage.disk && loc.dev == device ==> !DirtyAt(storage.entries, loc)
      ensures storage.faults >= old(storage.faults) && (!ok ==> storage.faults > old(storage.faults))
      ensures SlotKept(old(storage.history), storage.history, old(storage.View()), device, csuper)
    {
      hide Durable, Good, MetaOnly, SetOf, LaySet, StageOf, PoolOk, Settles, DirtyAt, SlotStill, Geometry;
      ok := LandStage();
      if !ok {
        return;
      }
      ghost var landed := storage.Now();
      ghost var stuck;
      ok, stuck := storage.Flush(device);
      SettlesView(landed, storage.Now());
      DurableStill(landed, storage.Now(), windowStart, committed, device, csuper);
      LandsStill(landed, storage.Now(), windowStart, committed, device, csuper);
      Shape();
      SameSlot(old(storage.View()), storage.View(), committed, device, csuper);
      SlotKeptTrans(old(storage.history), landed.history, storage.history, old(storage.View()), storage.View(), device,
        csuper);
    }

    /**
      adytumfs_commit.  Whatever prefix of the device writes has happened, the
      device mounts as the old generation whole or as the new one whole.  On
      success the published set is the staged images over the set that was
      inactive, and the two sets have traded places.
     */
    method Commit() returns (ok: bool)
      requires Valid() && super.generation + 1 < U64_LIMIT
      modifies this`super, this`pool, this`csuper, this`committed, this`windowStart, storage
      ensures storage.Valid() && |old(storage.history)| <= |storage.history|
      ensures CrashPoints(|old(storage.history)|, storage.history, old(storage.View()), old(committed), device,
                          old(csuper), Next(old(super)), old(Target()))
      ensures ok ==> Valid()
      ensures !ok ==>
        (Valid() <==> !(old(Aliased())
                        && FlipBegun(|old(storage.history)|, storage.history, device, csuper, Next(super))))
      ensures !ok ==> super == old(super) && pool == old(pool) && csuper == old(csuper) && committed == old(committed)
      ensures !ok ==> Target() == old(Target())
      ensures ok && StageOf(old(pool), device) != Stage(map[], map[]) ==>
        && super == csuper == Next(old(super)) && committed == storage.disk
        && Active() == old(Target()) && Inactive() == old(Active()) && StageOf(pool, device) == Stage(map[], map[])
      ensures ok && StageOf(old(pool), device) == Stage(map[], map[]) ==>
        super == old(super) && pool == old(pool) && csuper == old(csuper) && committed == old(committed)
      ensures forall x: nat :: IsData(csuper, x) ==> Data(x) == old(Data(x)) && Seal(x) == old(Seal(x))
      ensures !ok ==> storage.faults > old(storage.faults)
    {
      hide Durable, Good, SetOf, LaySet, StageOf, OnePerKey, CrashPoints, FlipBegun, BlockOf, SealOf;
      CrashNone(|storage.history|, storage.history, storage.View(), committed, device, csuper, Next(super), Target());
      var staged := HasStaged();
      StagedMeans(pool, device);
      if !staged {
        return true;
      }
      ok := CommitStaged();
    }

    /** A commit with something staged: land the stage, flush, flip. */
    method CommitStaged() returns (ok: bool)
      requires Valid() && super.generation + 1 < U64_LIMIT
      modifies this`super, this`pool, this`csuper, this`committed, this`windowStart, storage
      ensures storage.Valid() && |old(storage.history)| <= |storage.history|
      ensures CrashPoints(|old(storage.history)|, storage.history, old(storage.View()), old(committed), device,
                          old(csuper), Next(old(super)), old(Target()))
      ensures ok ==> Valid()
      ensures !ok ==>
        (Valid() <==> !(old(Aliased())
                        && FlipBegun(|old(storage.history)|, storage.history, device, csuper, Next(super))))
      ensures !ok ==> super == old(super) && pool == old(pool) && csuper == old(csuper) && committed == old(committed)
      ensures !ok ==> Target() == old(Target())
      ensures ok ==> super == csuper == Next(old(super)) && committed == storage.disk
      ensures ok ==>
        Active() == old(Target()) && Inactive() == old(Active()) && StageOf(pool, device) == Stage(map[], map[])
      ensures forall x: nat :: IsData(csuper, x) ==> Data(x) == old(Data(x)) && Seal(x) == old(Seal(x))
      ensures !ok ==> storage.faults > old(storage.faults)
    {
      hide Durable, Good, MetaOnly, SetOf, LaySet, StageOf, OnePerKey, DirtyAt, CrashPoints, Flushed, SlotStill,
           FlipBegun, Raw, BlockOf, SealOf, SuperValid, Geometry, PoolOk, Safe;
      Shape();
      DurableParts(storage.View(), storage.disk, storage.history, windowStart, committed, device, csuper);
      ghost var view, want, from := storage.View(), Target(), storage.history;
      ok := LandAndFlush();
      DurableCrash(view, storage.View(), storage.disk, storage.history, windowStart, |from|, committed, device, csuper,
        Next(super), want);
      SameSlot(view, storage.View(), committed, device, csuper);
      SafeStates(storage.View(), storage.disk, storage.history, windowStart, committed, device, csuper);
      NotBegun(|from|, storage.history, view, committed, device, csuper, super);
      MetaKeeps(view, storage.View(), storage.disk, storage.history, windowStart, committed, device, csuper);
      if !ok {
        return;
      }
      ghost var flushed, f := storage.history, storage.View();
      GetReady(f, storage.disk, storage.history, windowStart, view, committed, device, csuper, super);
      ok := FlipAll(view);
      if !ok {
        FlipKeeps(storage.View(), f, view, committed, device, csuper, super);
      }
      BegunAppend(|from|, flushed, storage.history, device, old(csuper), Next(old(super)));
      CrashAppend(|from|, flushed, storage.history, view, old(committed), device, old(csuper), Next(old(super)), want);
    }

    /** The second half of the commit, from a flushed device: write and flush the superblock alone. */
    method FlipAll(ghost view: Disk) returns (ok: bool)
      requires Valid() && super.generation + 1 < U64_LIMIT
      requires MetaOnly(view, storage.View(), device, csuper)
      requires Flushed(storage.View(), storage.disk, device)
      requires forall loc :: loc in storage.disk && loc.dev == device ==> !DirtyAt(storage.entries, loc)
      modifies this`super, this`pool, this`csuper, this`committed, this`windowStart, storage
      ensures storage.Valid() && |old(storage.history)| <= |storage.history|
      ensures storage.history[..|old(storage.history)|] == old(storage.history)
      ensures CrashPoints(|old(storage.history)|, storage.history, view, old(committed), device, old(csuper),
                          Next(old(super)), old(Inactive()))
      ensures ok ==> Valid()
      ensures !ok ==>
        (Valid() <==> !(old(Aliased())
                        && FlipBegun(|old(storage.history)|, storage.history, device, csuper, Next(super))))
      ensures !ok ==> super == old(super) && pool == old(pool) && csuper == old(csuper) && committed == old(committed)
      ensures !ok ==> OnlyFlip(storage.View(), old(storage.View()), device, csuper)
      ensures ok ==> super == csuper == Next(old(super)) && committed == storage.disk
      ensures ok ==>
        Active() == old(Inactive()) && Inactive() == old(Active()) && StageOf(pool, device) == Stage(map[], map[])
      ensures ok ==> forall x: nat :: IsData(csuper, x) ==>
        Data(x) == BlockOf(view, device, x) && x >= old(csuper).dataStart
        && Seal(x) == SealOf(view, device, old(csuper), x)
      ensures !ok ==> storage.faults > old(storage.faults)
    {
      hide Durable, Good, MetaOnly, SetOf, StageOf, OnePerKey, DirtyAt, CrashPoints, Flushed, Safe, StoresCrc,
           SlotStill, FlipStates, FlipBegun, Raw, BlockOf, SealOf, Ready, Flipping, OnlyFlip, Pack, SuperValid, Unpack,
           LaySet, Geometry, PoolOk;
      Shape();
      ghost var f, from := storage.View(), storage.Now();
      GetReady(f, storage.disk, storage.history, windowStart, view, committed, device, csuper, super);
      ok := StageFlip(view);
      SafeCrash(|from.history|, storage.history, view, committed, device, csuper, Next(super), Inactive());
      if !ok {
        NotBegun(|from.history|, storage.history, f, committed, device, csuper, super);
        NoFlip(f, device, csuper);
        return;
      }
      ghost var staged := storage.history;
      SafeCrash(|from.history|, staged, view, committed, device, csuper, Next(super),
        SetOf(f, device, csuper, Other(csuper.activeSlot)));
      ok := FlushFlip(f, view);
      CrashAppend(|from.history|, staged, storage.history, view, committed, device, csuper, Next(super),
                  SetOf(f, device, csuper, Other(csuper.activeSlot)));
      if !ok {
        FlipVerdict(from, storage.Now(), staged, windowStart, f, view, committed, device, csuper, super);
        return;
      }
      Publish(f, view);
    }

    /** The in-memory half of a landed flip: adopt the new superblock, drop the window. */
    method Publish(ghost f: Disk, ghost view: Disk)
      requires storage.Valid() && device in storage.sizes
               && storage.sizes[device] / SECTORS_PER_BLOCK == super.totalBlocks
      requires Ready(f, view, committed, device, csuper, super) && PoolOk(pool, device, csuper)
      requires Flushed(storage.View(), storage.disk, device) && OnlyFlip(storage.disk, f, device, csuper)
      requires Raw(storage.disk, device, OtherSlot(csuper)) == Split(Pack(Next(super)))
      modifies this`super, this`pool, this`csuper, this`committed, this`windowStart
      ensures Valid() && super == csuper == Next(old(super)) && committed == storage.disk
      ensures Active() == SetOf(f, device, old(csuper), Other(old(csuper).activeSlot)) && Inactive() == old(Active())
      ensures StageOf(pool, device) == Stage(map[], map[])
      ensures forall x: nat :: IsData(csuper, x) ==>
        Data(x) == BlockOf(view, device, x) && x >= old(csuper).dataStart
        && Seal(x) == SealOf(view, device, old(csuper), x)
    {
      hide Durable, Good, SetOf, StageOf, OnePerKey, Flushed, Raw, BlockOf, SealOf, OnlyFlip, Pack, Ready, SuperValid;
      NewGeneration(storage.View(), storage.disk, storage.history, f, view, committed, device, csuper, super);
      super := Next(super);
      csuper := super;
      committed := storage.disk;
      windowStart := |storage.history| - 1;
      Discard();
    }

    /** The device block of one metadata block of the active set. */
    function ActiveBlock(isTable: bool, index: nat): (b: nat)
      requires SuperValid(super, super.totalBlocks)
      requires index < if isTable then super.tableBlocks else super.bitmapBlocks
      reads this
      ensures InSet(super, super.activeSlot, b) && b < super.totalBlocks
    {
      (if isTable then TableBase(super, super.activeSlot) else BitmapBase(super, super.activeSlot)) + index
    }
  }

  predicate Within(b: nat, start: nat, length: nat)
  {
    start <= b < start + length
  }

  function Run(start: nat, length: nat): set<nat>
  {
    set b | 0 <= b < start + length && Within(b, start, length)
  }

  /** No block of the run is busy. */
  ghost predicate Fits(busy: set<nat>, start: nat, length: nat)
  {
    forall b :: start <= b < start + length ==> b !in busy
  }

  /** No stretch of `length` free data blocks is left. */
  ghost predicate NoRun(busy: set<nat>, s: Superblock, length: nat)
  {
    forall b: nat :: s.dataStart <= b && b + length <= s.checksumRegion ==> !Fits(busy, b, length)
  }

  lemma NoRunFrame(busy: set<nat>, s: Superblock, s': Superblock, length: nat)
    requires s'.dataStart == s.dataStart && s'.checksumRegion == s.checksumRegion
    ensures NoRun(busy, s, length) <==> NoRun(busy, s', length)
  {
    hide Fits;
  }

  lemma FitsRun(used: set<nat>, committed: set<nat>, start: nat, length: nat)
    requires Fits(used + committed, start, length)
    ensures Run(start, length) !! used && Run(start, length) !! committed
  {
  }

  /** u64 arithmetic wraps. */
  function SubU64(a: u64, b: nat): u64
  {
    (a - b) % U64_LIMIT
  }

  function AddU64(a: u64, b: nat): u64
  {
    (a + b) % U64_LIMIT
  }

  function Kind(m: MetaSet, isTable: bool): seq<Image>
  {
    if isTable then m.table else m.bitmap
  }

  function SetImage(m: MetaSet, isTable: bool, index: nat, img: Image): MetaSet
  {
    if isTable then (if index < |m.table| then m.(table := m.table[index := img]) else m)
    else if index < |m.bitmap| then m.(bitmap := m.bitmap[index := img]) else m
  }

  /** The bitmap block that covers `b` is staged. */
  ghost predicate BitStaged(pool: seq<Staged>, d: nat, b: nat)
  {
    b / BITS_PER_BLOCK in StageOf(pool, d).bitmap
  }

  /** The table block is staged. */
  ghost predicate TableStaged(pool: seq<Staged>, d: nat, index: nat)
  {
    index in StageOf(pool, d).table
  }

  lemma BindEdits(base: MetaSet, stage: Stage, e: Staged)
    requires e.Staged?
    ensures LaySet(base, Bind(stage, e)) == SetImage(LaySet(base, stage), e.isTable, e.index, e.image)
  {
  }

  lemma StagedIsWindow(base: MetaSet, pool: seq<Staged>, d: nat, i: nat)
    requires OnePerKey(pool) && i < |pool| && pool[i].Staged? && pool[i].device == d
    requires pool[i].index < |Kind(base, pool[i].isTable)|
    ensures Kind(LaySet(base, StageOf(pool, d)), pool[i].isTable)[pool[i].index] == pool[i].image
    ensures pool[i].index in if pool[i].isTable then StageOf(pool, d).table else StageOf(pool, d).bitmap
  {
    StagedUnique(pool, i);
  }

  lemma StagedMoreRefl(pool: seq<Staged>, d: nat)
    ensures StagedMore(pool, pool, d)
  {
  }

  /** The counters play no part in where a checksum entry lies. */
  lemma SameRegion(s: Superblock, t: Superblock, b: nat)
    requires s.dataStart == t.dataStart <= b && s.checksumRegion == t.checksumRegion
    ensures RegionBlock(s, b) == RegionBlock(t, b) && RegionOffset(s, b) == RegionOffset(t, b)
  {
  }

  lemma RegionInside(s: Superblock, b: nat)
    requires SuperValid(s, s.totalBlocks) && IsData(s, b)
    ensures RegionBlock(s, b) < s.totalBlocks && RegionOffset(s, b) + 4 <= BLOCK_SIZE && RegionOffset(s, b) % 4 == 0
  {
    SealInRegion(s, b);
    RegionsApart(s, RegionBlock(s, b));
  }

  lemma UnstagedIsBase(base: MetaSet, pool: seq<Staged>, d: nat, isTable: bool, index: nat)
    requires StagedAt(pool, d, isTable, index) < 0 && index < |Kind(base, isTable)|
    ensures Kind(LaySet(base, StageOf(pool, d)), isTable)[index] == Kind(base, isTable)[index]
  {
  }

  lemma SetBitUsed(bitmap: seq<Image>, b: nat, on: bool, total: nat)
    requires b < total && b / BITS_PER_BLOCK < |bitmap|
    ensures var i := b / BITS_PER_BLOCK;
            UsedIn(bitmap[i := SetBitAt(bitmap[i], b % BITS_PER_BLOCK, on)], total)
            == if on then UsedIn(bitmap, total) + {b} else UsedIn(bitmap, total) - {b}
  {
    hide BitAt;
    var i := b / BITS_PER_BLOCK;
    var next := bitmap[i := SetBitAt(bitmap[i], b % BITS_PER_BLOCK, on)];
    forall x: nat | x < total
      ensures BitIn(next, x) == if x == b then on else BitIn(bitmap, x)
    {
      if x / BITS_PER_BLOCK == i {
        assert x == b <==> x % BITS_PER_BLOCK == b % BITS_PER_BLOCK;
      }
    }
  }

  /** Binding an index to the committed image leaves the window's view as it was. */
  lemma BindCommitted(base: MetaSet, stage: Stage, e: Staged)
    requires e.Staged? && e.index !in (if e.isTable then stage.table else stage.bitmap)
    requires e.index < |if e.isTable then base.table else base.bitmap|
    requires e.image == (if e.isTable then base.table else base.bitmap)[e.index]
    ensures LaySet(base, Bind(stage, e)) == LaySet(base, stage)
  {
  }

  ghost predicate PoolFull(pool: seq<Staged>)
  {
    forall k :: 0 <= k < |pool| ==> pool[k].Staged?
  }

  /** Everything staged for the device before is still staged. */
  ghost predicate StagedMore(before: seq<Staged>, after: seq<Staged>, d: nat)
  {
    && StageOf(before, d).bitmap.Keys <= StageOf(after, d).bitmap.Keys
    && StageOf(before, d).table.Keys <= StageOf(after, d).table.Keys
  }

  lemma StagedMoreBits(before: seq<Staged>, after: seq<Staged>, d: nat)
    requires StagedMore(before, after, d)
    ensures forall b :: BitStaged(before, d, b) ==> BitStaged(after, d, b)
  {
    hide StageOf;
  }

  lemma TwoSets(view: Disk, c: Disk, d: nat, s: Superblock)
    ensures SameShape(SetOf(c, d, s, s.activeSlot), SetOf(view, d, s, Other(s.activeSlot)))
  {
    hide BlockOf, SuperValid;
  }

  lemma DataOnlyRefl(v: Disk, d: nat, s: Superblock, touched: set<nat>)
    ensures DataOnly(v, v, d, s, touched)
  {
  }

  /** Writing an uncommitted data block. */
  lemma DataBlockWrite(view: Disk, disk: Disk, history: seq<Disk>, start: nat, c: Disk, d: nat, s: Superblock, b: nat,
      img: Image)
    requires Durable(view, disk, history, start, c, d, s)
    requires IsData(s, b) && b !in CommittedUsed(c, d, s)
    ensures MayWrite(view, c, d, s, b, img)
    ensures var v := Overlay(view, d, SECTORS_PER_BLOCK * b, Split(img));
            DataOnly(view, v, d, s, {b}) && BlockOf(v, d, b) == img
  {
    hide Durable, Safe, CommittedUsed, BlockOf, DataOnly, Overlay;
    DurableParts(view, disk, history, start, c, d, s);
    RegionsApart(s, b);
    SameReach(view, c, d);
    var v := Overlay(view, d, SECTORS_PER_BLOCK * b, Split(img));
    OverlayBlock(view, d, b, img);
    AgreeData(view, v, d, s, b);
    forall x: nat | IsData(s, x)
      ensures RegionBlock(s, x) != b
    {
      SealInRegion(s, x);
    }
    if InSet(s, s.activeSlot, b) {
      assert false;
    }
  }

  lemma ZeroBlock(v: Disk, d: nat, b: nat)
    requires forall k :: 0 <= k < SECTORS_PER_BLOCK ==> Sec(d, b, k) in v && v[Sec(d, b, k)] == Zeros(SECTOR_SIZE)
    ensures BlockOf(v, d, b) == Zeros(BLOCK_SIZE)
  {
    var ss := Raw(v, d, b);
    forall o | 0 <= o < BLOCK_SIZE
      ensures Join(ss)[o] == 0
    {
      JoinAt(ss, o);
    }
  }

  lemma SectorAgrees(m: Disk, d: nat, s: Superblock, b: nat, k: nat, x: Sector)
    requires Sec(d, b, k) in m && k < SECTORS_PER_BLOCK
    requires forall e: nat :: e < s.totalBlocks ==> OnDisk(m, d, e)
    ensures AgreeBut(m, m[Sec(d, b, k) := x], d, s, b)
  {
    var w := m[Sec(d, b, k) := x];
    assert w.Keys == m.Keys;
    SameReach(w, m, d);
    forall e: nat | e < s.totalBlocks && e != b
      ensures Raw(w, d, e) == Raw(m, d, e)
    {
      SameRaw(w, m, d, e);
    }
  }

  lemma ForgetAgrees(v: Disk, w: Disk, disk: Disk, d: nat, s: Superblock, b: nat)
    requires v.Keys == w.Keys == disk.Keys
    requires forall e: nat :: e < s.totalBlocks ==> OnDisk(v, d, e)
    requires forall loc :: loc in disk ==>
      w[loc] == if loc.dev == d && Page(loc.lba) == SECTORS_PER_BLOCK * b then disk[loc] else v[loc]
    ensures AgreeBut(v, w, d, s, b)
  {
    SameReach(w, v, d);
    forall e: nat | e < s.totalBlocks && e != b
      ensures Raw(w, d, e) == Raw(v, d, e)
    {
      assert OnDisk(v, d, e) && OnDisk(w, d, e);
      forall k | 0 <= k < SECTORS_PER_BLOCK
        ensures w[Sec(d, e, k)] == v[Sec(d, e, k)]
      {
        SecPage(d, e, k);
      }
      SameRaw(w, v, d, e);
    }
  }

  /** Changing one uncommitted data block, in the view and on the device, keeps the window durable. */
  lemma DurableAgree(a: Snap, z: Snap, start: nat, c: Disk, d: nat, s: Superblock, b: nat)
    requires Durable(ViewOf(a.entries, a.disk), a.disk, a.history, start, c, d, s)
    requires IsData(s, b) && b !in CommittedUsed(c, d, s)
    requires AgreeBut(ViewOf(a.entries, a.disk), ViewOf(z.entries, z.disk), d, s, b)
             && AgreeBut(a.disk, z.disk, d, s, b)
    requires z.history == a.history || z.history == a.history + [z.disk]
    ensures Durable(ViewOf(z.entries, z.disk), z.disk, z.history, start, c, d, s)
    ensures DataOnly(ViewOf(a.entries, a.disk), ViewOf(z.entries, z.disk), d, s, {b})
  {
    hide Safe, Unpack, AgreeBut, DataOnly, CommittedUsed;
    var v, w := ViewOf(a.entries, a.disk), ViewOf(z.entries, z.disk);
    DurableParts(v, a.disk, a.history, start, c, d, s);
    SafeAgree(v, w, c, d, s, b);
    SafeAgree(a.disk, z.disk, c, d, s, b);
    SameReach(v, c, d);
    AgreeData(v, w, d, s, b);
  }

  /** Bytes written over part of a block. */
  function Patch(img: Image, o: nat, bytes: seq<u8>): Image
    requires o + |bytes| <= BLOCK_SIZE
  {
    img[..o] + bytes + img[o + |bytes|..]
  }

  /** Rewriting the checksum entry of an uncommitted data block. */
  lemma SealWrite(view: Disk, disk: Disk, history: seq<Disk>, start: nat, c: Disk, d: nat, s: Superblock, b: nat,
      entry: seq<u8>)
    requires Durable(view, disk, history, start, c, d, s)
    requires IsData(s, b) && b !in CommittedUsed(c, d, s) && |entry| == 4
    ensures RegionOffset(s, b) + 4 <= BLOCK_SIZE
    ensures var r, o := RegionBlock(s, b), RegionOffset(s, b);
            var img := Patch(BlockOf(view, d, r), o, entry);
            var v := Overlay(view, d, SECTORS_PER_BLOCK * r, Split(img));
            && MayWrite(view, c, d, s, r, img)
            && DataOnly(view, v, d, s, {b}) && SealOf(v, d, s, b) == entry && BlockOf(v, d, b) == BlockOf(view, d, b)
  {
    hide Durable, Safe, CommittedUsed, BlockOf, Overlay, SealOf, KeepsSeal, RegionOffset;
    DurableParts(view, disk, history, start, c, d, s);
    SealInRegion(s, b);
    var r, o := RegionBlock(s, b), RegionOffset(s, b);
    RegionsApart(s, r);
    RegionsApart(s, b);
    SameReach(view, c, d);
    var was := BlockOf(view, d, r);
    var img := Patch(was, o, entry);
    var v := Overlay(view, d, SECTORS_PER_BLOCK * r, Split(img));
    OverlayBlock(view, d, r, img);
    SealOthers(view, v, d, s, b, entry);
    forall e: nat | InSet(s, Other(s.activeSlot), e)
      ensures BlockOf(v, d, e) == BlockOf(view, d, e)
    {
      RegionsApart(s, e);
    }
    if InSet(s, s.activeSlot, r) {
      assert false;
    }
  }

  lemma SealOthers(view: Disk, v: Disk, d: nat, s: Superblock, b: nat, entry: seq<u8>)
    requires Geometry(s, view, d) && v.Keys == view.Keys && IsData(s, b) && |entry| == 4
    requires RegionOffset(s, b) + 4 <= BLOCK_SIZE
    requires var r, o := RegionBlock(s, b), RegionOffset(s, b);
             BlockOf(v, d, r) == Patch(BlockOf(view, d, r), o, entry)
    requires forall e :: e != RegionBlock(s, b) ==> BlockOf(v, d, e) == BlockOf(view, d, e)
    ensures SealOf(v, d, s, b) == entry
    ensures forall x: nat :: IsData(s, x) && x != b ==> SealOf(v, d, s, x) == SealOf(view, d, s, x)
    ensures forall x: nat :: IsData(s, x) && x != b && RegionBlock(s, x) == RegionBlock(s, b) ==>
      KeepsSeal(s, x, BlockOf(v, d, RegionBlock(s, b)), BlockOf(view, d, RegionBlock(s, b)))
  {
    hide BlockOf, SealOf, RegionOffset;
    var r, o := RegionBlock(s, b), RegionOffset(s, b);
    SealInRegion(s, b);
    RegionsApart(s, r);
    SameReach(view, v, d);
    SealBytes(v, d, s, b);
    forall x: nat | IsData(s, x) && x != b
      ensures SealOf(v, d, s, x) == SealOf(view, d, s, x)
      ensures RegionBlock(s, x) == r ==> KeepsSeal(s, x, BlockOf(v, d, r), BlockOf(view, d, r))
    {
      OtherSeal(s, b, x, BlockOf(view, d, r), entry);
      SealInRegion(s, x);
      RegionsApart(s, RegionBlock(s, x));
      SealBytes(v, d, s, x);
      SealBytes(view, d, s, x);
    }
  }

  /** Entries of different data blocks in one region block occupy different bytes. */
  lemma OtherSeal(s: Superblock, b: nat, x: nat, was: Image, entry: seq<u8>)
    requires SuperValid(s, s.totalBlocks) && IsData(s, b) && IsData(s, x) && x != b && |entry| == 4
    ensures RegionOffset(s, b) + 4 <= BLOCK_SIZE
    ensures var o := RegionOffset(s, b);
            RegionBlock(s, x) == RegionBlock(s, b) ==> KeepsSeal(s, x, Patch(was, o, entry), was)
  {
    SealInRegion(s, b);
    SealInRegion(s, x);
    if RegionBlock(s, x) == RegionBlock(s, b) {
      var o, p := RegionOffset(s, b), RegionOffset(s, x);
      assert p + 4 <= o || o + 4 <= p;
    }
  }

  lemma MetaOnlyRefl(v: Disk, d: nat, s: Superblock)
    ensures MetaOnly(v, v, d, s)
  {
  }

  lemma MetaOnlyTrans(u: Disk, v: Disk, w: Disk, d: nat, s: Superblock)
    requires MetaOnly(u, v, d, s) && MetaOnly(v, w, d, s)
    ensures MetaOnly(u, w, d, s)
  {
  }

  lemma NothingStaged(pool: seq<Staged>, d: nat)
    requires forall k :: 0 <= k < |pool| ==> pool[k].Free? || pool[k].device != d
    ensures StageOf(pool, d) == Stage(map[], map[])
  {
    assert forall i :: StagedAt(pool, d, false, i) < 0;
    assert forall i :: StagedAt(pool, d, true, i) < 0;
  }

  lemma NoStage(base: MetaSet, d: nat)
    ensures forall pool: seq<Staged> :: LaySet(base, StageOf(pool[..0], d)) == base
  {
    forall pool: seq<Staged>
      ensures LaySet(base, StageOf(pool[..0], d)) == base
    {
      NothingStaged(pool[..0], d);
    }
  }

  /** Landing a staged image leaves what the stage makes of the set. */
  lemma LayOver(m: MetaSet, pool: seq<Staged>, k: nat, d: nat)
    requires OnePerKey(pool) && k < |pool| && pool[k].Staged? && pool[k].device == d
    ensures LaySet(SetImage(m, pool[k].isTable, pool[k].index, pool[k].image), StageOf(pool, d)) ==
            LaySet(m, StageOf(pool, d))
  {
    hide StagedAt, OnePerKey;
    StagedUnique(pool, k);
    var e, stage := pool[k], StageOf(pool, d);
    var n := SetImage(m, e.isTable, e.index, e.image);
    assert LaySet(n, stage).bitmap == LaySet(m, stage).bitmap;
    assert LaySet(n, stage).table == LaySet(m, stage).table;
  }

  lemma NoFlip(v: Disk, d: nat, s: Superblock)
    ensures OnlyFlip(v, v, d, s)
  {
  }

  /** Landing metadata keeps every data block and checksum entry. */
  lemma MetaKeeps(view: Disk, v: Disk, disk: Disk, history: seq<Disk>, start: nat, c: Disk, d: nat, s: Superblock)
    requires Durable(v, disk, history, start, c, d, s) && MetaOnly(view, v, d, s)
    ensures forall x: nat :: IsData(s, x) ==>
      BlockOf(v, d, x) == BlockOf(view, d, x) && SealOf(v, d, s, x) == SealOf(view, d, s, x)
  {
    hide Safe, BlockOf, SealOf, Unpack, Shaped, MetaOnly, Geometry, Raw;
    SafeSlot(v, c, d, s);
    NoFlip(v, d, s);
    FlipData(v, v, view, c, d, s);
  }

  /** A flip that failed keeps the landed set and the data. */
  lemma FlipKeeps(h: Disk, f: Disk, view: Disk, c: Disk, d: nat, s: Superblock, t: Superblock)
    requires Ready(f, view, c, d, s, t) && OnlyFlip(h, f, d, s)
    ensures SetOf(h, d, s, Other(s.activeSlot)) == SetOf(f, d, s, Other(s.activeSlot))
    ensures forall x: nat :: IsData(s, x) ==>
      BlockOf(h, d, x) == BlockOf(view, d, x) && SealOf(h, d, s, x) == SealOf(view, d, s, x)
  {
    hide Safe, BlockOf, SealOf, Unpack, Shaped, MetaOnly, Raw, SetOf, OnDisk, OnlyFlip, SuperValid;
    SafeSlot(f, c, d, s);
    FlipData(h, f, view, c, d, s);
    FlipBlocks(h, f, c, d, s);
    SlotInRange(s, c, d);
    forall e: nat | InSet(s, Other(s.activeSlot), e)
      ensures BlockOf(h, d, e) == BlockOf(f, d, e)
    {
      RegionsApart(s, e);
      RegionsApart(s, OtherSlot(s));
    }
    SameSet(h, f, d, s, s, Other(s.activeSlot));
  }

  /** Taking one more pool slot into account binds one more image. */
  lemma PrefixStage(base: MetaSet, pool: seq<Staged>, n: nat, d: nat)
    requires OnePerKey(pool) && n < |pool|
    ensures LaySet(base, StageOf(pool[..n + 1], d)) ==
            if pool[n].Staged? && pool[n].device == d
            then SetImage(LaySet(base, StageOf(pool[..n], d)), pool[n].isTable, pool[n].index, pool[n].image)
            else LaySet(base, StageOf(pool[..n], d))
  {
    hide LaySet;
    var p := pool[..n + 1];
    assert p[..n] == pool[..n];
    PrefixKind(pool, n, d, false);
    PrefixKind(pool, n, d, true);
    if pool[n].Staged? && pool[n].device == d {
      assert StageOf(p, d) == Bind(StageOf(pool[..n], d), pool[n]);
      BindEdits(base, StageOf(pool[..n], d), pool[n]);
    } else {
      assert StageOf(p, d) == StageOf(pool[..n], d);
    }
  }

  lemma PrefixKind(pool: seq<Staged>, n: nat, d: nat, isTable: bool)
    requires OnePerKey(pool) && n < |pool|
    ensures KindOf(pool[..n + 1], d, isTable) ==
            if pool[n].Staged? && pool[n].device == d && pool[n].isTable == isTable
            then KindOf(pool[..n], d, isTable)[pool[n].index := pool[n].image] else KindOf(pool[..n], d, isTable)
  {
    hide StagedAt, OnePerKey;
    var p := pool[..n + 1];
    forall x: nat
      ensures StagedAt(p, d, isTable, x) == if Keyed(pool[n], d, isTable, x) then n
        else StagedAt(pool[..n], d, isTable, x)
    {
      PrefixStaged(pool, n, d, isTable, x);
    }
  }

  lemma PrefixStaged(pool: seq<Staged>, n: nat, d: nat, isTable: bool, x: nat)
    requires OnePerKey(pool) && n < |pool|
    ensures StagedAt(pool[..n + 1], d, isTable, x) == if Keyed(pool[n], d, isTable, x) then n
      else StagedAt(pool[..n], d, isTable, x)
  {
    assert pool[..n + 1][..n] == pool[..n];
    if Keyed(pool[n], d, isTable, x) {
      assert StagedAt(pool[..n], d, isTable, x) < 0;
    }
  }

  /** Where a metadata block of the inactive set lies: clear of everything the committed generation needs. */
  lemma LandSpot(s: Superblock, isTable: bool, index: nat, b: int)
    requires SuperValid(s, s.totalBlocks) && s.activeSlot <= 1 && index < if isTable then s.tableBlocks
      else s.bitmapBlocks
    requires b == (if isTable then TableBase(s, Other(s.activeSlot)) else BitmapBase(s, Other(s.activeSlot))) + index
    ensures 0 < b < s.totalBlocks - 1 && InSet(s, Other(s.activeSlot), b) && !InSet(s, s.activeSlot, b)
            && !IsData(s, b) && !IsRegion(s, b)
  {
    RegionsApart(s, b);
  }

  lemma LandWrite(view: Disk, disk: Disk, history: seq<Disk>, start: nat, c: Disk, d: nat, s: Superblock,
      isTable: bool, index: nat, img: Image)
    requires Durable(view, disk, history, start, c, d, s)
    requires index < if isTable then s.tableBlocks else s.bitmapBlocks
    ensures var other := Other(s.activeSlot);
            var b := (if isTable then TableBase(s, other) else BitmapBase(s, other)) + index;
            var v := Overlay(view, d, SECTORS_PER_BLOCK * b, Split(img));
            && b >= 0 && MayWrite(view, c, d, s, b, img) && MetaOnly(view, v, d, s)
            && SetOf(v, d, s, other) == SetImage(SetOf(view, d, s, other), isTable, index, img)
  {
    hide Durable, Safe, CommittedUsed, BlockOf, Overlay, KeepsSeal, SetOf, SetImage, SuperValid, Raw, OnDisk, InSet,
         BitmapBase, TableBase, Split, RegionBlock;
    DurableParts(view, disk, history, start, c, d, s);
    var other := Other(s.activeSlot);
    var b: int := (if isTable then TableBase(s, other) else BitmapBase(s, other)) + index;
    LandSpot(s, isTable, index, b);
    SameReach(view, c, d);
    var v := Overlay(view, d, SECTORS_PER_BLOCK * b, Split(img));
    OverlayBlock(view, d, b, img);
    forall x: nat | IsData(s, x)
      ensures RegionBlock(s, x) != b
    {
      SealInRegion(s, x);
    }
    SetWrite(view, v, d, s, other, isTable, index, img);
  }

  lemma SetWrite(view: Disk, v: Disk, d: nat, s: Superblock, slot: nat, isTable: bool, index: nat, img: Image)
    requires SuperValid(s, s.totalBlocks) && index < if isTable then s.tableBlocks else s.bitmapBlocks
    requires var b := (if isTable then TableBase(s, slot) else BitmapBase(s, slot)) + index;
             b >= 0 && BlockOf(v, d, b) == img && forall e :: e != b ==> BlockOf(v, d, e) == BlockOf(view, d, e)
    ensures SetOf(v, d, s, slot) == SetImage(SetOf(view, d, s, slot), isTable, index, img)
  {
    hide BlockOf;
    var was, now := SetOf(view, d, s, slot), SetOf(v, d, s, slot);
    assert now.bitmap == SetImage(was, isTable, index, img).bitmap;
    assert now.table == SetImage(was, isTable, index, img).table;
  }

  /** The only dirty page is the flip slot's, so a stuck sector is its last one. */
  lemma FlipPage(f: Disk, view: Disk, c: Disk, d: nat, s: Superblock, t: Superblock, sectors: nat, stuck: Loc)
    requires Ready(f, view, c, d, s, t) && sectors / SECTORS_PER_BLOCK == s.totalBlocks
    requires stuck.dev == d && Page(stuck.lba) == SECTORS_PER_BLOCK * OtherSlot(s)
    requires stuck.lba % CACHE_SECTORS == CACHE_SECTORS - 1 || stuck.lba == sectors - 1
    ensures stuck == FlipEnd(d, s)
  {
    hide Safe, MetaOnly, Unpack, BlockOf;
    SlotInRange(s, c, d);
  }

  lemma FlipRange(f: Disk, view: Disk, c: Disk, d: nat, s: Superblock, t: Superblock, sectors: nat)
    requires Ready(f, view, c, d, s, t) && sectors / SECTORS_PER_BLOCK == s.totalBlocks && sectors < U32_LIMIT
    ensures SECTORS_PER_BLOCK * OtherSlot(s) + SECTORS_PER_BLOCK <= U32_LIMIT - CACHE_SECTORS
  {
    hide Safe, MetaOnly, Unpack, BlockOf;
    SlotInRange(s, c, d);
  }

  lemma FlipForgotten(v: Disk, w: Disk, disk: Disk, f: Disk, view: Disk, c: Disk, d: nat, s: Superblock, t: Superblock,
      lba: nat)
    requires Ready(f, view, c, d, s, t) && v.Keys == w.Keys == disk.Keys == f.Keys
    requires forall e: nat :: e < s.totalBlocks && e != OtherSlot(s) ==> Raw(v, d, e) == Raw(f, d, e)
    requires lba == SECTORS_PER_BLOCK * OtherSlot(s)
    requires forall loc :: loc in disk ==>
      w[loc] == if loc.dev == d && lba <= Page(loc.lba) <= Page(lba + SECTORS_PER_BLOCK - 1) then disk[loc] else v[loc]
    ensures OnlyFlip(w, f, d, s) && Raw(w, d, OtherSlot(s)) == Raw(disk, d, OtherSlot(s))
  {
    hide Safe, MetaOnly, Unpack, BlockOf, Raw, OnDisk, SuperValid, Shaped;
    SafeSlot(f, c, d, s);
    SlotInRange(s, c, d);
    SameReach(w, c, d);
    SameReach(disk, c, d);
    SameReach(v, c, d);
    assert Page(lba + SECTORS_PER_BLOCK - 1) == lba;
    forall e: nat | e < s.totalBlocks
      ensures Raw(w, d, e) == if e == OtherSlot(s) then Raw(disk, d, e) else Raw(v, d, e)
    {
      ForgottenBlock(v, w, disk, d, lba, e);
    }
  }

  /** One block after the page at `lba` was forgotten: from the device there, from the view elsewhere. */
  lemma ForgottenBlock(v: Disk, w: Disk, disk: Disk, d: nat, lba: nat, e: nat)
    requires v.Keys == w.Keys == disk.Keys && OnDisk(w, d, e) && lba % SECTORS_PER_BLOCK == 0
    requires forall loc :: loc in disk ==>
      w[loc] == if loc.dev == d && lba <= Page(loc.lba) <= lba then disk[loc] else v[loc]
    ensures Raw(w, d, e) == if SECTORS_PER_BLOCK * e == lba then Raw(disk, d, e) else Raw(v, d, e)
  {
    forall k | 0 <= k < SECTORS_PER_BLOCK
      ensures w[Sec(d, e, k)] == if SECTORS_PER_BLOCK * e == lba then disk[Sec(d, e, k)] else v[Sec(d, e, k)]
    {
      SecPage(d, e, k);
    }
    if SECTORS_PER_BLOCK * e == lba {
      SameRaw(w, disk, d, e);
    } else {
      SameRaw(w, v, d, e);
    }
  }

  lemma GetReady(f: Disk, disk: Disk, history: seq<Disk>, start: nat, view: Disk, c: Disk, d: nat, s: Superblock,
      t: Superblock)
    requires Durable(f, disk, history, start, c, d, s) && MetaOnly(view, f, d, s)
    requires SameGeneration(s, t) && t.generation + 1 < U64_LIMIT
    ensures Ready(f, view, c, d, s, t)
  {
    hide Safe, MetaOnly, Unpack, Shaped;
  }

  lemma SafeCrash(from: nat, history: seq<Disk>, view: Disk, c: Disk, d: nat, s: Superblock, next: Superblock,
      want: MetaSet)
    requires forall k :: from <= k < |history| ==> Safe(history[k], c, d, s)
    ensures CrashPoints(from, history, view, c, d, s, next, want)
  {
    hide Safe, Published;
  }

  /** History only grew, and the other superblock slot was left as in `m`. */
  ghost predicate SlotKept(before: seq<Disk>, after: seq<Disk>, m: Disk, d: nat, s: Superblock)
  {
    |before| <= |after| && after[..|before|] == before && SlotStill(|before|, after, m, d, s)
  }

  lemma SlotKeptRefl(history: seq<Disk>, m: Disk, d: nat, s: Superblock)
    ensures SlotKept(history, history, m, d, s)
  {
  }

  lemma SlotKeptTrans(a: seq<Disk>, b: seq<Disk>, c: seq<Disk>, m: Disk, n: Disk, d: nat, s: Superblock)
    requires SlotKept(a, b, m, d, s) && SlotKept(b, c, n, d, s) && Raw(n, d, OtherSlot(s)) == Raw(m, d, OtherSlot(s))
    ensures SlotKept(a, c, m, d, s)
  {
    hide SlotStill;
    StillAppend(|a|, b, c, m, n, d, s);
    assert c[..|a|] == c[..|b|][..|a|];
  }

  lemma SafeStates(view: Disk, disk: Disk, history: seq<Disk>, start: nat, c: Disk, d: nat, s: Superblock)
    requires Durable(view, disk, history, start, c, d, s)
    ensures forall k :: start <= k < |history| ==> Safe(history[k], c, d, s)
  {
    hide Safe, Unpack, Shaped;
  }

  lemma BegunAppend(from: nat, g: seq<Disk>, h: seq<Disk>, d: nat, s: Superblock, next: Superblock)
    requires from <= |g| <= |h| && h[..|g|] == g
    ensures FlipBegun(from, h, d, s, next) <==> FlipBegun(from, g, d, s, next) || FlipBegun(|g|, h, d, s, next)
  {
    hide Begun;
    assert forall k :: from <= k < |g| ==> h[k] == h[..|g|][k];
    if FlipBegun(from, g, d, s, next) {
      var k :| from <= k < |g| && Begun(g[k], d, s, next);
      assert Begun(h[k], d, s, next);
    }
  }

  /** The published device as the next window's committed generation. */
  lemma NewGeneration(v: Disk, disk: Disk, history: seq<Disk>, f: Disk, view: Disk, c: Disk, d: nat, s: Superblock,
      t: Superblock)
    requires Ready(f, view, c, d, s, t)
    requires Flushed(v, disk, d) && OnlyFlip(disk, f, d, s) && Raw(disk, d, OtherSlot(s)) == Split(Pack(Next(t)))
    requires |history| > 0 && history[|history| - 1] == disk
    ensures Durable(v, disk, history, |history| - 1, disk, d, Next(t))
    ensures SetOf(disk, d, Next(t), Next(t).activeSlot) == SetOf(f, d, s, Other(s.activeSlot))
    ensures SetOf(v, d, Next(t), Other(Next(t).activeSlot)) == SetOf(c, d, s, s.activeSlot)
    ensures s.dataStart == t.dataStart
    ensures forall x: nat :: IsData(Next(t), x) ==>
      BlockOf(v, d, x) == BlockOf(view, d, x) && SealOf(v, d, Next(t), x) == SealOf(view, d, s, x)
  {
    hide Safe, MetaOnly, Unpack, Shaped, OnlyFlip, Pack, BlockOf, SealOf, SetOf, Durable, Flushed;
    CommitDurable(v, disk, history, f, c, d, s, t);
    LandedData(v, disk, f, view, c, d, s, Next(t));
  }

  lemma LandedData(v: Disk, disk: Disk, f: Disk, view: Disk, c: Disk, d: nat, s: Superblock, next: Superblock)
    requires Geometry(s, c, d) && Safe(f, c, d, s) && MetaOnly(view, f, d, s) && OnlyFlip(disk, f, d, s)
             && Flushed(v, disk, d)
    requires next.dataStart == s.dataStart && next.checksumRegion == s.checksumRegion
    ensures forall x: nat :: IsData(s, x) ==>
      BlockOf(v, d, x) == BlockOf(view, d, x) && SealOf(v, d, next, x) == SealOf(view, d, s, x)
  {
    hide Safe, BlockOf, SealOf, Flushed;
    SafeSlot(f, c, d, s);
    FlipData(disk, f, view, c, d, s);
    FlushedRaw(v, disk, d);
    FlushedKeys(v, disk, d);
    RawBlocks(v, disk, d);
    SameReach(disk, c, d);
    SealsFromRegion(disk, v, d, s);
    SealShape(v, d, s, next);
  }

  lemma SealShape(v: Disk, d: nat, s: Superblock, next: Superblock)
    requires next.dataStart == s.dataStart && next.checksumRegion == s.checksumRegion
    ensures forall x: nat :: IsData(s, x) ==> SealOf(v, d, next, x) == SealOf(v, d, s, x)
  {
  }

  lemma FlushedKeys(v: Disk, disk: Disk, d: nat)
    requires Flushed(v, disk, d)
    ensures v.Keys == disk.Keys
  {
  }

  lemma StagedMeans(pool: seq<Staged>, d: nat)
    ensures StageOf(pool, d) == Stage(map[], map[]) <==> forall k :: 0 <= k < |pool| ==>
      pool[k].Free? || pool[k].device != d
  {
    if forall k :: 0 <= k < |pool| ==> pool[k].Free? || pool[k].device != d {
      NothingStaged(pool, d);
    } else {
      var k :| 0 <= k < |pool| && pool[k].Staged? && pool[k].device == d;
      assert Keyed(pool[k], d, pool[k].isTable, pool[k].index);
      assert pool[k].index in KindOf(pool, d, pool[k].isTable);
    }
  }

  lemma CrashNone(from: nat, history: seq<Disk>, view: Disk, c: Disk, d: nat, s: Superblock, next: Superblock,
      want: MetaSet)
    requires from == |history|
    ensures CrashPoints(from, history, view, c, d, s, next, want)
  {
  }

  lemma CrashAppend(from: nat, g: seq<Disk>, h: seq<Disk>, view: Disk, c: Disk, d: nat, s: Superblock,
      next: Superblock, want: MetaSet)
    requires |g| <= |h| && h[..|g|] == g
    requires CrashPoints(from, g, view, c, d, s, next, want) && CrashPoints(|g|, h, view, c, d, s, next, want)
    ensures CrashPoints(from, h, view, c, d, s, next, want)
  {
    hide CrashPoint;
    forall k | from <= k < |h|
      ensures CrashPoint(h[k], view, c, d, s, next, want)
    {
      if k < |g| {
        assert h[k] == h[..|g|][k];
      }
    }
  }

  /** Before the flip every crash point is the old generation. */
  lemma DurableCrash(view: Disk, v: Disk, disk: Disk, history: seq<Disk>, start: nat, from: nat, c: Disk, d: nat,
      s: Superblock, next: Superblock, want: MetaSet)
    requires Durable(v, disk, history, start, c, d, s) && start <= from
    ensures CrashPoints(from, history, view, c, d, s, next, want)
  {
    hide Safe, Published, Unpack, Shaped;
  }

  lemma SameSlot(view: Disk, v: Disk, c: Disk, d: nat, s: Superblock)
    requires MetaOnly(view, v, d, s) && Geometry(s, c, d)
    ensures Raw(v, d, OtherSlot(s)) == Raw(view, d, OtherSlot(s))
  {
    SlotInRange(s, c, d);
    RegionsApart(s, OtherSlot(s));
  }

  /** A block image that leaves everything the committed generation references alone. */
  ghost predicate MayWrite(view: Disk, c: Disk, d: nat, s: Superblock, b: nat, img: Image)
  {
    && b < s.totalBlocks
    && !Frozen(c, d, s, b)
    && b != OtherSlot(s)
    && (forall x: nat :: IsData(s, x) && x in CommittedUsed(c, d, s) && RegionBlock(s, x) == b ==>
          KeepsSeal(s, x, img, BlockOf(view, d, b)))
  }

  lemma WriteDurable(view: Disk, disk: Disk, history: seq<Disk>, start: nat, c: Disk, d: nat, s: Superblock, b: nat,
      img: Image)
    requires Durable(view, disk, history, start, c, d, s) && MayWrite(view, c, d, s, b, img)
    ensures var v := Overlay(view, d, SECTORS_PER_BLOCK * b, Split(img));
            Safe(v, c, d, s) && Raw(v, d, OtherSlot(s)) == Raw(view, d, OtherSlot(s))
  {
    hide Safe, Unpack, Overlay, SuperValid, Geometry;
    GeometryValid(s, c, d);
    SafeWrite(view, c, d, s, b, img);
  }

  lemma ActiveImage(view: Disk, disk: Disk, history: seq<Disk>, start: nat, c: Disk, d: nat, s: Superblock,
      isTable: bool, index: nat)
    requires Durable(view, disk, history, start, c, d, s)
    requires index < if isTable then s.tableBlocks else s.bitmapBlocks
    ensures var active := SetOf(c, d, s, s.activeSlot);
            && index < |if isTable then active.table else active.bitmap|
            && BlockOf(view, d, (if isTable then TableBase(s, s.activeSlot) else BitmapBase(s, s.activeSlot)) + index)
            == if isTable then active.table[index] else active.bitmap[index]
  {
    hide Durable, Good, Safe, BlockOf;
    DurableParts(view, disk, history, start, c, d, s);
    SafeSet(view, c, d, s);
    var mine, theirs := SetOf(view, d, s, s.activeSlot), SetOf(c, d, s, s.activeSlot);
    if isTable {
      assert mine.table[index] == theirs.table[index];
    } else {
      assert mine.bitmap[index] == theirs.bitmap[index];
    }
  }

  lemma DurableParts(view: Disk, disk: Disk, history: seq<Disk>, start: nat, c: Disk, d: nat, s: Superblock)
    requires Durable(view, disk, history, start, c, d, s)
    ensures Geometry(s, c, d) && Safe(view, c, d, s) && Safe(disk, c, d, s)
    ensures view.Keys == disk.Keys == c.Keys && start < |history|
  {
    hide Unpack, Frozen, CommittedUsed, Shaped, Outranked;
  }

  lemma MountDurable(view: Disk, m: Disk, history: seq<Disk>, d: nat, s: Superblock)
    requires Flushed(view, m, d)
    requires Geometry(s, m, d) && |history| > 0 && history[|history| - 1] == m
    requires Unpack(BlockOf(m, d, SuperSlot(s, s.activeSlot))) == Some(s.(activeSlot := 0))
    requires Shaped(Raw(m, d, SuperSlot(s, s.activeSlot)))
    requires Shaped(Raw(m, d, OtherSlot(s))) && Outranked(BlockOf(m, d, OtherSlot(s)), s)
    ensures Durable(view, m, history, |history| - 1, m, d, s)
  {
    hide Unpack, Shaped, Outranked, Flushed, Raw, SealOf, Geometry, CommittedUsed;
    FlushedRaw(view, m, d);
    FlushedKeys(view, m, d);
    FlushedSeals(view, m, d, s);
    SameReach(view, m, d);
  }

  lemma FlushedSeals(view: Disk, disk: Disk, d: nat, s: Superblock)
    requires Flushed(view, disk, d)
    ensures forall b: nat :: s.dataStart <= b ==> SealOf(view, d, s, b) == SealOf(disk, d, s, b)
  {
  }

  lemma DurableStill(a: Snap, b: Snap, start: nat, c: Disk, d: nat, s: Superblock)
    requires Durable(ViewOf(a.entries, a.disk), a.disk, a.history, start, c, d, s)
    requires Lands(a, b) && ViewOf(a.entries, a.disk) == ViewOf(b.entries, b.disk)
    ensures Durable(ViewOf(b.entries, b.disk), b.disk, b.history, start, c, d, s)
  {
    hide Geometry, Safe, Unpack, Lands, SuperValid;
    GeometryValid(s, c, d);
    DurableLands(a, b, start, c, d, s);
  }

  lemma Reach(view: Disk, disk: Disk, history: seq<Disk>, start: nat, c: Disk, d: nat, s: Superblock, b: nat)
    requires Durable(view, disk, history, start, c, d, s) && b < s.totalBlocks
    ensures OnDisk(view, d, b) && OnDisk(disk, d, b)
    ensures forall e: nat :: e < s.totalBlocks ==> OnDisk(view, d, e) && OnDisk(disk, d, e)
  {
    SameReach(view, c, d);
    SameReach(disk, c, d);
  }
}
