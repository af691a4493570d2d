/** Finding the superblock of a device, and formatting one (src/fs/adytumfs_super.c, src/fs/adytumfs_volume.c). */
module Mounts {
  import opened Bytes
  import opened BlockCache
  import opened Blocks
  import opened Checksums
  import opened Superblocks
  import opened Durability
  import opened Volumes
  import opened Extents
  import opened Inodes
  import opened InodeOps
  import opened Audits
  import V = Views

  lemma InRange(sizes: map<nat, nat>, entries: seq<Entry>, disk: Disk, d: nat, b: nat)
    requires Good(sizes, entries, disk) && d in sizes && b < sizes[d] / SECTORS_PER_BLOCK
    ensures OnDisk(ViewOf(entries, disk), d, b)
  {
  }

  /** adytumfs_block_read on a bare device. */
  method LoadBlock(storage: Storage, d: nat, b: nat) returns (ok: bool, img: Image)
    requires storage.Valid() && d in storage.sizes && b < storage.sizes[d] / SECTORS_PER_BLOCK
    modifies storage
    ensures storage.Valid() && storage.View() == old(storage.View())
    ensures ok ==> img == BlockOf(storage.View(), d, b)
    ensures storage.faults >= old(storage.faults) && (!ok ==> storage.faults > old(storage.faults))
  {
    hide Good, Settles, ReadsAs;
    var buffer;
    InRange(storage.sizes, storage.entries, storage.disk, d, b);
    ok, buffer := storage.Read(d, SECTORS_PER_BLOCK * b, SECTORS_PER_BLOCK);
    if ok {
      ReadsBlock(storage.View(), d, b, buffer);
      img := Join(buffer);
    } else {
      img := Zeros(BLOCK_SIZE);
    }
  }

  /**
    adytumfs_super_read: on a device that reads back, exactly the mount picker.
    A read error counts as an unsound copy.
   */
  method SuperRead(storage: Storage, d: nat) returns (r: Option<Superblock>)
    requires storage.Valid() && d in storage.sizes
    modifies storage
    ensures storage.Valid() && storage.View() == old(storage.View())
    ensures storage.faults == old(storage.faults) ==> r == Pick(storage.View(), d, storage.sizes[d] / SECTORS_PER_BLOCK)
    ensures r.Some? ==> SuperValid(r.value, storage.sizes[d] / SECTORS_PER_BLOCK) && r.value.activeSlot <= 1
    ensures storage.faults >= old(storage.faults)
  {
    hide Good, Unpack, BlockOf, SuperValid;
    var blocks := storage.sizes[d] / SECTORS_PER_BLOCK;
    if blocks < 1 {
      return None;
    }
    var first, backup := None, None;
    var ok, img := LoadBlock(storage, d, 0);
    if ok {
      first := Unpack(img);
    }
    var valid := first.Some? && SuperValid(first.value, blocks);
    var at := if valid then first.value.totalBlocks - 1 else blocks - 1;
    if valid {
      LastInside(first.value, blocks);
    }
    if at > 0 {
      ok, img := LoadBlock(storage, d, at);
      if ok {
        backup := Unpack(img);
      }
    }
    var pick := if backup.Some? && (first.None? || backup.value.generation > first.value.generation) then backup
      else first;
    if pick.None? || !SuperValid(pick.value, blocks) {
      return None;
    }
    SlotFree(pick.value, blocks);
    r := Some(pick.value.(activeSlot := if backup.Some?
                          && (first.None? || backup.value.generation > first.value.generation) then 1 else 0));
  }

  lemma LastInside(s: Superblock, blocks: nat)
    requires SuperValid(s, blocks)
    ensures 0 < s.totalBlocks <= blocks
  {
  }

  lemma SlotFree(s: Superblock, blocks: nat)
    ensures forall slot: nat :: SuperValid(s.(activeSlot := slot), blocks) == SuperValid(s, blocks)
  {
  }

  // ---- the layout of a new volume -----------------------------------------

  function TableBlocksFor(total: nat): (n: nat)
    ensures 1 <= n <= TABLE_BLOCKS_MAX
  {
    if total / 32 > TABLE_BLOCKS_MAX then TABLE_BLOCKS_MAX else if total / 32 == 0 then 1 else total / 32
  }

  /** The start of the shadow tail, in u64 arithmetic. */
  function TailFor(total: nat): u64
  {
    (total - 1 - CeilDiv(total, BITS_PER_BLOCK) - TableBlocksFor(total)) % U64_LIMIT
  }

  function DataStartFor(total: nat): nat
  {
    1 + CeilDiv(total, BITS_PER_BLOCK) + TableBlocksFor(total)
  }

  /** The guard of adytumfs_make before it solves for the checksum region. */
  predicate RoomFor(total: nat)
  {
    total >= 1 && TailFor(total) > DataStartFor(total)
  }

  /**
    The tail subtraction wraps on exactly the devices below three blocks, and
    the guard catches that only on the empty one.
   */
  lemma TailWraps(total: nat)
    requires total < 0x2000_0000
    ensures TailFor(total) != total - 1 - CeilDiv(total, BITS_PER_BLOCK) - TableBlocksFor(total) <==> total < 3
    ensures total < 3 ==> (RoomFor(total) <==> total == 1 || total == 2)
  {
    if total >= 3 {
      var t := total - 1 - CeilDiv(total, BITS_PER_BLOCK) - TableBlocksFor(total);
      assert 0 <= t < U64_LIMIT;
    }
  }

  /** A checksum region of `r` blocks has an entry for every data block it leaves. */
  predicate Enough(span: nat, r: nat)
  {
    r <= span && CeilDiv(span - r, CHECKSUMS_PER_BLOCK) <= r
  }

  /** The region solver of adytumfs_make: the smallest region that is enough. */
  method SolveRegion(span: nat) returns (r: nat)
    requires span > 0
    ensures 1 <= r && Enough(span, r) && forall q :: 1 <= q < r ==> !Enough(span, q)
  {
    r := 1;
    while CeilDiv(span - r, CHECKSUMS_PER_BLOCK) > r
      invariant 1 <= r <= span
      invariant forall q :: 1 <= q < r ==> !Enough(span, q)
      decreases span - r
    {
      r := r + 1;
    }
  }

  /** The superblock adytumfs_make writes. */
  function NewSuper(total: u64, region: u64): Superblock
    requires total < 0x2000_0000
  {
    var bitmap, table := CeilDiv(total, BITS_PER_BLOCK), TableBlocksFor(total);
    var data := DataStartFor(total);
    Superblock(FORMAT_VERSION, BLOCK_SIZE, total, 1, bitmap, 1 + bitmap, table, table * INODES_PER_BLOCK, 1, data,
               if region >= data then region - data else 0, table * INODES_PER_BLOCK - 2, 1, 0, FEATURE_INCOMPAT_V2,
               0, region, 0)
  }

  /** A solved layout is structurally valid: every region in its place, none overlapping. */
  lemma NewSuperValid(total: u64, regionBlocks: nat)
    requires 3 <= total < 0x2000_0000 && RoomFor(total)
    requires var span := TailFor(total) - DataStartFor(total); 1 <= regionBlocks < span && Enough(span, regionBlocks)
    ensures var s := NewSuper(total, TailFor(total) - regionBlocks);
      && SuperValid(s, total) && s.totalBlocks == total && TailBase(s) == TailFor(total)
      && s.freeBlocks == s.checksumRegion - s.dataStart
  {
    TailWraps(total);
  }

  // ---- block images of a new volume ---------------------------------------

  predicate Reserved(s: Superblock, b: nat)
  {
    b < s.totalBlocks && !IsData(s, b)
  }

  /** A bitmap block that marks exactly the reserved blocks it covers. */
  ghost predicate MarksReserved(s: Superblock, index: nat, img: Image)
  {
    forall x :: 0 <= x < BITS_PER_BLOCK ==> (BitAt(img, x) <==> Reserved(s, index * BITS_PER_BLOCK + x))
  }

  method FillBitmap(s: Superblock, index: nat) returns (img: Image)
    ensures MarksReserved(s, index, img)
  {
    img := Zeros(BLOCK_SIZE);
    var base := index * BITS_PER_BLOCK;
    NoBits();
    var used := 0;
    while used < s.totalBlocks
      invariant 0 <= used <= s.totalBlocks
      invariant forall x :: 0 <= x < BITS_PER_BLOCK ==> (BitAt(img, x) <==> base + x < used && !IsData(s, base + x))
    {
      if (used < s.dataStart || used >= s.checksumRegion) && used >= base && used - base < BITS_PER_BLOCK {
        img := SetBitAt(img, used - base, true);
      }
      used := used + 1;
    }
  }

  lemma NoBits()
    ensures forall x :: 0 <= x < BITS_PER_BLOCK ==> !BitAt(Zeros(BLOCK_SIZE), x)
  {
    forall x | 0 <= x < BITS_PER_BLOCK
      ensures !BitAt(Zeros(BLOCK_SIZE), x)
    {
      ZeroBit(x % 8);
    }
  }

  lemma ZeroBit(k: nat)
    ensures !BitOf(0, k)
  {
  }

  function RootInode(now: u64): Inode
  {
    Inode(0x41ED, 2, 0, 0, 0, 0, 0, now, now, now, 1, NoExtents(), 0, 0, 0, 0, 0)
  }

  /** Table block `index` of a new volume: the root in slot 1, everything else free. */
  function TableImage(index: nat, now: u64): Image
  {
    if index == 0 then PutSlot(Zeros(BLOCK_SIZE), 1, PackInode(RootInode(now))) else Zeros(BLOCK_SIZE)
  }

  // ---- writing them out ---------------------------------------------------

  /** The device holds every image of the plan. */
  ghost predicate Holds(view: Disk, d: nat, want: map<nat, Image>)
  {
    forall b :: b in want ==> Raw(view, d, b) == Split(want[b]) && OnDisk(view, d, b)
  }

  method StoreBlock(storage: Storage, d: nat, b: nat, img: Image, ghost want: map<nat, Image>) returns (ok: bool)
    requires storage.Valid() && d in storage.sizes && b < storage.sizes[d] / SECTORS_PER_BLOCK
             && Holds(storage.View(), d, want)
    modifies storage
    ensures storage.Valid() && (ok ==> Holds(storage.View(), d, want[b := img]))
    ensures storage.faults >= old(storage.faults) && (!ok ==> storage.faults > old(storage.faults))
  {
    hide Good, Lands, LandsOutside, Overlay;
    InRange(storage.sizes, storage.entries, storage.disk, d, b);
    ghost var view, done := storage.View(), 0;
    OverlayBlock(view, d, b, img);
    assert Split(img)[..SECTORS_PER_BLOCK] == Split(img);
    ok, done := storage.Write(d, SECTORS_PER_BLOCK * b, Split(img));
    if ok {
      StoredPlan(view, storage.View(), d, b, img, want);
    }
  }

  lemma StoredPlan(view: Disk, view': Disk, d: nat, b: nat, img: Image, want: map<nat, Image>)
    requires Holds(view, d, want) && OnDisk(view, d, b) && view' == Overlay(view, d, SECTORS_PER_BLOCK * b, Split(img))
    ensures Holds(view', d, want[b := img])
  {
    hide Raw;
    OverlayBlock(view, d, b, img);
    SameReach(view, view', d);
  }

  /** The same image in both metadata sets. */
  method StoreTwins(storage: Storage, d: nat, a: nat, b: nat, img: Image, ghost want: map<nat, Image>)
    returns (ok: bool)
    requires storage.Valid() && d in storage.sizes && Holds(storage.View(), d, want)
    requires a < storage.sizes[d] / SECTORS_PER_BLOCK && b < storage.sizes[d] / SECTORS_PER_BLOCK
    modifies storage
    ensures storage.Valid() && (ok ==> Holds(storage.View(), d, want[a := img][b := img]))
    ensures storage.faults >= old(storage.faults) && (!ok ==> storage.faults > old(storage.faults))
  {
    hide Good, Holds;
    ok := StoreBlock(storage, d, a, img, want);
    if ok {
      ok := StoreBlock(storage, d, b, img, want[a := img]);
    }
  }

  /** Consecutive blocks of the plan. */
  ghost predicate Stretch(want: map<nat, Image>, base: int, imgs: seq<Image>)
  {
    base >= 0 && forall b: nat :: base <= b < base + |imgs| ==> b in want && want[b] == imgs[b - base]
  }

  lemma StretchKeep(want: map<nat, Image>, base: int, imgs: seq<Image>, b: nat, img: Image)
    requires Stretch(want, base, imgs) && (b < base || b >= base + |imgs|)
    ensures Stretch(want[b := img], base, imgs)
  {
  }

  lemma StretchAdd(want: map<nat, Image>, base: int, imgs: seq<Image>, img: Image)
    requires Stretch(want, base, imgs)
    ensures Stretch(want[base + |imgs| := img], base, imgs + [img])
  {
  }

  /** Superblocks, the first bitmap blocks and the first table blocks are planned, twice each. */
  ghost predicate Planned(want: map<nat, Image>, s: Superblock, bitmap: seq<Image>, table: seq<Image>)
  {
    && |bitmap| <= s.bitmapBlocks && |table| <= s.tableBlocks
    && Stretch(want, 0, [Pack(s)]) && Stretch(want, s.totalBlocks - 1, [Pack(s)])
    && Stretch(want, BitmapBase(s, 0), bitmap) && Stretch(want, BitmapBase(s, 1), bitmap)
    && Stretch(want, TableBase(s, 0), table) && Stretch(want, TableBase(s, 1), table)
  }

  predicate Outside(base: int, n: nat, b: nat)
  {
    b < base || b >= base + n
  }

  /** The two metadata sets in device order, with the data and its checksums between them. */
  lemma SetOrder(s: Superblock)
    requires SuperValid(s, s.totalBlocks)
    ensures BitmapBase(s, 0) == s.bitmapStart == 1 && TableBase(s, 0) == s.tableStart == 1 + s.bitmapBlocks
    ensures TableBase(s, 0) + s.tableBlocks == s.dataStart < s.checksumRegion <= TableBase(s, 1) == TailBase(s)
    ensures BitmapBase(s, 1) == TableBase(s, 1) + s.tableBlocks
            && BitmapBase(s, 1) + s.bitmapBlocks == s.totalBlocks - 1
  {
  }

  /** A write anywhere else leaves the plan. */
  lemma PlanKeep(want: map<nat, Image>, s: Superblock, bitmap: seq<Image>, table: seq<Image>, b: nat, img: Image)
    requires Planned(want, s, bitmap, table) && b != 0 && b != s.totalBlocks - 1
    requires Outside(BitmapBase(s, 0), |bitmap|, b) && Outside(BitmapBase(s, 1), |bitmap|, b)
    requires Outside(TableBase(s, 0), |table|, b) && Outside(TableBase(s, 1), |table|, b)
    ensures Planned(want[b := img], s, bitmap, table)
  {
    hide Pack, Stretch, BitmapBase, TableBase;
    StretchKeep(want, 0, [Pack(s)], b, img);
    StretchKeep(want, s.totalBlocks - 1, [Pack(s)], b, img);
    StretchKeep(want, BitmapBase(s, 0), bitmap, b, img);
    StretchKeep(want, BitmapBase(s, 1), bitmap, b, img);
    StretchKeep(want, TableBase(s, 0), table, b, img);
    StretchKeep(want, TableBase(s, 1), table, b, img);
  }

  lemma KeepTwo(want: map<nat, Image>, base: int, imgs: seq<Image>, a: nat, b: nat, img: Image)
    requires Stretch(want, base, imgs) && Outside(base, |imgs|, a) && Outside(base, |imgs|, b)
    ensures Stretch(want[a := img][b := img], base, imgs)
  {
    hide Stretch;
    StretchKeep(want, base, imgs, a, img);
    StretchKeep(want[a := img], base, imgs, b, img);
  }

  /** One more image for two stretches, the lower of which ends before the upper one begins. */
  lemma GrowTwo(want: map<nat, Image>, low: nat, high: nat, imgs: seq<Image>, img: Image)
    requires Stretch(want, low, imgs) && Stretch(want, high, imgs) && low + |imgs| < high
    ensures var more := want[low + |imgs| := img][high + |imgs| := img];
      Stretch(more, low, imgs + [img]) && Stretch(more, high, imgs + [img])
  {
    hide Stretch;
    var a, b := low + |imgs|, high + |imgs|;
    StretchAdd(want, low, imgs, img);
    StretchKeep(want[a := img], low, imgs + [img], b, img);
    StretchKeep(want, high, imgs, a, img);
    StretchAdd(want[a := img], high, imgs, img);
  }

  lemma PlanBitmap(want: map<nat, Image>, s: Superblock, bitmap: seq<Image>, img: Image, a: nat, b: nat)
    requires SuperValid(s, s.totalBlocks) && Planned(want, s, bitmap, []) && |bitmap| < s.bitmapBlocks
    requires a == BitmapBase(s, 0) + |bitmap| && b == BitmapBase(s, 1) + |bitmap|
    ensures Planned(want[a := img][b := img], s, bitmap + [img], [])
  {
    hide Pack, Stretch, BitmapBase, TableBase, SuperValid;
    SetOrder(s);
    KeepTwo(want, 0, [Pack(s)], a, b, img);
    KeepTwo(want, s.totalBlocks - 1, [Pack(s)], a, b, img);
    KeepTwo(want, TableBase(s, 0), [], a, b, img);
    KeepTwo(want, TableBase(s, 1), [], a, b, img);
    GrowTwo(want, BitmapBase(s, 0), BitmapBase(s, 1), bitmap, img);
  }

  lemma PlanTable(want: map<nat, Image>, s: Superblock, bitmap: seq<Image>, table: seq<Image>, img: Image, a: nat,
      b: nat)
    requires SuperValid(s, s.totalBlocks) && Planned(want, s, bitmap, table) && |table| < s.tableBlocks
    requires a == TableBase(s, 0) + |table| && b == TableBase(s, 1) + |table|
    ensures Planned(want[a := img][b := img], s, bitmap, table + [img])
  {
    hide Pack, Stretch, BitmapBase, TableBase, SuperValid;
    SetOrder(s);
    KeepTwo(want, 0, [Pack(s)], a, b, img);
    KeepTwo(want, s.totalBlocks - 1, [Pack(s)], a, b, img);
    KeepTwo(want, BitmapBase(s, 0), bitmap, a, b, img);
    KeepTwo(want, BitmapBase(s, 1), bitmap, a, b, img);
    GrowTwo(want, TableBase(s, 0), TableBase(s, 1), table, img);
  }

  lemma PlanRegion(want: map<nat, Image>, s: Superblock, bitmap: seq<Image>, table: seq<Image>, b: nat, img: Image)
    requires SuperValid(s, s.totalBlocks) && Planned(want, s, bitmap, table) && IsRegion(s, b)
    ensures Planned(want[b := img], s, bitmap, table)
  {
    hide Pack, Stretch, BitmapBase, TableBase, SuperValid;
    SetOrder(s);
    PlanKeep(want, s, bitmap, table, b, img);
  }

  /** A stretch of a held plan reads back as its images. */
  lemma StretchReads(view: Disk, d: nat, want: map<nat, Image>, base: nat, imgs: seq<Image>)
    requires Holds(view, d, want) && Stretch(want, base, imgs)
    ensures Images(view, d, base, |imgs|) == imgs
    ensures forall i :: 0 <= i < |imgs| ==>
      Raw(view, d, base + i) == Split(imgs[i]) && BlockOf(view, d, base + i) == imgs[i]
  {
    hide Split, Raw, Join, OnDisk;
    forall i | 0 <= i < |imgs|
      ensures Raw(view, d, base + i) == Split(imgs[i]) && BlockOf(view, d, base + i) == imgs[i]
    {
      assert base + i in want && want[base + i] == imgs[i];
      JoinSplit(imgs[i]);
    }
  }

  /** Both sets of a planned device read back as planned. */
  lemma PlanReads(view: Disk, d: nat, want: map<nat, Image>, s: Superblock, bitmap: seq<Image>, table: seq<Image>)
    requires SuperValid(s, s.totalBlocks) && Holds(view, d, want) && Planned(want, s, bitmap, table)
    requires |bitmap| == s.bitmapBlocks && |table| == s.tableBlocks
    ensures SetOf(view, d, s, 0) == MetaSet(bitmap, table) && SetOf(view, d, s, 1) == MetaSet(bitmap, table)
    ensures Raw(view, d, 0) == Raw(view, d, s.totalBlocks - 1) == Split(Pack(s))
    ensures BlockOf(view, d, 0) == BlockOf(view, d, s.totalBlocks - 1) == Pack(s)
  {
    hide Pack, Split, Raw, Stretch, Holds, BlockOf, Images;
    SetOrder(s);
    StretchReads(view, d, want, 0, [Pack(s)]);
    StretchReads(view, d, want, s.totalBlocks - 1, [Pack(s)]);
    StretchReads(view, d, want, BitmapBase(s, 0), bitmap);
    StretchReads(view, d, want, BitmapBase(s, 1), bitmap);
    StretchReads(view, d, want, TableBase(s, 0), table);
    StretchReads(view, d, want, TableBase(s, 1), table);
    assert [Pack(s)][0] == Pack(s);
  }

  // ---- the new volume is mountable ----------------------------------------

  /** The bitmap marks exactly the reserved blocks, the table holds exactly the root. */
  ghost predicate NewSet(s: Superblock, bitmap: seq<Image>, table: seq<Image>, now: u64)
  {
    && |bitmap| == s.bitmapBlocks && |table| == s.tableBlocks
    && (forall i :: 0 <= i < |bitmap| ==> MarksReserved(s, i, bitmap[i]))
    && (forall i :: 0 <= i < |table| ==> table[i] == TableImage(i, now))
  }

  lemma NewUsed(s: Superblock, bitmap: seq<Image>)
    requires SuperValid(s, s.totalBlocks) && |bitmap| == s.bitmapBlocks
    requires forall i :: 0 <= i < |bitmap| ==> MarksReserved(s, i, bitmap[i])
    ensures V.MetaMarked(UsedIn(bitmap, s.totalBlocks), s) && V.DataUsed(UsedIn(bitmap, s.totalBlocks), s) == {}
  {
    forall b: nat | b < s.totalBlocks
      ensures BitIn(bitmap, b) <==> Reserved(s, b)
    {
      var i := b / BITS_PER_BLOCK;
      assert i < |bitmap| && MarksReserved(s, i, bitmap[i]);
      assert b == i * BITS_PER_BLOCK + b % BITS_PER_BLOCK;
    }
  }

  lemma ZeroSlotFree()
    ensures var o := UnpackInode(SlotOf(Zeros(BLOCK_SIZE), 0)); o.Some? && o.value.mode == 0
    ensures forall k: nat :: k < INODES_PER_BLOCK ==> SlotOf(Zeros(BLOCK_SIZE), k) == SlotOf(Zeros(BLOCK_SIZE), 0)
  {
    hide Decode, InodeWidths, Crc32c, SlotValues;
    var z := SlotOf(Zeros(BLOCK_SIZE), 0);
    assert z[..2] == [0, 0];
    assert FromLe([0, 0]) == 0 by { assert [0, 0][1..] == [0] && [0][1..] == []; }
    FirstValue(z);
    forall k: nat | k < INODES_PER_BLOCK
      ensures SlotOf(Zeros(BLOCK_SIZE), k) == z
    {
    }
  }

  lemma FirstValue(z: Slot)
    ensures SlotValues(z)[0] == FromLe(z[..2])
  {
    TotalInodeWidth();
    assert InodeWidths()[0] == 2;
  }

  lemma NewSlots(table: seq<Image>, count: nat, now: u64)
    requires 2 <= count <= |table| * INODES_PER_BLOCK && forall i :: 0 <= i < |table| ==> table[i] == TableImage(i, now)
    ensures var t := SlotsOf(table, count);
      t[1] == Some(RootInode(now)) && forall k :: 0 <= k < count && k != 1 ==> t[k].Some? && !V.InUse(t[k])
  {
    hide UnpackInode, PackInode, SlotOf, PutSlot;
    var t := SlotsOf(table, count);
    ZeroSlotFree();
    UnpackPackInode(RootInode(now));
    forall k | 0 <= k < count
      ensures k == 1 ==> t[k] == Some(RootInode(now))
      ensures k != 1 ==> t[k].Some? && !V.InUse(t[k])
    {
      PutSlotSpec(Zeros(BLOCK_SIZE), 1, PackInode(RootInode(now)), k % INODES_PER_BLOCK);
      assert table[k / INODES_PER_BLOCK] == TableImage(k / INODES_PER_BLOCK, now);
    }
  }

  lemma {:induction false} OnlyRoot(t: V.Table, n: nat)
    requires 2 <= n <= |t| && V.InUse(t[1]) && V.Claims(t[1]) == []
    requires forall k :: 1 < k < |t| ==> !V.InUse(t[k])
    ensures V.Owned(t, n) == multiset{} && V.FreeSlots(t, n) == n - 2
  {
    if n > 2 {
      OnlyRoot(t, n - 1);
    } else {
      assert V.Owned(t, 1) == multiset{};
    }
  }

  /** A freshly formatted set passes the audit. */
  lemma NewMountable(s: Superblock, bitmap: seq<Image>, table: seq<Image>, now: u64)
    requires SuperValid(s, s.totalBlocks) && NewSet(s, bitmap, table, now)
    requires s.inodeCount == s.tableBlocks * INODES_PER_BLOCK && s.freeInodes == s.inodeCount - 2
    requires s.freeBlocks == s.checksumRegion - s.dataStart
    ensures Mountable(UsedIn(bitmap, s.totalBlocks), SlotsOf(table, s.inodeCount), s)
  {
    hide SlotsOf, UsedIn, V.DataUsed, V.MetaMarked, MarksReserved, TableImage;
    NewUsed(s, bitmap);
    NewSlots(table, s.inodeCount, now);
    var t := SlotsOf(table, s.inodeCount);
    RootSound(s, now);
    OnlyRoot(t, |t|);
  }

  lemma RootSound(s: Superblock, now: u64)
    ensures V.Sound(s, RootInode(now)) && Flat(RootInode(now).direct) == [] && KindOk(RootInode(now).mode)
  {
  }

  // ---- adytumfs_make ------------------------------------------------------

  /** What a format leaves on the device: both sets whole and equal, the picked slot 0, an audit that passes. */
  ghost predicate Formatted(view: Disk, d: nat, s: Superblock)
  {
    && SuperValid(s, s.totalBlocks) && s.activeSlot == 0 && s.formatVersion == FORMAT_VERSION
    && Pick(view, d, s.totalBlocks) == Some(s)
    && SetOf(view, d, s, 0) == SetOf(view, d, s, 1)
    && Raw(view, d, 0) == Raw(view, d, s.totalBlocks - 1) == Split(Pack(s))
    && s.freeBlocks == s.checksumRegion - s.dataStart
    && Mountable(UsedIn(SetOf(view, d, s, 0).bitmap, s.totalBlocks), SlotsOf(SetOf(view, d, s, 0).table, s.inodeCount),
      s)
  }

  lemma FormattedFrom(view: Disk, d: nat, want: map<nat, Image>, s: Superblock, bitmap: seq<Image>, table: seq<Image>,
      now: u64)
    requires SuperValid(s, s.totalBlocks) && s.activeSlot == 0 && s.formatVersion == FORMAT_VERSION
    requires Holds(view, d, want) && Planned(want, s, bitmap, table) && NewSet(s, bitmap, table, now)
    requires s.inodeCount == s.tableBlocks * INODES_PER_BLOCK && s.freeInodes == s.inodeCount - 2
    requires s.freeBlocks == s.checksumRegion - s.dataStart
    ensures Formatted(view, d, s)
  {
    hide Pack, Unpack, Split, Raw, SlotsOf, UsedIn, Holds, Planned, SetOf, BlockOf, Mountable;
    PlanReads(view, d, want, s, bitmap, table);
    NewMountable(s, bitmap, table, now);
    UnpackPack(s);
    PickActive(view, d, s.totalBlocks, s);
  }

  method WriteBitmaps(storage: Storage, d: nat, s: Superblock, ghost plan: map<nat, Image>)
    returns (ok: bool, ghost want: map<nat, Image>, ghost bitmap: seq<Image>)
    requires storage.Valid() && d in storage.sizes && s.totalBlocks == storage.sizes[d] / SECTORS_PER_BLOCK
    requires SuperValid(s, s.totalBlocks) && Holds(storage.View(), d, plan) && Planned(plan, s, [], [])
    modifies storage
    ensures storage.Valid() && storage.faults >= old(storage.faults) && (!ok ==> storage.faults > old(storage.faults))
    ensures ok ==> Holds(storage.View(), d, want) && Planned(want, s, bitmap, []) && |bitmap| == s.bitmapBlocks
    ensures ok ==> forall i :: 0 <= i < |bitmap| ==> MarksReserved(s, i, bitmap[i])
  {
    hide Good, Holds, Planned, MarksReserved;
    want, bitmap := plan, [];
    var index := 0;
    while index < s.bitmapBlocks
      invariant storage.Valid() && storage.faults >= old(storage.faults)
      invariant 0 <= index <= s.bitmapBlocks && |bitmap| == index
      invariant Holds(storage.View(), d, want) && Planned(want, s, bitmap, [])
      invariant forall i :: 0 <= i < |bitmap| ==> MarksReserved(s, i, bitmap[i])
    {
      var img := FillBitmap(s, index);
      var shadow := BitmapBase(s, 1) + index;
      ok := StoreTwins(storage, d, s.bitmapStart + index, shadow, img, want);
      if !ok {
        return;
      }
      PlanBitmap(want, s, bitmap, img, s.bitmapStart + index, shadow);
      want := want[s.bitmapStart + index := img][shadow := img];
      bitmap := bitmap + [img];
      index := index + 1;
    }
    ok := true;
  }

  method WriteTables(storage: Storage, d: nat, s: Superblock, now: u64, ghost plan: map<nat, Image>,
      ghost bitmap: seq<Image>)
    returns (ok: bool, ghost want: map<nat, Image>, ghost table: seq<Image>)
    requires storage.Valid() && d in storage.sizes && s.totalBlocks == storage.sizes[d] / SECTORS_PER_BLOCK
    requires SuperValid(s, s.totalBlocks) && Holds(storage.View(), d, plan) && Planned(plan, s, bitmap, [])
    modifies storage
    ensures storage.Valid() && storage.faults >= old(storage.faults) && (!ok ==> storage.faults > old(storage.faults))
    ensures ok ==> Holds(storage.View(), d, want) && Planned(want, s, bitmap, table) && |table| == s.tableBlocks
    ensures ok ==> forall i :: 0 <= i < |table| ==> table[i] == TableImage(i, now)
  {
    hide Good, Holds, Planned, TableImage;
    want, table := plan, [];
    var index := 0;
    while index < s.tableBlocks
      invariant storage.Valid() && storage.faults >= old(storage.faults)
      invariant 0 <= index <= s.tableBlocks && |table| == index
      invariant Holds(storage.View(), d, want) && Planned(want, s, bitmap, table)
      invariant forall i :: 0 <= i < |table| ==> table[i] == TableImage(i, now)
    {
      var img := TableImage(index, now);
      var shadow := TableBase(s, 1) + index;
      ok := StoreTwins(storage, d, s.tableStart + index, shadow, img, want);
      if !ok {
        return;
      }
      PlanTable(want, s, bitmap, table, img, s.tableStart + index, shadow);
      want := want[s.tableStart + index := img][shadow := img];
      table := table + [img];
      index := index + 1;
    }
    ok := true;
  }

  method WriteRegion(storage: Storage, d: nat, s: Superblock, ghost plan: map<nat, Image>, ghost bitmap: seq<Image>,
      ghost table: seq<Image>)
    returns (ok: bool, ghost want: map<nat, Image>)
    requires storage.Valid() && d in storage.sizes && s.totalBlocks == storage.sizes[d] / SECTORS_PER_BLOCK
    requires SuperValid(s, s.totalBlocks) && Holds(storage.View(), d, plan) && Planned(plan, s, bitmap, table)
    modifies storage
    ensures storage.Valid() && storage.faults >= old(storage.faults) && (!ok ==> storage.faults > old(storage.faults))
    ensures ok ==> Holds(storage.View(), d, want) && Planned(want, s, bitmap, table)
  {
    hide Good, Holds, Planned;
    want := plan;
    var block: nat := s.checksumRegion;
    while block < TailBase(s)
      invariant storage.Valid() && storage.faults >= old(storage.faults)
      invariant s.checksumRegion <= block <= TailBase(s)
      invariant Holds(storage.View(), d, want) && Planned(want, s, bitmap, table)
    {
      ok := StoreBlock(storage, d, block, Zeros(BLOCK_SIZE), want);
      if !ok {
        return;
      }
      PlanRegion(want, s, bitmap, table, block, Zeros(BLOCK_SIZE));
      want := want[block := Zeros(BLOCK_SIZE)];
      block := block + 1;
    }
    ok := true;
  }

  lemma PlanSupers(s: Superblock)
    requires SuperValid(s, s.totalBlocks)
    ensures Planned(map[0 := Pack(s)][s.totalBlocks - 1 := Pack(s)], s, [], [])
    ensures map[][0 := Pack(s)][s.totalBlocks - 1 := Pack(s)] == map[0 := Pack(s)][s.totalBlocks - 1 := Pack(s)]
  {
    hide Pack;
  }

  /**
    adytumfs_make, on a device of no blocks or at least three: a successful
    format leaves a flushed device that mounts as slot 0 with twin metadata
    sets and passes the audit.
   */
  method Make(storage: Storage, d: nat, now: u64) returns (ok: bool, ghost s: Option<Superblock>)
    requires storage.Valid() && d in storage.sizes
    requires var total := storage.sizes[d] / SECTORS_PER_BLOCK; total == 0 || total >= 3
    modifies storage
    ensures storage.Valid() && storage.faults >= old(storage.faults)
    ensures ok ==> s.Some? && s.value.totalBlocks == storage.sizes[d] / SECTORS_PER_BLOCK
    ensures ok ==> Formatted(storage.View(), d, s.value) && Flushed(storage.View(), storage.disk, d)
    ensures !ok && storage.faults == old(storage.faults) ==>
      var total := storage.sizes[d] / SECTORS_PER_BLOCK; !RoomFor(total) || TailFor(total) - DataStartFor(total) == 1
  {
    hide Good, Holds, Planned, Formatted, TailFor, DataStartFor, NewSuper, SuperValid, Pack, Settles, DirtyAt,
         MarksReserved, TableImage;
    ok, s := false, None;
    var total := storage.sizes[d] / SECTORS_PER_BLOCK;
    if !RoomFor(total) {
      return;
    }
    var span := TailFor(total) - DataStartFor(total);
    var region := SolveRegion(span);
    if span - region == 0 {
      SpanOne(span, region);
      return;
    }
    NewSuperValid(total, region);
    var super := NewSuper(total, TailFor(total) - region);
    NewSuperFields(total, TailFor(total) - region);
    s := Some(super);
    PlanSupers(super);
    ghost var want, bitmap, table := map[0 := Pack(super)][total - 1 := Pack(super)], [], [];
    NothingHeld(storage.View(), d);
    ok := StoreTwins(storage, d, 0, total - 1, Pack(super), map[]);
    if !ok {
      return;
    }
    ok, want, bitmap := WriteBitmaps(storage, d, super, want);
    if !ok {
      return;
    }
    ok, want, table := WriteTables(storage, d, super, now, want, bitmap);
    if !ok {
      return;
    }
    ok, want := WriteRegion(storage, d, super, want, bitmap, table);
    if !ok {
      return;
    }
    FormattedFrom(storage.View(), d, want, super, bitmap, table, now);
    ghost var stuck;
    ok, stuck := storage.Flush(d);
  }

  /** A formatted, flushed device of at most 256 bitmap blocks satisfies everything a mounted volume asks for. */
  lemma FormattedReady(sizes: map<nat, nat>, entries: seq<Entry>, disk: Disk, d: nat, s: Superblock)
    requires Good(sizes, entries, disk) && d in sizes && sizes[d] / SECTORS_PER_BLOCK == s.totalBlocks
             && s.bitmapBlocks <= 256
    requires Formatted(ViewOf(entries, disk), d, s) && Flushed(ViewOf(entries, disk), disk, d)
    ensures Openable(disk, d, s)
  {
    hide Good, Pack, Unpack, Raw, Split, Shaped, Mountable, Pick, Flushed, SetOf, OnDisk, SuperValid, BlockOf;
    AllOnDisk(sizes, entries, disk, d, s.totalBlocks);
    LastInside(s, s.totalBlocks);
    FormattedSlot(sizes, entries, disk, d, s, 0);
    FormattedSlot(sizes, entries, disk, d, s, s.totalBlocks - 1);
  }

  lemma AllOnDisk(sizes: map<nat, nat>, entries: seq<Entry>, disk: Disk, d: nat, total: nat)
    requires Good(sizes, entries, disk) && d in sizes && total <= sizes[d] / SECTORS_PER_BLOCK
             && Flushed(ViewOf(entries, disk), disk, d)
    ensures forall b: nat :: b < total ==> OnDisk(disk, d, b) && OnDisk(ViewOf(entries, disk), d, b)
  {
    hide Good, OnDisk;
    FlushedKeys(ViewOf(entries, disk), disk, d);
    SameReach(ViewOf(entries, disk), disk, d);
    forall b: nat | b < total
      ensures OnDisk(disk, d, b) && OnDisk(ViewOf(entries, disk), d, b)
    {
      InRange(sizes, entries, disk, d, b);
    }
  }

  /** Either superblock of a formatted device, read from the device itself. */
  lemma FormattedSlot(sizes: map<nat, nat>, entries: seq<Entry>, disk: Disk, d: nat, s: Superblock, b: nat)
    requires Good(sizes, entries, disk) && d in sizes && sizes[d] / SECTORS_PER_BLOCK == s.totalBlocks
    requires Formatted(ViewOf(entries, disk), d, s) && Flushed(ViewOf(entries, disk), disk, d)
    requires b < s.totalBlocks && (b == 0 || b == s.totalBlocks - 1)
    ensures Unpack(BlockOf(disk, d, b)) == Some(s.(activeSlot := 0)) && Shaped(Raw(disk, d, b))
  {
    hide Good, Pack, Unpack, Raw, Split, Shaped, Flushed, OnDisk, Formatted, ViewOf, Join;
    FormattedParts(ViewOf(entries, disk), d, s);
    AllOnDisk(sizes, entries, disk, d, s.totalBlocks);
    FlushedRaw(ViewOf(entries, disk), disk, d);
    PackShaped(s);
    UnpackPack(s);
    JoinSplit(Pack(s));
  }

  lemma FormattedParts(view: Disk, d: nat, s: Superblock)
    requires Formatted(view, d, s)
    ensures s.activeSlot == 0 && s.formatVersion == FORMAT_VERSION && s.blockSize == BLOCK_SIZE && s.totalBlocks > 0
    ensures Raw(view, d, 0) == Raw(view, d, s.totalBlocks - 1) == Split(Pack(s))
  {
    hide Pack, Split, Raw, Pick, SetOf, Mountable;
  }

  lemma NothingHeld(view: Disk, d: nat)
    ensures Holds(view, d, map[])
  {
  }

  /** Only a span of one block is swallowed whole by its checksum region. */
  lemma SpanOne(span: nat, r: nat)
    requires span > 0 && r == span && Enough(span, r) && forall q :: 1 <= q < r ==> !Enough(span, q)
    ensures span == 1
  {
    if span > 1 {
      assert Enough(span, span - 1);
    }
  }

  lemma NewSuperFields(total: u64, region: u64)
    requires total < 0x2000_0000
    ensures var s := NewSuper(total, region);
      && s.inodeCount == s.tableBlocks * INODES_PER_BLOCK && s.freeInodes == s.inodeCount - 2
      && s.activeSlot == 0 && s.formatVersion == FORMAT_VERSION
  {
  }
}
