/**
  What the committed generation owns on the device, and why nothing a window
  writes can disturb it (src/fs/adytumfs_volume.c, src/fs/adytumfs_super.c).
 */
module Durability {
  import opened Bytes
  import opened BlockCache
  import opened Blocks
  import opened Superblocks
  import opened Checksums

  // ---- geometry -----------------------------------------------------------

  /** A volume that passes adytumfs_super_valid, fills its device, and whose bitmap indices fit a byte. */
  ghost predicate Geometry(s: Superblock, m: Disk, d: nat)
  {
    && SuperValid(s, s.totalBlocks)
    && s.formatVersion == FORMAT_VERSION
    && s.activeSlot <= 1
    && s.bitmapBlocks <= 256
    && (forall b :: 0 <= b < s.totalBlocks ==> OnDisk(m, d, b))
  }

  predicate IsData(s: Superblock, b: nat)
  {
    s.dataStart <= b < s.checksumRegion
  }

  predicate IsRegion(s: Superblock, b: nat)
  {
    s.checksumRegion <= b < TailBase(s)
  }

  predicate InSet(s: Superblock, slot: nat, b: nat)
  {
    || BitmapBase(s, slot) <= b < BitmapBase(s, slot) + s.bitmapBlocks
    || TableBase(s, slot) <= b < TableBase(s, slot) + s.tableBlocks
  }

  lemma RegionsApart(s: Superblock, b: nat)
    requires SuperValid(s, s.totalBlocks)
    ensures InSet(s, 0, b) ==> 0 < b < s.dataStart
    ensures InSet(s, 1, b) ==> TailBase(s) <= b < s.totalBlocks - 1
    ensures IsData(s, b) ==> 0 < b < TailBase(s)
    ensures IsRegion(s, b) ==> 0 < b < s.totalBlocks - 1
    ensures s.dataStart < s.checksumRegion <= TailBase(s) < s.totalBlocks - 1
  {
  }

  // ---- metadata sets ------------------------------------------------------

  datatype MetaSet = MetaSet(bitmap: seq<Image>, table: seq<Image>)

  function Images(m: Disk, d: nat, base: nat, n: nat): (imgs: seq<Image>)
    ensures |imgs| == n
    ensures forall i :: 0 <= i < n ==> imgs[i] == BlockOf(m, d, base + i)
  {
    seq<Image>(n, i requires 0 <= i < n => BlockOf(m, d, base + i))
  }

  function SetOf(m: Disk, d: nat, s: Superblock, slot: nat): MetaSet
  {
    if !SuperValid(s, s.totalBlocks) then MetaSet([], [])
    else MetaSet(Images(m, d, BitmapBase(s, slot), s.bitmapBlocks), Images(m, d, TableBase(s, slot), s.tableBlocks))
  }

  predicate BitIn(bitmap: seq<Image>, b: nat)
  {
    b / BITS_PER_BLOCK < |bitmap| && BitAt(bitmap[b / BITS_PER_BLOCK], b % BITS_PER_BLOCK)
  }

  function UsedIn(bitmap: seq<Image>, total: nat): set<nat>
  {
    set b | 0 <= b < total && BitIn(bitmap, b)
  }

  // ---- the committed generation -------------------------------------------

  function CommittedUsed(c: Disk, d: nat, s: Superblock): set<nat>
  {
    UsedIn(SetOf(c, d, s, s.activeSlot).bitmap, s.totalBlocks)
  }

  /** A block the generation committed as `s` on image `c` still needs, byte for byte. */
  ghost predicate Frozen(c: Disk, d: nat, s: Superblock, b: nat)
  {
    || b == SuperSlot(s, s.activeSlot)
    || InSet(s, s.activeSlot, b)
    || (IsData(s, b) && b in CommittedUsed(c, d, s))
  }

  function RegionBlock(s: Superblock, b: nat): nat
    requires s.dataStart <= b
  {
    s.checksumRegion + (b - s.dataStart) / CHECKSUMS_PER_BLOCK
  }

  function RegionOffset(s: Superblock, b: nat): nat
    requires s.dataStart <= b
  {
    (b - s.dataStart) % CHECKSUMS_PER_BLOCK * 4
  }

  /** The sector holding the checksum entry of data block `b`. */
  function SealLoc(d: nat, s: Superblock, b: nat): Loc
    requires s.dataStart <= b
  {
    Sec(d, RegionBlock(s, b), RegionOffset(s, b) / SECTOR_SIZE)
  }

  /** The four stored checksum bytes of data block `b`. */
  function SealOf(m: Disk, d: nat, s: Superblock, b: nat): seq<u8>
    requires s.dataStart <= b
  {
    var o := RegionOffset(s, b) % SECTOR_SIZE;
    if SealLoc(d, s, b) in m then m[SealLoc(d, s, b)][o..o + 4] else []
  }

  lemma SealInRegion(s: Superblock, b: nat)
    requires SuperValid(s, s.totalBlocks) && IsData(s, b)
    ensures IsRegion(s, RegionBlock(s, b))
    ensures RegionOffset(s, b) % 4 == 0 && RegionOffset(s, b) + 4 <= BLOCK_SIZE
  {
  }

  /**
    Device contents from which the generation `s` would be mounted whole: its
    superblock, bitmap and table, every data block its bitmap holds and their
    checksum entries are those of `c`, and the other superblock slot loses.
   */
  ghost predicate Safe(h: Disk, c: Disk, d: nat, s: Superblock)
  {
    && h.Keys == c.Keys
    && (forall b :: Frozen(c, d, s, b) ==> Raw(h, d, b) == Raw(c, d, b))
    && (forall b :: IsData(s, b) && b in CommittedUsed(c, d, s) ==> SealOf(h, d, s, b) == SealOf(c, d, s, b))
    && Shaped(Raw(h, d, OtherSlot(s)))
    && Outranked(BlockOf(h, d, OtherSlot(s)), s)
  }

  /** Mounting safe contents yields exactly the committed generation. */
  lemma SafeMounts(h: Disk, c: Disk, d: nat, s: Superblock)
    requires Geometry(s, c, d) && Safe(h, c, d, s)
    requires Unpack(BlockOf(c, d, SuperSlot(s, s.activeSlot))) == Some(s.(activeSlot := 0))
    ensures Pick(h, d, s.totalBlocks) == Some(s)
    ensures SetOf(h, d, s, s.activeSlot) == SetOf(c, d, s, s.activeSlot)
    ensures forall b :: IsData(s, b) && b in CommittedUsed(c, d, s) ==>
      BlockOf(h, d, b) == BlockOf(c, d, b) && SealOf(h, d, s, b) == SealOf(c, d, s, b)
  {
    hide Unpack, Pick, Outranked, Shaped, CommittedUsed;
    var at := SuperSlot(s, s.activeSlot);
    assert Frozen(c, d, s, at);
    PickActive(h, d, s.totalBlocks, s);
    SafeSet(h, c, d, s);
    forall b | IsData(s, b) && b in CommittedUsed(c, d, s)
      ensures BlockOf(h, d, b) == BlockOf(c, d, b)
    {
      assert Frozen(c, d, s, b);
    }
  }

  lemma SafeSet(h: Disk, c: Disk, d: nat, s: Superblock)
    requires SuperValid(s, s.totalBlocks) && Safe(h, c, d, s)
    ensures SetOf(h, d, s, s.activeSlot) == SetOf(c, d, s, s.activeSlot)
  {
    hide Outranked, Shaped, CommittedUsed, SetOf, Raw, OnDisk, SuperValid;
    SameReach(h, c, d);
    forall b: nat | InSet(s, s.activeSlot, b)
      ensures BlockOf(h, d, b) == BlockOf(c, d, b)
    {
      assert Frozen(c, d, s, b);
    }
    SameSet(h, c, d, s, s, s.activeSlot);
  }

  /** The checksum entry is the same four bytes in the region block's image. */
  lemma SealBytes(m: Disk, d: nat, s: Superblock, b: nat)
    requires SuperValid(s, s.totalBlocks) && IsData(s, b) && OnDisk(m, d, RegionBlock(s, b))
    ensures var o := RegionOffset(s, b);
            o + 4 <= BLOCK_SIZE && SealOf(m, d, s, b) == BlockOf(m, d, RegionBlock(s, b))[o..o + 4]
  {
    SealInRegion(s, b);
    JoinField(Raw(m, d, RegionBlock(s, b)), RegionOffset(s, b));
  }

  /** Whatever has landed when cached pages are cut off, a safe device stays safe. */
  lemma SafeMix(h: Disk, disk: Disk, view: Disk, c: Disk, d: nat, s: Superblock)
    requires Geometry(s, c, d) && Safe(disk, c, d, s) && Safe(view, c, d, s)
    requires Raw(disk, d, OtherSlot(s)) == Raw(view, d, OtherSlot(s))
    requires PageMix(h, disk, view)
    ensures Safe(h, c, d, s)
    ensures Raw(h, d, OtherSlot(s)) == Raw(view, d, OtherSlot(s))
  {
    hide Outranked, Shaped, CommittedUsed, PageMix;
    var at := OtherSlot(s);
    MixSame(h, disk, view, d, at);
    forall b: nat | Frozen(c, d, s, b)
      ensures Raw(h, d, b) == Raw(c, d, b)
    {
      RegionsApart(s, b);
      MixSame(h, disk, view, d, b);
    }
    forall b: nat | IsData(s, b) && b in CommittedUsed(c, d, s)
      ensures SealOf(h, d, s, b) == SealOf(c, d, s, b)
    {
      MixSeal(h, disk, view, d, s, b);
    }
    MixKeys(h, disk, view);
  }

  lemma SameReach(h: Disk, c: Disk, d: nat)
    requires h.Keys == c.Keys
    ensures forall b :: OnDisk(h, d, b) == OnDisk(c, d, b)
  {
  }

  lemma MixKeys(h: Disk, a: Disk, b: Disk)
    requires PageMix(h, a, b)
    ensures h.Keys == a.Keys == b.Keys
  {
  }

  lemma MixSeal(h: Disk, a: Disk, b: Disk, d: nat, s: Superblock, x: nat)
    requires PageMix(h, a, b) && s.dataStart <= x
    requires SealOf(a, d, s, x) == SealOf(b, d, s, x)
    ensures SealOf(h, d, s, x) == SealOf(a, d, s, x)
  {
  }

  /** Replacing a block nobody committed keeps the committed generation mountable. */
  lemma SafeWrite(view: Disk, c: Disk, d: nat, s: Superblock, b: nat, img: Image)
    requires Geometry(s, c, d) && Safe(view, c, d, s)
    requires b < s.totalBlocks && !Frozen(c, d, s, b) && b != OtherSlot(s)
    requires forall x: nat :: IsData(s, x) && x in CommittedUsed(c, d, s) && RegionBlock(s, x) == b ==>
      KeepsSeal(s, x, img, BlockOf(view, d, b))
    ensures var v := Overlay(view, d, SECTORS_PER_BLOCK * b, Split(img));
            && Safe(v, c, d, s)
            && Raw(v, d, OtherSlot(s)) == Raw(view, d, OtherSlot(s))
  {
    hide Outranked, Shaped, CommittedUsed, SuperValid, Overlay;
    var v := Overlay(view, d, SECTORS_PER_BLOCK * b, Split(img));
    SameReach(view, c, d);
    OverlayBlock(view, d, b, img);
    SameReach(v, c, d);
    forall x: nat | IsData(s, x) && x in CommittedUsed(c, d, s)
      ensures SealOf(v, d, s, x) == SealOf(view, d, s, x)
    {
      SealInRegion(s, x);
      RegionsApart(s, RegionBlock(s, x));
      SealBytes(v, d, s, x);
      SealBytes(view, d, s, x);
    }
  }

  /** `img` and `was` store the same checksum for data block `x`. */
  ghost predicate KeepsSeal(s: Superblock, x: nat, img: Image, was: Image)
    requires s.dataStart <= x
  {
    var o := RegionOffset(s, x);
    o + 4 <= BLOCK_SIZE && img[o..o + 4] == was[o..o + 4]
  }

  /** Contents that differ only in data block `b`. */
  ghost predicate AgreeBut(v: Disk, w: Disk, d: nat, s: Superblock, b: nat)
  {
    && w.Keys == v.Keys
    && (forall e: nat :: e < s.totalBlocks && e != b ==> Raw(w, d, e) == Raw(v, d, e))
  }

  lemma AgreeSeals(v: Disk, w: Disk, d: nat, s: Superblock, b: nat)
    requires Geometry(s, v, d) && IsData(s, b) && AgreeBut(v, w, d, s, b)
    ensures forall x: nat :: IsData(s, x) ==> SealOf(w, d, s, x) == SealOf(v, d, s, x)
  {
    SameReach(v, w, d);
    forall x: nat | IsData(s, x)
      ensures SealOf(w, d, s, x) == SealOf(v, d, s, x)
    {
      SealInRegion(s, x);
      var r := RegionBlock(s, x);
      RegionsApart(s, r);
      SealBytes(w, d, s, x);
      SealBytes(v, d, s, x);
    }
  }

  lemma AgreeData(v: Disk, w: Disk, d: nat, s: Superblock, b: nat)
    requires Geometry(s, v, d) && IsData(s, b) && AgreeBut(v, w, d, s, b)
    ensures DataOnly(v, w, d, s, {b})
  {
    hide SealOf, SetOf, Raw, OnDisk, SuperValid;
    AgreeSeals(v, w, d, s, b);
    SameReach(v, w, d);
    RegionsApart(s, b);
    forall e: nat | InSet(s, Other(s.activeSlot), e)
      ensures BlockOf(w, d, e) == BlockOf(v, d, e)
    {
      RegionsApart(s, e);
    }
    SameSet(w, v, d, s, s, Other(s.activeSlot));
    forall x: nat | IsData(s, x) && x != b
      ensures BlockOf(w, d, x) == BlockOf(v, d, x)
    {
      RegionsApart(s, x);
    }
  }

  /** Contents that differ only in an uncommitted data block are equally safe. */
  lemma SafeAgree(v: Disk, w: Disk, c: Disk, d: nat, s: Superblock, b: nat)
    requires Geometry(s, c, d) && Safe(v, c, d, s) && AgreeBut(v, w, d, s, b)
    requires IsData(s, b) && b !in CommittedUsed(c, d, s)
    ensures Safe(w, c, d, s)
    ensures Raw(w, d, OtherSlot(s)) == Raw(v, d, OtherSlot(s))
  {
    hide Outranked, Shaped, CommittedUsed, SealOf, Raw, OnDisk, SuperValid;
    SameReach(v, c, d);
    assert Geometry(s, v, d);
    AgreeSeals(v, w, d, s, b);
    RegionsApart(s, b);
    SlotInRange(s, c, d);
    SameReach(v, w, d);
    forall e: nat | Frozen(c, d, s, e)
      ensures Raw(w, d, e) == Raw(c, d, e)
    {
      RegionsApart(s, e);
    }
  }

  /** From `v` to `w` nothing changed but data blocks in `touched` and their checksum entries. */
  ghost predicate DataOnly(v: Disk, w: Disk, d: nat, s: Superblock, touched: set<nat>)
  {
    && v.Keys == w.Keys
    && SetOf(w, d, s, Other(s.activeSlot)) == SetOf(v, d, s, Other(s.activeSlot))
    && (forall x: nat :: IsData(s, x) && x !in touched ==>
          BlockOf(w, d, x) == BlockOf(v, d, x) && SealOf(w, d, s, x) == SealOf(v, d, s, x))
  }

  lemma DataOnlyTrans(u: Disk, v: Disk, w: Disk, d: nat, s: Superblock, a: set<nat>, b: set<nat>)
    requires DataOnly(u, v, d, s, a) && DataOnly(v, w, d, s, b)
    ensures DataOnly(u, w, d, s, a + b)
  {
  }

  // ---- an open window over the device -------------------------------------

  function OtherSlot(s: Superblock): nat
  {
    SuperSlot(s, Other(s.activeSlot))
  }

  /**
    Between commits: the device, the cached view and every device state since
    the window opened are safe for the committed generation.
   */
  ghost predicate Durable(view: Disk, disk: Disk, history: seq<Disk>, start: nat, c: Disk, d: nat, s: Superblock)
  {
    && Geometry(s, c, d)
    && Unpack(BlockOf(c, d, SuperSlot(s, s.activeSlot))) == Some(s.(activeSlot := 0))
    && Shaped(Raw(c, d, SuperSlot(s, s.activeSlot)))
    && Safe(disk, c, d, s)
    && Safe(view, c, d, s)
    && Raw(disk, d, OtherSlot(s)) == Raw(view, d, OtherSlot(s))
    && start < |history|
    && (forall k :: start <= k < |history| ==> Safe(history[k], c, d, s))
  }

  /** A cache operation that lands only view pages, then leaves a safe view, keeps the window durable. */
  lemma DurableLands(a: Snap, b: Snap, start: nat, c: Disk, d: nat, s: Superblock)
    requires Durable(ViewOf(a.entries, a.disk), a.disk, a.history, start, c, d, s)
    requires Lands(a, b)
    requires Safe(ViewOf(b.entries, b.disk), c, d, s)
    requires Raw(ViewOf(b.entries, b.disk), d, OtherSlot(s)) == Raw(ViewOf(a.entries, a.disk), d, OtherSlot(s))
    ensures Durable(ViewOf(b.entries, b.disk), b.disk, b.history, start, c, d, s)
  {
    hide Geometry, Safe, Unpack, PageMix, SuperValid, Shaped;
    var view := ViewOf(a.entries, a.disk);
    GeometryValid(s, c, d);
    SafeMix(b.disk, a.disk, view, c, d, s);
    forall k | start <= k < |b.history|
      ensures Safe(b.history[k], c, d, s)
    {
      if k < |a.history| {
        assert b.history[k] == b.history[..|a.history|][k];
      } else {
        SafeMix(b.history[k], a.disk, view, c, d, s);
      }
    }
  }

  lemma GeometryValid(s: Superblock, m: Disk, d: nat)
    requires Geometry(s, m, d)
    ensures SuperValid(s, s.totalBlocks)
  {
  }

  // ---- the flip -----------------------------------------------------------

  /** The superblock a commit writes: one generation on, naming the other set. */
  function Next(s: Superblock): Superblock
  {
    s.(generation := (s.generation + 1) % U64_LIMIT, activeSlot := Other(s.activeSlot))
  }

  /** Only blocks of the inactive metadata set differ. */
  ghost predicate MetaOnly(v: Disk, w: Disk, d: nat, s: Superblock)
  {
    && w.Keys == v.Keys
    && (forall e: nat :: e < s.totalBlocks && !InSet(s, Other(s.activeSlot), e) ==> Raw(w, d, e) == Raw(v, d, e))
  }

  /** Device contents a volume of generation `s` can be opened on. */
  ghost predicate Openable(h: Disk, d: nat, s: Superblock)
  {
    && Geometry(s, h, d)
    && Unpack(BlockOf(h, d, SuperSlot(s, s.activeSlot))) == Some(s.(activeSlot := 0))
    && Shaped(Raw(h, d, SuperSlot(s, s.activeSlot)))
    && Shaped(Raw(h, d, OtherSlot(s)))
    && Outranked(BlockOf(h, d, OtherSlot(s)), s)
  }

  /** Safe contents can be opened again as the same generation. */
  lemma SafeOpens(h: Disk, c: Disk, d: nat, s: Superblock)
    requires Geometry(s, c, d) && Safe(h, c, d, s)
    requires Unpack(BlockOf(c, d, SuperSlot(s, s.activeSlot))) == Some(s.(activeSlot := 0))
    requires Shaped(Raw(c, d, SuperSlot(s, s.activeSlot)))
    ensures Openable(h, d, s)
  {
    hide Unpack, Shaped, Outranked, BlockOf, Raw, SuperValid, OnDisk;
    SafeActive(h, c, d, s);
    SafeSlot(h, c, d, s);
    SameReach(h, c, d);
  }

  /**
    Device contents that mount as the new generation, whole: its superblock is
    picked, its metadata set is `want`, every data block and checksum entry is
    as the window left it in `view`, and a volume can be opened on it.
   */
  ghost predicate Published(h: Disk, view: Disk, d: nat, s: Superblock, next: Superblock, bitmap: seq<Image>,
      table: seq<Image>)
  {
    && h.Keys == view.Keys
    && Pick(h, d, s.totalBlocks) == Some(next)
    && SetOf(h, d, next, next.activeSlot) == MetaSet(bitmap, table)
    && (forall x: nat :: IsData(s, x) ==>
          BlockOf(h, d, x) == BlockOf(view, d, x) && SealOf(h, d, s, x) == SealOf(view, d, s, x))
    && Openable(h, d, next)
  }

  /** `s` with other counters, as the window carries it. */
  predicate SameGeneration(s: Superblock, t: Superblock)
  {
    t == s.(freeBlocks := t.freeBlocks, freeInodes := t.freeInodes)
  }

  lemma SealsFromRegion(v: Disk, w: Disk, d: nat, s: Superblock)
    requires Geometry(s, v, d) && w.Keys == v.Keys
    requires forall e: nat :: IsRegion(s, e) ==> Raw(w, d, e) == Raw(v, d, e)
    ensures forall x: nat :: IsData(s, x) ==> SealOf(w, d, s, x) == SealOf(v, d, s, x)
  {
    SameReach(v, w, d);
    forall x: nat | IsData(s, x)
      ensures SealOf(w, d, s, x) == SealOf(v, d, s, x)
    {
      SealInRegion(s, x);
      RegionsApart(s, RegionBlock(s, x));
      SealBytes(w, d, s, x);
      SealBytes(v, d, s, x);
    }
  }

  /** `h` is `f` outside the flip slot `f` leaves to the next superblock. */
  ghost predicate OnlyFlip(h: Disk, f: Disk, d: nat, s: Superblock)
  {
    && h.Keys == f.Keys
    && (forall e: nat :: e < s.totalBlocks && e != OtherSlot(s) ==> Raw(h, d, e) == Raw(f, d, e))
  }

  /** Until the new superblock is whole, the old generation still mounts. */
  lemma FlipUnsound(h: Disk, f: Disk, c: Disk, d: nat, s: Superblock)
    requires Geometry(s, c, d) && Safe(f, c, d, s) && OnlyFlip(h, f, d, s)
    requires Shaped(Raw(h, d, OtherSlot(s))) && Outranked(BlockOf(h, d, OtherSlot(s)), s)
    ensures Safe(h, c, d, s)
  {
    SameReach(f, c, d);
    SealsFromRegion(f, h, d, s) by {
      forall e: nat | IsRegion(s, e)
        ensures Raw(h, d, e) == Raw(f, d, e)
      {
        RegionsApart(s, e);
      }
    }
    hide Outranked, Shaped, CommittedUsed, SealOf;
    forall e: nat | Frozen(c, d, s, e)
      ensures Raw(h, d, e) == Raw(c, d, e)
    {
      RegionsApart(s, e);
    }
  }

  /** Once the flip slot holds the new superblock whole, the new generation mounts with everything landed. */
  lemma FlipWhole(h: Disk, f: Disk, view: Disk, c: Disk, d: nat, s: Superblock, t: Superblock)
    requires Geometry(s, c, d) && Safe(f, c, d, s) && OnlyFlip(h, f, d, s) && MetaOnly(view, f, d, s)
    requires SameGeneration(s, t) && t.generation + 1 < U64_LIMIT
    requires Unpack(BlockOf(c, d, SuperSlot(s, s.activeSlot))) == Some(s.(activeSlot := 0))
    requires Shaped(Raw(c, d, SuperSlot(s, s.activeSlot))) && Shaped(Raw(h, d, OtherSlot(s)))
    requires BlockOf(h, d, OtherSlot(s)) == Pack(Next(t))
    ensures var want := SetOf(f, d, s, Other(s.activeSlot));
            Published(h, view, d, s, Next(t), want.bitmap, want.table)
  {
    hide Pack, Unpack, Safe, BlockOf, SealOf, Pick, SetOf, Raw, Shaped, Outranked, OnDisk;
    var next := Next(t);
    UnpackPack(next);
    SafeActive(f, c, d, s);
    FlipBlocks(h, f, c, d, s);
    SlotInRange(s, c, d);
    assert SuperValid(next, next.totalBlocks);
    SlotsAfter(h, f, c, d, s, next);
    PickActive(h, d, s.totalBlocks, next);
    FlipData(h, f, view, c, d, s);
    FlipSet(h, f, c, d, s, next);
    SameReach(h, c, d);
  }

  lemma FlipSet(h: Disk, f: Disk, c: Disk, d: nat, s: Superblock, next: Superblock)
    requires Geometry(s, c, d) && f.Keys == c.Keys && OnlyFlip(h, f, d, s) && SuperValid(next, next.totalBlocks)
    requires next.totalBlocks == s.totalBlocks && next.bitmapBlocks == s.bitmapBlocks
             && next.tableBlocks == s.tableBlocks
    requires next.activeSlot == Other(s.activeSlot)
    ensures SetOf(h, d, next, next.activeSlot) == SetOf(f, d, s, Other(s.activeSlot))
  {
    hide BlockOf, SetOf;
    FlipBlocks(h, f, c, d, s);
    forall e: nat | InSet(s, Other(s.activeSlot), e)
      ensures BlockOf(h, d, e) == BlockOf(f, d, e)
    {
      RegionsApart(s, e);
    }
    SameSet(h, f, d, next, s, Other(s.activeSlot));
  }

  lemma SafeActive(f: Disk, c: Disk, d: nat, s: Superblock)
    requires Safe(f, c, d, s)
    ensures Raw(f, d, SuperSlot(s, s.activeSlot)) == Raw(c, d, SuperSlot(s, s.activeSlot))
    ensures BlockOf(f, d, SuperSlot(s, s.activeSlot)) == BlockOf(c, d, SuperSlot(s, s.activeSlot))
    ensures f.Keys == c.Keys
  {
    hide Outranked, Shaped, CommittedUsed;
    assert Frozen(c, d, s, SuperSlot(s, s.activeSlot));
  }

  lemma FlipBlocks(h: Disk, f: Disk, c: Disk, d: nat, s: Superblock)
    requires Geometry(s, c, d) && f.Keys == c.Keys && OnlyFlip(h, f, d, s)
    ensures forall e: nat :: e < s.totalBlocks && e != OtherSlot(s) ==> BlockOf(h, d, e) == BlockOf(f, d, e)
  {
  }

  lemma FlipData(h: Disk, f: Disk, view: Disk, c: Disk, d: nat, s: Superblock)
    requires Geometry(s, c, d) && f.Keys == c.Keys && OnlyFlip(h, f, d, s) && MetaOnly(view, f, d, s)
    ensures forall x: nat :: IsData(s, x) ==>
      BlockOf(h, d, x) == BlockOf(view, d, x) && SealOf(h, d, s, x) == SealOf(view, d, s, x)
  {
    SameReach(view, c, d);
    forall e: nat | IsRegion(s, e) || IsData(s, e)
      ensures Raw(h, d, e) == Raw(view, d, e) && BlockOf(h, d, e) == BlockOf(view, d, e)
    {
      RegionsApart(s, e);
    }
    SealsFromRegion(view, h, d, s);
  }

  /** What the two superblock slots hold while the flip lands. */
  ghost predicate Flipping(a: Disk, b: Disk, f: Disk, d: nat, s: Superblock, t: Superblock)
  {
    && a.Keys == b.Keys == f.Keys
    && (forall e: nat :: e < s.totalBlocks ==> Raw(a, d, e) == Raw(f, d, e))
    && (forall e: nat :: e < s.totalBlocks && e != OtherSlot(s) ==> Raw(b, d, e) == Raw(f, d, e))
    && Raw(b, d, OtherSlot(s)) == Split(Pack(Next(t)))
  }

  /** Every device state while the flip lands mounts as the old generation or as the new one, whole. */
  lemma FlipOutcome(h: Disk, a: Disk, b: Disk, f: Disk, view: Disk, c: Disk, d: nat, s: Superblock, t: Superblock)
    requires Geometry(s, c, d) && Safe(f, c, d, s) && MetaOnly(view, f, d, s)
    requires SameGeneration(s, t) && t.generation + 1 < U64_LIMIT
    requires Unpack(BlockOf(c, d, SuperSlot(s, s.activeSlot))) == Some(s.(activeSlot := 0))
    requires Shaped(Raw(c, d, SuperSlot(s, s.activeSlot)))
    requires Flipping(a, b, f, d, s, t) && PageMix(h, a, b)
    ensures OnlyFlip(h, f, d, s) && Shaped(Raw(h, d, OtherSlot(s)))
    ensures var want := SetOf(f, d, s, Other(s.activeSlot));
            Safe(h, c, d, s) || Published(h, view, d, s, Next(t), want.bitmap, want.table)
    ensures StoredCrc(Raw(h, d, OtherSlot(s))) != Crc32c(SuperBody(Next(t))) ==> Safe(h, c, d, s)
  {
    hide Pack, Unpack, PageMix, Published, Crc32c, SuperBody, Safe, FromLe, Shaped;
    var flip, next := OtherSlot(s), Next(t);
    FlipReach(h, a, b, f, c, d, s, t);
    SafeSlot(f, c, d, s);
    var cut := MixPrefix(h, a, b, d, flip);
    var was := Raw(f, d, flip);
    if cut == 0 {
      assert Raw(h, d, flip) == was;
      FlipUnsound(h, f, c, d, s);
    } else {
      TornFlip(was, next, cut);
      PackShaped(next);
      if Unpack(BlockOf(h, d, flip)).None? {
        FlipUnsound(h, f, c, d, s);
      } else {
        FlipWhole(h, f, view, c, d, s, t);
        JoinInjective(Raw(h, d, flip), next);
      }
    }
  }

  /** A block that reads as the packed superblock carries its checksum. */
  lemma JoinInjective(ss: seq<Sector>, next: Superblock)
    requires |ss| == SECTORS_PER_BLOCK && Join(ss) == Pack(next)
    ensures StoredCrc(ss) == Crc32c(SuperBody(next))
  {
    hide Crc32c, SuperBody;
    var img := Pack(next);
    assert ss[7][508..] == img[CHECKSUM_OFFSET..];
    assert img[CHECKSUM_OFFSET..] == Le(Crc32c(SuperBody(next)), 4);
    Pow256Values();
    LeRoundTrip(Crc32c(SuperBody(next)), 4);
  }

  lemma SafeSlot(f: Disk, c: Disk, d: nat, s: Superblock)
    requires Safe(f, c, d, s)
    ensures Shaped(Raw(f, d, OtherSlot(s))) && Outranked(BlockOf(f, d, OtherSlot(s)), s) && f.Keys == c.Keys
  {
    hide Shaped, Outranked;
  }

  lemma FlipReach(h: Disk, a: Disk, b: Disk, f: Disk, c: Disk, d: nat, s: Superblock, t: Superblock)
    requires Geometry(s, c, d) && Safe(f, c, d, s) && t.generation + 1 < U64_LIMIT
    requires Flipping(a, b, f, d, s, t) && PageMix(h, a, b)
    ensures OnlyFlip(h, f, d, s) && OnDisk(a, d, OtherSlot(s)) && OnDisk(h, d, OtherSlot(s))
            && OtherSlot(s) < s.totalBlocks
  {
    hide PageMix, Safe, Pack;
    SafeSlot(f, c, d, s);
    MixKeys(h, a, b);
    SameReach(a, c, d);
    SameReach(h, c, d);
    forall e: nat | e < s.totalBlocks && e != OtherSlot(s)
      ensures Raw(h, d, e) == Raw(f, d, e)
    {
      MixSame(h, a, b, d, e);
    }
  }

  /** A crash point of a commit: the old generation whole, or the new one whole. */
  ghost predicate CrashPoint(h: Disk, view: Disk, c: Disk, d: nat, s: Superblock, next: Superblock, want: MetaSet)
  {
    Safe(h, c, d, s) || Published(h, view, d, s, next, want.bitmap, want.table)
  }

  ghost predicate CrashPoints(from: nat, history: seq<Disk>, view: Disk, c: Disk, d: nat, s: Superblock,
      next: Superblock, want: MetaSet)
  {
    forall k :: from <= k < |history| ==> CrashPoint(history[k], view, c, d, s, next, want)
  }

  /** On the volume's device the cache holds nothing newer than the device. */
  ghost predicate Flushed(view: Disk, disk: Disk, d: nat)
  {
    view.Keys == disk.Keys && forall loc :: loc in disk && loc.dev == d ==> disk[loc] == view[loc]
  }

  lemma FlushedRaw(view: Disk, disk: Disk, d: nat)
    requires Flushed(view, disk, d)
    ensures forall e: nat :: Raw(disk, d, e) == Raw(view, d, e)
  {
    SameReach(disk, view, d);
    forall e: nat
      ensures Raw(disk, d, e) == Raw(view, d, e)
    {
      if OnDisk(disk, d, e) {
        SameRaw(disk, view, d, e);
      }
    }
  }

  /** After the flip slot has been written in the cache, before it lands. */
  lemma FlipStart(a: Snap, b: Snap, c: Disk, d: nat, s: Superblock, t: Superblock)
    requires Geometry(s, c, d) && a.disk.Keys == c.Keys && t.generation + 1 < U64_LIMIT
    requires Flushed(ViewOf(a.entries, a.disk), a.disk, d) && Lands(a, b)
    requires ViewOf(b.entries, b.disk) ==
             Overlay(ViewOf(a.entries, a.disk), d, SECTORS_PER_BLOCK * OtherSlot(s), Split(Pack(Next(t))))
    ensures Flipping(b.disk, ViewOf(b.entries, b.disk), ViewOf(a.entries, a.disk), d, s, t)
  {
    hide Geometry, Pack, PageMix, Overlay;
    var f := ViewOf(a.entries, a.disk);
    SlotInRange(s, c, d);
    SameReach(f, c, d);
    OverlayBlock(f, d, OtherSlot(s), Pack(Next(t)));
    FlushedRaw(f, a.disk, d);
    MixKeys(b.disk, a.disk, f);
    forall e: nat | e < s.totalBlocks
      ensures Raw(b.disk, d, e) == Raw(f, d, e)
    {
      MixSame(b.disk, a.disk, f, d, e);
    }
  }

  lemma SlotInRange(s: Superblock, c: Disk, d: nat)
    requires Geometry(s, c, d)
    ensures OtherSlot(s) < s.totalBlocks && OnDisk(c, d, OtherSlot(s))
    ensures SuperSlot(s, s.activeSlot) < s.totalBlocks && OnDisk(c, d, SuperSlot(s, s.activeSlot))
    ensures OtherSlot(s) != SuperSlot(s, s.activeSlot)
  {
  }

  /** The new generation's window: the flushed device is its committed image. */
  lemma CommitDurable(view: Disk, disk: Disk, history: seq<Disk>, f: Disk, c: Disk, d: nat, s: Superblock,
      t: Superblock)
    requires Geometry(s, c, d) && Safe(f, c, d, s) && SameGeneration(s, t) && t.generation + 1 < U64_LIMIT
    requires Unpack(BlockOf(c, d, SuperSlot(s, s.activeSlot))) == Some(s.(activeSlot := 0))
    requires Shaped(Raw(c, d, SuperSlot(s, s.activeSlot)))
    requires Flushed(view, disk, d) && OnlyFlip(disk, f, d, s)
    requires Raw(disk, d, OtherSlot(s)) == Split(Pack(Next(t)))
    requires |history| > 0 && history[|history| - 1] == disk
    ensures Durable(view, disk, history, |history| - 1, disk, d, Next(t))
    ensures SetOf(disk, d, Next(t), Next(t).activeSlot) == SetOf(f, d, s, Other(s.activeSlot))
    ensures SetOf(view, d, Next(t), Other(Next(t).activeSlot)) == SetOf(c, d, s, s.activeSlot)
  {
    hide Pack, Unpack, Safe, Shaped, Split, SetOf, BlockOf;
    var next := Next(t);
    SlotInRange(s, c, d);
    SafeActive(f, c, d, s);
    SameReach(disk, c, d);
    var old', flip := SuperSlot(s, s.activeSlot), OtherSlot(s);
    assert Geometry(next, disk, d);
    PackedSlot(disk, d, flip, next);
    SlotsAfter(disk, f, c, d, s, next);
    FlushedRaw(view, disk, d);
    SafeSelf(disk, disk, d, next);
    SafeSelf(view, disk, d, next);
    SetsAfter(view, disk, f, c, d, s, next);
  }

  lemma PackedSlot(disk: Disk, d: nat, flip: nat, next: Superblock)
    requires OnDisk(disk, d, flip) && Raw(disk, d, flip) == Split(Pack(next))
    requires next.formatVersion == FORMAT_VERSION && next.blockSize == BLOCK_SIZE
    ensures Unpack(BlockOf(disk, d, flip)) == Some(next.(activeSlot := 0)) && Shaped(Raw(disk, d, flip))
  {
    hide Pack, Unpack, Shaped;
    JoinSplit(Pack(next));
    UnpackPack(next);
    PackShaped(next);
  }

  lemma SlotsAfter(disk: Disk, f: Disk, c: Disk, d: nat, s: Superblock, next: Superblock)
    requires Geometry(s, c, d) && OnlyFlip(disk, f, d, s) && f.Keys == c.Keys
    requires Raw(f, d, SuperSlot(s, s.activeSlot)) == Raw(c, d, SuperSlot(s, s.activeSlot))
    requires Unpack(BlockOf(c, d, SuperSlot(s, s.activeSlot))) == Some(s.(activeSlot := 0))
    requires Shaped(Raw(c, d, SuperSlot(s, s.activeSlot)))
    requires next.totalBlocks == s.totalBlocks && next.generation > s.generation
             && next.activeSlot == Other(s.activeSlot)
    ensures Shaped(Raw(disk, d, OtherSlot(next))) && Outranked(BlockOf(disk, d, OtherSlot(next)), next)
  {
    hide Unpack, Shaped;
    SlotInRange(s, c, d);
    SameReach(disk, c, d);
    assert OtherSlot(next) == SuperSlot(s, s.activeSlot);
  }

  /** Contents flushed to `disk` are safe for the generation committed as `disk`. */
  lemma SafeSelf(view: Disk, disk: Disk, d: nat, s: Superblock)
    requires Geometry(s, disk, d) && view.Keys == disk.Keys && forall e: nat :: Raw(disk, d, e) == Raw(view, d, e)
    requires Shaped(Raw(disk, d, OtherSlot(s))) && Outranked(BlockOf(disk, d, OtherSlot(s)), s)
    ensures Safe(view, disk, d, s)
  {
    hide Outranked, Shaped, CommittedUsed, SealOf;
    SealsFromRegion(disk, view, d, s);
    SlotInRange(s, disk, d);
    SameReach(view, disk, d);
  }

  lemma SetsAfter(view: Disk, disk: Disk, f: Disk, c: Disk, d: nat, s: Superblock, next: Superblock)
    requires Geometry(s, c, d) && Safe(f, c, d, s) && OnlyFlip(disk, f, d, s)
    requires view.Keys == disk.Keys && forall e: nat :: Raw(disk, d, e) == Raw(view, d, e)
    requires Geometry(next, disk, d) && next.activeSlot == Other(s.activeSlot)
    requires next
      == s.(generation := next.generation, activeSlot := next.activeSlot, freeBlocks := next.freeBlocks,
        freeInodes := next.freeInodes)
    ensures SetOf(disk, d, next, next.activeSlot) == SetOf(f, d, s, Other(s.activeSlot))
    ensures SetOf(view, d, next, Other(next.activeSlot)) == SetOf(c, d, s, s.activeSlot)
  {
    hide Safe, SetOf, BlockOf;
    SafeSet(f, c, d, s);
    SafeSlot(f, c, d, s);
    FlipBlocks(disk, f, c, d, s);
    RawBlocks(view, disk, d);
    forall e: nat
      ensures InSet(s, 0, e) || InSet(s, 1, e) ==> BlockOf(disk, d, e) == BlockOf(f, d, e)
    {
      RegionsApart(s, e);
    }
    SameSet(disk, f, d, next, s, Other(s.activeSlot));
    SameSet(view, f, d, next, s, s.activeSlot);
  }

  lemma RawBlocks(view: Disk, disk: Disk, d: nat)
    requires view.Keys == disk.Keys && forall e: nat :: Raw(disk, d, e) == Raw(view, d, e)
    ensures forall e: nat :: BlockOf(view, d, e) == BlockOf(disk, d, e)
  {
    SameReach(view, disk, d);
  }

  /** A metadata set is determined by its blocks. */
  lemma SameSet(m: Disk, n: Disk, d: nat, s: Superblock, t: Superblock, slot: nat)
    requires SuperValid(s, s.totalBlocks) && SuperValid(t, t.totalBlocks)
    requires s.totalBlocks == t.totalBlocks && s.bitmapBlocks == t.bitmapBlocks && s.tableBlocks == t.tableBlocks
    requires forall e: nat :: InSet(t, slot, e) ==> BlockOf(m, d, e) == BlockOf(n, d, e)
    ensures SetOf(m, d, s, slot) == SetOf(n, d, t, slot)
  {
    hide BlockOf;
    var a, b := SetOf(m, d, s, slot), SetOf(n, d, t, slot);
    assert a.bitmap == b.bitmap;
    assert a.table == b.table;
  }

  /** Everything a commit knows about the generation it replaces, once the stage has landed as `f`. */
  ghost predicate Ready(f: Disk, view: Disk, c: Disk, d: nat, s: Superblock, t: Superblock)
  {
    && Geometry(s, c, d) && Safe(f, c, d, s) && MetaOnly(view, f, d, s)
    && SameGeneration(s, t) && t.generation + 1 < U64_LIMIT
    && Unpack(BlockOf(c, d, SuperSlot(s, s.activeSlot))) == Some(s.(activeSlot := 0))
    && Shaped(Raw(c, d, SuperSlot(s, s.activeSlot)))
  }

  /** Writing the new superblock into the cache lands nothing of it. */
  lemma LandsSafe(a: Snap, b: Snap, start: nat, c: Disk, d: nat, s: Superblock)
    requires Durable(ViewOf(a.entries, a.disk), a.disk, a.history, start, c, d, s) && Lands(a, b)
    ensures Safe(b.disk, c, d, s)
    ensures forall k :: |a.history| <= k < |b.history| ==> Safe(b.history[k], c, d, s)
  {
    hide Geometry, Safe, Unpack, PageMix, Shaped;
    var view := ViewOf(a.entries, a.disk);
    SafeMix(b.disk, a.disk, view, c, d, s);
    forall k | |a.history| <= k < |b.history|
      ensures Safe(b.history[k], c, d, s)
    {
      SafeMix(b.history[k], a.disk, view, c, d, s);
    }
  }

  /** While the flip is flushed, every device state is a crash point of the commit. */
  lemma FlushCrash(b: Snap, z: Snap, f: Disk, view: Disk, c: Disk, d: nat, s: Superblock, t: Superblock)
    requires Ready(f, view, c, d, s, t) && Lands(b, z)
    requires Flipping(b.disk, ViewOf(b.entries, b.disk), f, d, s, t)
    ensures CrashPoints(|b.history|, z.history, view, c, d, s, Next(t), SetOf(f, d, s, Other(s.activeSlot)))
    ensures OnlyFlip(z.disk, f, d, s)
  {
    hide Safe, PageMix, Flipping, Published, Unpack, SetOf, Shaped;
    FlipOutcome(z.disk, b.disk, ViewOf(b.entries, b.disk), f, view, c, d, s, t);
    forall k | |b.history| <= k < |z.history|
      ensures CrashPoint(z.history[k], view, c, d, s, Next(t), SetOf(f, d, s, Other(s.activeSlot)))
    {
      FlipOutcome(z.history[k], b.disk, ViewOf(b.entries, b.disk), f, view, c, d, s, t);
    }
  }

  /** The last sector of the flip slot. */
  function FlipEnd(d: nat, s: Superblock): Loc
  {
    Sec(d, OtherSlot(s), SECTORS_PER_BLOCK - 1)
  }

  /** The other slot of `m` stores the checksum of this superblock. */
  ghost predicate StoresCrc(m: Disk, d: nat, s: Superblock, next: Superblock)
  {
    StoredCrc(Raw(m, d, OtherSlot(s))) == Crc32c(SuperBody(next))
  }

  /** The first sector of this superblock stands in the other slot. */
  ghost predicate Begun(h: Disk, d: nat, s: Superblock, next: Superblock)
  {
    Raw(h, d, OtherSlot(s)) != [] && Raw(h, d, OtherSlot(s))[0] == Split(Pack(next))[0]
  }

  /** With its first sector in place and its checksum stored, the new superblock is whole and outranks the old one. */
  lemma BegunAliased(h: Disk, c: Disk, d: nat, s: Superblock, t: Superblock)
    requires Geometry(s, c, d) && SameGeneration(s, t) && t.generation + 1 < U64_LIMIT
    requires Begun(h, d, s, Next(t)) && StoresCrc(h, d, s, Next(t))
    ensures !Safe(h, c, d, s)
  {
    hide Pack, Unpack, Crc32c, SuperBody, FromLe, CommittedUsed, SealOf;
    if Safe(h, c, d, s) {
      var flip, next := OtherSlot(s), Next(t);
      SlotInRange(s, c, d);
      SameReach(h, c, d);
      var was := Raw(h, d, flip);
      TornFlip(was, next, 1);
      assert Split(Pack(next))[..1] + was[1..] == was;
      UnpackPack(next);
    }
  }

  /**
    A device state of a flip whose last sector never lands: the old generation
    is safe there, unless the slot stored the new checksum before the flip and
    the first sector has landed.
   */
  lemma FlipExact(h: Disk, a: Disk, b: Disk, f: Disk, view: Disk, c: Disk, d: nat, s: Superblock, t: Superblock)
    requires Ready(f, view, c, d, s, t) && Flipping(a, b, f, d, s, t) && PageMix(h, a, b)
    requires FlipEnd(d, s) in h && FlipEnd(d, s) in a && h[FlipEnd(d, s)] == a[FlipEnd(d, s)]
    ensures Safe(h, c, d, s) <==> !(StoresCrc(f, d, s, Next(t)) && Begun(h, d, s, Next(t)))
    ensures var want := SetOf(f, d, s, Other(s.activeSlot));
            !Safe(h, c, d, s) ==> Published(h, view, d, s, Next(t), want.bitmap, want.table)
  {
    hide Safe, PageMix, Published, Unpack, SetOf, Pack, SuperBody, Crc32c, FromLe, Shaped;
    FlipOutcome(h, a, b, f, view, c, d, s, t);
    FlipReach(h, a, b, f, c, d, s, t);
    var flip := OtherSlot(s);
    assert Raw(h, d, flip)[7] == Raw(a, d, flip)[7] == Raw(f, d, flip)[7];
    var cut := MixPrefix(h, a, b, d, flip);
    if StoresCrc(f, d, s, Next(t)) {
      if Begun(h, d, s, Next(t)) {
        BegunAliased(h, c, d, s, t);
      } else {
        assert cut == 0 && Raw(h, d, flip) == Raw(f, d, flip);
        SafeSlot(f, c, d, s);
        FlipUnsound(h, f, c, d, s);
      }
    }
  }

  /** The same for every device state of a flush that failed. */
  lemma FlipStuck(b: Snap, z: Snap, f: Disk, view: Disk, c: Disk, d: nat, s: Superblock, t: Superblock)
    requires Ready(f, view, c, d, s, t) && Lands(b, z)
    requires Flipping(b.disk, ViewOf(b.entries, b.disk), f, d, s, t)
    requires Unmoved(b.disk, b.history, z.disk, z.history, FlipEnd(d, s))
    ensures Safe(z.disk, c, d, s) <==> !(StoresCrc(f, d, s, Next(t)) && Begun(z.disk, d, s, Next(t)))
    ensures FlipStates(|b.history|, z.history, f, c, d, s, Next(t))
  {
    hide Safe, PageMix, Published, Unpack, SetOf, Pack, SuperBody, Crc32c, Flipping, Shaped, StoresCrc, Begun;
    FlipExact(z.disk, b.disk, ViewOf(b.entries, b.disk), f, view, c, d, s, t);
    forall k | |b.history| <= k < |z.history|
      ensures Safe(z.history[k], c, d, s) <==> !(StoresCrc(f, d, s, Next(t)) && Begun(z.history[k], d, s, Next(t)))
    {
      FlipExact(z.history[k], b.disk, ViewOf(b.entries, b.disk), f, view, c, d, s, t);
    }
  }

  /** From state `from` on, the other slot is as in `m`. */
  ghost predicate SlotStill(from: nat, history: seq<Disk>, m: Disk, d: nat, s: Superblock)
  {
    forall k :: from <= k < |history| ==> Raw(history[k], d, OtherSlot(s)) == Raw(m, d, OtherSlot(s))
  }

  /** A cache operation of an open window leaves the other slot alone. */
  lemma LandsStill(a: Snap, b: Snap, start: nat, c: Disk, d: nat, s: Superblock)
    requires Durable(ViewOf(a.entries, a.disk), a.disk, a.history, start, c, d, s) && Lands(a, b)
    ensures |a.history| <= |b.history| && b.history[..|a.history|] == a.history
    ensures SlotStill(|a.history|, b.history, ViewOf(a.entries, a.disk), d, s)
  {
    hide Geometry, Safe, Unpack, PageMix, Shaped;
    forall k | |a.history| <= k < |b.history|
      ensures Raw(b.history[k], d, OtherSlot(s)) == Raw(ViewOf(a.entries, a.disk), d, OtherSlot(s))
    {
      SafeMix(b.history[k], a.disk, ViewOf(a.entries, a.disk), c, d, s);
    }
  }

  lemma StillAppend(from: nat, g: seq<Disk>, h: seq<Disk>, m: Disk, n: Disk, d: nat, s: Superblock)
    requires |g| <= |h| && h[..|g|] == g && SlotStill(from, g, m, d, s) && SlotStill(|g|, h, n, d, s)
    requires Raw(n, d, OtherSlot(s)) == Raw(m, d, OtherSlot(s))
    ensures SlotStill(from, h, m, d, s)
  {
    hide Raw;
    forall k | from <= k < |h|
      ensures Raw(h[k], d, OtherSlot(s)) == Raw(m, d, OtherSlot(s))
    {
      if k < |g| {
        assert h[k] == h[..|g|][k];
      }
    }
  }

  /** The first sector of the flip has landed in one of these states. */
  ghost predicate FlipBegun(from: nat, history: seq<Disk>, d: nat, s: Superblock, next: Superblock)
  {
    exists k :: from <= k < |history| && Begun(history[k], d, s, next)
  }

  /** While the old generation is safe in an untouched slot that stores the new checksum, the flip has not begun. */
  lemma NotBegun(from: nat, history: seq<Disk>, m: Disk, c: Disk, d: nat, s: Superblock, t: Superblock)
    requires Geometry(s, c, d) && SameGeneration(s, t) && t.generation + 1 < U64_LIMIT
    requires SlotStill(from, history, m, d, s) && forall k :: from <= k < |history| ==> Safe(history[k], c, d, s)
    ensures !(StoresCrc(m, d, s, Next(t)) && FlipBegun(from, history, d, s, Next(t)))
  {
    hide Safe, Geometry, Crc32c, SuperBody, Raw, Pack;
    if StoresCrc(m, d, s, Next(t)) {
      forall k | from <= k < |history|
        ensures !Begun(history[k], d, s, Next(t))
      {
        if Begun(history[k], d, s, Next(t)) {
          BegunAliased(history[k], c, d, s, t);
        }
      }
    }
  }

  /**
    After a failed flip the window is as durable as before, unless the slot
    stored the new checksum already and the first sector of the flip has landed.
   */
  lemma FlipVerdict(a: Snap, z: Snap, staged: seq<Disk>, start: nat, f: Disk, view: Disk, c: Disk, d: nat,
      s: Superblock, t: Superblock)
    requires Durable(f, a.disk, a.history, start, c, d, s) && Ready(f, view, c, d, s, t)
    requires |a.history| <= |staged| <= |z.history| && staged[..|a.history|] == a.history
             && z.history[..|staged|] == staged
    requires SlotStill(|a.history|, staged, f, d, s) && forall k :: |a.history| <= k < |staged| ==>
      Safe(staged[k], c, d, s)
    requires FlipStates(|staged|, z.history, f, c, d, s, Next(t))
    requires |z.history| > 0 && z.history[|z.history| - 1] == z.disk && OnlyFlip(ViewOf(z.entries, z.disk), f, d, s)
    requires Raw(ViewOf(z.entries, z.disk), d, OtherSlot(s)) == Raw(z.disk, d, OtherSlot(s))
    ensures Durable(ViewOf(z.entries, z.disk), z.disk, z.history, start, c, d, s) <==>
      !(StoresCrc(f, d, s, Next(t)) && FlipBegun(|a.history|, z.history, d, s, Next(t)))
  {
    hide Safe, OnlyFlip, MetaOnly, Unpack, Shaped, SuperValid, Begun, StoresCrc, Raw;
    NotBegun(|a.history|, staged, f, c, d, s, t);
    assert forall k :: 0 <= k < |staged| ==> z.history[k] == z.history[..|staged|][k];
    if StoresCrc(f, d, s, Next(t)) && FlipBegun(|a.history|, z.history, d, s, Next(t)) {
      var k :| |a.history| <= k < |z.history| && Begun(z.history[k], d, s, Next(t));
      assert !Safe(z.history[k], c, d, s);
    } else {
      forall k | start <= k < |z.history|
        ensures Safe(z.history[k], c, d, s)
      {
        if k < |a.history| {
          assert staged[k] == staged[..|a.history|][k];
        }
      }
      FlipDropped(ViewOf(z.entries, z.disk), z.disk, f, c, d, s);
    }
  }

  /** From state `from` on, the old generation is safe exactly where an aliased flip has not begun. */
  ghost predicate FlipStates(from: nat, history: seq<Disk>, f: Disk, c: Disk, d: nat, s: Superblock, next: Superblock)
  {
    forall k :: from <= k < |history| ==>
      (Safe(history[k], c, d, s) <==> !(StoresCrc(f, d, s, next) && Begun(history[k], d, s, next)))
  }

  /** After a failed flip the cached copy is dropped, and the window goes on as before. */
  lemma FlipDropped(w: Disk, disk: Disk, f: Disk, c: Disk, d: nat, s: Superblock)
    requires Geometry(s, c, d) && Safe(f, c, d, s) && Safe(disk, c, d, s) && OnlyFlip(w, f, d, s)
    requires Raw(w, d, OtherSlot(s)) == Raw(disk, d, OtherSlot(s))
    ensures Safe(w, c, d, s)
    ensures SetOf(w, d, s, Other(s.activeSlot)) == SetOf(f, d, s, Other(s.activeSlot))
  {
    hide Safe, Shaped, Outranked, SetOf;
    SafeSlot(disk, c, d, s);
    SafeSlot(f, c, d, s);
    SlotInRange(s, c, d);
    SameReach(w, disk, d);
    SameReach(disk, c, d);
    FlipUnsound(w, f, c, d, s);
    FlipBlocks(w, f, c, d, s);
    forall e: nat | InSet(s, Other(s.activeSlot), e)
      ensures BlockOf(w, d, e) == BlockOf(f, d, e)
    {
      RegionsApart(s, e);
    }
    SameSet(w, f, d, s, s, Other(s.activeSlot));
  }
}
