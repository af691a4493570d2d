/** The superblock pair: packing, validity and the mount-time picker (src/fs/adytumfs_super.c). */
module Superblocks {
  import opened Bytes
  import opened BlockCache
  import opened Blocks
  import opened Checksums

  const FORMAT_VERSION := 2
  const INODES_PER_BLOCK := 16
  const TABLE_BLOCKS_MAX := 16
  const CHECKSUMS_PER_BLOCK := 1024
  const FEATURE_INCOMPAT_V2 := 1
  const BITS_PER_BLOCK := 32768
  const CHECKSUM_OFFSET := 4092
  const SIGNATURE: seq<u8> := [0x41, 0x64, 0x79, 0x74, 0x75, 0x6D, 0x46, 0x53]

  datatype Superblock = Superblock(
    formatVersion: u32, blockSize: u32, totalBlocks: u64,
    bitmapStart: u64, bitmapBlocks: u64, tableStart: u64, tableBlocks: u64,
    inodeCount: u64, rootInode: u64, dataStart: u64,
    freeBlocks: u64, freeInodes: u64, generation: u64,
    featureCompat: u64, featureIncompat: u64, featureRoCompat: u64,
    checksumRegion: u64, activeSlot: nat)

  // ---- pack and unpack ----------------------------------------------------

  function SuperWidths(): (ws: seq<nat>)
    ensures |ws| == 17
    ensures forall i :: 0 <= i < 17 ==> ws[i] == if i < 2 then 4 else 8
  {
    seq(17, i => if i < 2 then 4 else 8)
  }

  function SuperFields(s: Superblock): (fs: seq<Field>)
  {
    [Field(4, s.formatVersion), Field(4, s.blockSize), Field(8, s.totalBlocks),
     Field(8, s.bitmapStart), Field(8, s.bitmapBlocks), Field(8, s.tableStart), Field(8, s.tableBlocks),
     Field(8, s.inodeCount), Field(8, s.rootInode), Field(8, s.dataStart),
     Field(8, s.freeBlocks), Field(8, s.freeInodes), Field(8, s.generation),
     Field(8, s.featureCompat), Field(8, s.featureIncompat), Field(8, s.featureRoCompat),
     Field(8, s.checksumRegion)]
  }

  lemma SuperWidth(s: Superblock)
    ensures Widths(SuperFields(s)) == SuperWidths()
    ensures TotalWidth(SuperWidths()) == 128 && |Encode(SuperFields(s))| == 128
  {
    hide Encode, TotalWidth;
    TotalSuperWidth();
    EncodeLength(SuperFields(s));
  }

  lemma TotalSuperWidth()
    ensures TotalWidth(SuperWidths()) == 128
  {
    var w := SuperWidths();
    EightByteWidths(w[1..][1..]);
  }

  lemma {:induction false} EightByteWidths(w: seq<nat>)
    requires forall i :: 0 <= i < |w| ==> w[i] == 8
    ensures TotalWidth(w) == 8 * |w|
  {
    if w != [] {
      EightByteWidths(w[1..]);
    }
  }

  /** The bytes the superblock checksum covers. */
  function SuperBody(s: Superblock): (b: seq<u8>)
    ensures |b| == CHECKSUM_OFFSET
  {
    SuperWidth(s);
    SIGNATURE + Encode(SuperFields(s)) + Zeros(3956)
  }

  function Pack(s: Superblock): (img: Image)
  {
    SuperBody(s) + Le(Crc32c(SuperBody(s)), 4)
  }

  function Unpack(img: Image): (r: Option<Superblock>)
  {
    if img[..8] != SIGNATURE then None
    else if FromLe(img[CHECKSUM_OFFSET..]) != Crc32c(img[..CHECKSUM_OFFSET]) then None
    else
      TotalSuperWidth();
      Pow256Values();
      var v := Decode(SuperWidths(), img[8..]);
      FieldBounds(v);
      if v[0] != FORMAT_VERSION || v[1] != BLOCK_SIZE then None
      else Some(Superblock(v[0], v[1], v[2], v[3], v[4], v[5], v[6], v[7], v[8], v[9], v[10],
                           v[11], v[12], v[13], v[14], v[15], v[16], 0))
  }

  lemma FieldBounds(v: seq<nat>)
    requires |v| == |SuperWidths()| && forall i :: 0 <= i < |v| ==> v[i] < Pow256(SuperWidths()[i])
    ensures v[0] < U32_LIMIT && v[1] < U32_LIMIT
    ensures forall i :: 2 <= i < |v| ==> v[i] < U64_LIMIT
  {
    Pow256Values();
  }

  /** A packed superblock reads back with every stored field; the slot is runtime state. */
  lemma UnpackPack(s: Superblock)
    requires s.formatVersion == FORMAT_VERSION && s.blockSize == BLOCK_SIZE
    ensures Unpack(Pack(s)) == Some(s.(activeSlot := 0))
  {
    hide Encode, TotalWidth, Decode, FromLe, Le, Crc32c;
    var img := Pack(s);
    var fs := SuperFields(s);
    SuperWidth(s);
    assert img[..8] == SIGNATURE;
    assert img[..CHECKSUM_OFFSET] == SuperBody(s);
    assert img[CHECKSUM_OFFSET..] == Le(Crc32c(SuperBody(s)), 4);
    Pow256Values();
    LeRoundTrip(Crc32c(SuperBody(s)), 4);
    var rest := Zeros(3956) + Le(Crc32c(SuperBody(s)), 4);
    assert img[8..] == Encode(fs) + rest;
    FieldsRoundTrip(fs, rest);
  }

  // ---- torn superblock writes ---------------------------------------------

  /** Everything between the stored fields and the checksum is zero. */
  ghost predicate Shaped(ss: seq<Sector>)
  {
    && |ss| == SECTORS_PER_BLOCK
    && (forall k :: 1 <= k < 7 ==> ss[k] == Zeros(SECTOR_SIZE))
    && ss[7][..508] == Zeros(508)
  }

  function StoredCrc(ss: seq<Sector>): nat
  {
    if |ss| == SECTORS_PER_BLOCK then FromLe(ss[7][508..]) else 0
  }

  lemma ShapedJoin(ss: seq<Sector>)
    requires Shaped(ss)
    ensures Join(ss) == ss[0] + Zeros(3580) + ss[7][508..]
  {
    var z := Zeros(SECTOR_SIZE);
    assert ss[7] == Zeros(508) + ss[7][508..];
    assert z + z + z + z + z + z + Zeros(508) == Zeros(3580);
  }

  lemma PackShaped(s: Superblock)
    ensures Shaped(Split(Pack(s)))
    ensures StoredCrc(Split(Pack(s))) == Crc32c(SuperBody(s))
  {
    hide Encode, Crc32c, Le, FromLe;
    var img := Pack(s);
    SuperWidth(s);
    assert forall k :: 136 <= k < CHECKSUM_OFFSET ==> img[k] == 0;
    forall k | 1 <= k < 7
      ensures Slice(img, k) == Zeros(SECTOR_SIZE)
    {
    }
    assert forall k :: 0 <= k < 508 ==> Slice(img, 7)[k] == img[3584 + k] == 0;
    assert Slice(img, 7)[..508] == Zeros(508);
    assert Slice(img, 7)[508..] == img[CHECKSUM_OFFSET..] == Le(Crc32c(SuperBody(s)), 4);
    Pow256Values();
    LeRoundTrip(Crc32c(SuperBody(s)), 4);
  }

  /**
    A superblock write cut off after `cut` sectors never unpacks to anything
    new: once the first sector is there the block either fails its checksum or
    is already the whole new superblock, and before the last sector that is so
    exactly when the slot already stored the new checksum.  No property of the
    checksum is used.
   */
  lemma TornFlip(was: seq<Sector>, s: Superblock, cut: nat)
    requires Shaped(was) && 0 < cut <= SECTORS_PER_BLOCK
    ensures var ss := Split(Pack(s))[..cut] + was[cut..];
            && Shaped(ss)
            && (Join(ss) == Pack(s) || Unpack(Join(ss)).None?)
            && (cut < SECTORS_PER_BLOCK ==> (Join(ss) == Pack(s) <==> StoredCrc(was) == Crc32c(SuperBody(s))))
  {
    hide Encode, Crc32c, Le, FromLe, Decode, TotalWidth;
    var next := Split(Pack(s));
    var ss := next[..cut] + was[cut..];
    PackShaped(s);
    JoinSplit(Pack(s));
    ShapedJoin(next);
    assert ss[0] == next[0];
    assert ss[7] == if cut == 8 then next[7] else was[7];
    assert Shaped(ss);
    ShapedJoin(ss);
    TornCore(ss[0], ss[7][508..], s);
    if cut == 8 {
      assert ss == next;
    }
  }

  lemma TornCore(first: Sector, crc: seq<u8>, s: Superblock)
    requires |crc| == 4 && Pack(s)[..SECTOR_SIZE] == first
    ensures var img := first + Zeros(3580) + crc;
            && (img == Pack(s) || Unpack(img).None?)
            && (img == Pack(s) <==> FromLe(crc) == Crc32c(SuperBody(s)))
  {
    hide Encode, Crc32c, Decode, TotalWidth;
    var img := first + Zeros(3580) + crc;
    SuperWidth(s);
    assert img[..CHECKSUM_OFFSET] == SuperBody(s);
    assert img[CHECKSUM_OFFSET..] == crc;
    Pow256Values();
    LeRoundTrip(Crc32c(SuperBody(s)), 4);
    if FromLe(crc) == Crc32c(SuperBody(s)) {
      FromLeInjective(crc, Le(Crc32c(SuperBody(s)), 4));
      assert img == SuperBody(s) + crc;
    }
  }

  /** An unsound slot can store the checksum of any superblock: a write of it is complete after one sector. */
  lemma AliasedSlot(s: Superblock) returns (was: seq<Sector>)
    ensures Shaped(was) && Unpack(Join(was)).None? && StoredCrc(was) == Crc32c(SuperBody(s))
    ensures Join(Split(Pack(s))[..1] + was[1..]) == Pack(s)
  {
    hide Crc32c, Le, FromLe, Pack;
    var z, crc := Zeros(SECTOR_SIZE), Le(Crc32c(SuperBody(s)), 4);
    was := [z, z, z, z, z, z, z, Zeros(508) + crc];
    Pow256Values();
    LeRoundTrip(Crc32c(SuperBody(s)), 4);
    assert was[7][508..] == crc && was[7][..508] == Zeros(508);
    ShapedJoin(was);
    assert Join(was)[..8][0] == 0 != SIGNATURE[0];
    TornFlip(was, s, 1);
  }

  /** A torn write of a version 2 superblock is unsound exactly when the slot did not store its checksum before. */
  lemma TornExactly(was: seq<Sector>, s: Superblock, cut: nat)
    requires Shaped(was) && 0 < cut < SECTORS_PER_BLOCK && s.formatVersion == FORMAT_VERSION
             && s.blockSize == BLOCK_SIZE
    ensures Unpack(Join(Split(Pack(s))[..cut] + was[cut..])).None? <==> StoredCrc(was) != Crc32c(SuperBody(s))
  {
    hide Pack, Unpack, Crc32c, SuperBody, FromLe, Shaped;
    TornFlip(was, s, cut);
    UnpackPack(s);
  }

  // ---- validity -----------------------------------------------------------

  function CeilDiv(a: nat, b: nat): nat
    requires b > 0
  {
    (a + b - 1) / b
  }

  /** adytumfs_super_valid. */
  predicate SuperValid(s: Superblock, deviceBlocks: nat)
  {
    && s.featureIncompat == FEATURE_INCOMPAT_V2
    && s.blockSize == BLOCK_SIZE
    && s.totalBlocks <= deviceBlocks
    && s.bitmapStart == 1
    && s.bitmapBlocks == CeilDiv(s.totalBlocks, BITS_PER_BLOCK)
    && s.tableStart == s.bitmapStart + s.bitmapBlocks
    && 0 < s.tableBlocks
    && s.tableStart <= s.totalBlocks
    && s.tableBlocks <= s.totalBlocks - s.tableStart
    && s.tableBlocks <= TABLE_BLOCKS_MAX
    && s.dataStart == s.tableStart + s.tableBlocks
    && s.dataStart < s.totalBlocks
    && 0 < s.inodeCount <= s.tableBlocks * INODES_PER_BLOCK
    && 0 < s.rootInode < s.inodeCount
    && s.dataStart + 1 <= s.checksumRegion <= TailBase(s)
    && TailBase(s) - s.checksumRegion >= CeilDiv(s.checksumRegion - s.dataStart, CHECKSUMS_PER_BLOCK)
  }

  function TailBase(s: Superblock): int
  {
    s.totalBlocks - 1 - s.bitmapBlocks - s.tableBlocks
  }

  // ---- the metadata sets --------------------------------------------------

  function SuperSlot(s: Superblock, slot: nat): nat
  {
    if slot == 0 || s.totalBlocks == 0 then 0 else s.totalBlocks - 1
  }

  function BitmapBase(s: Superblock, slot: nat): int
  {
    if slot == 0 then s.bitmapStart else s.totalBlocks - 1 - s.bitmapBlocks
  }

  function TableBase(s: Superblock, slot: nat): int
  {
    if slot == 0 then s.tableStart else s.totalBlocks - 1 - s.bitmapBlocks - s.tableBlocks
  }

  function Other(slot: nat): nat
  {
    if slot == 0 then 1 else 0
  }

  // ---- the mount picker ---------------------------------------------------

  /** The choice of adytumfs_super_read between the two images it found. */
  function Choose(first: Option<Superblock>, backup: Option<Superblock>, deviceBlocks: nat): (r: Option<Superblock>)
  {
    if backup.Some? && (first.None? || backup.value.generation > first.value.generation) then
      if SuperValid(backup.value, deviceBlocks) then Some(backup.value.(activeSlot := 1)) else None
    else if first.Some? && SuperValid(first.value, deviceBlocks) then Some(first.value.(activeSlot := 0))
    else None
  }

  /** Where adytumfs_super_read looks for the backup copy. */
  function BackupBlock(first: Option<Superblock>, deviceBlocks: nat): int
  {
    if first.Some? && SuperValid(first.value, deviceBlocks) then first.value.totalBlocks - 1 else deviceBlocks - 1
  }

  /** What a mount of device contents `m` selects. */
  ghost function Pick(m: Disk, d: nat, deviceBlocks: nat): (r: Option<Superblock>)
  {
    if deviceBlocks < 1 then None
    else
      var first := Unpack(BlockOf(m, d, 0));
      var at := BackupBlock(first, deviceBlocks);
      var backup := if at > 0 then Unpack(BlockOf(m, d, at)) else None;
      Choose(first, backup, deviceBlocks)
  }

  /** The copy in the other slot cannot win against `s`. */
  ghost predicate Outranked(img: Image, s: Superblock)
  {
    match Unpack(img)
    case None => true
    case Some(t) =>
      && t.totalBlocks == s.totalBlocks
      && (if s.activeSlot == 0 then t.generation <= s.generation else t.generation < s.generation)
  }

  lemma PickActive(m: Disk, d: nat, deviceBlocks: nat, s: Superblock)
    requires SuperValid(s, deviceBlocks) && s.totalBlocks == deviceBlocks
    requires s.activeSlot <= 1
    requires Unpack(BlockOf(m, d, SuperSlot(s, s.activeSlot))) == Some(s.(activeSlot := 0))
    requires Outranked(BlockOf(m, d, SuperSlot(s, Other(s.activeSlot))), s)
    ensures Pick(m, d, deviceBlocks) == Some(s)
  {
    hide Unpack, BlockOf;
    assert SuperValid(s.(activeSlot := 0), deviceBlocks);
  }
}
