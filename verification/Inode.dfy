/** Inode slots: packing, and a table block as sixteen of them (src/fs/adytumfs_inode.c). */
module Inodes {
  import opened Bytes
  import opened Blocks
  import opened Checksums
  import opened Extents
  import opened Superblocks

  const INODE_SIZE := 256
  const INODE_CHECKSUM_OFFSET := 252
  const MODE_DIR := 0x4000
  const MODE_REG := 0x8000
  const MODE_LNK := 0x2000

  datatype Inode = Inode(
    mode: u16, links: u16, uid: u32, gid: u32, flags: u32, size: u64, blocks: u64,
    atime: u64, mtime: u64, ctime: u64, generation: u64, direct: Direct,
    indirect1: u64, indirect2: u64, atimeNsec: u32, mtimeNsec: u32, ctimeNsec: u32)

  // ---- the slot codec -----------------------------------------------------

  function HeadFields(i: Inode): seq<Field>
  {
    [Field(2, i.mode), Field(2, i.links), Field(4, i.uid), Field(4, i.gid), Field(4, i.flags),
     Field(8, i.size), Field(8, i.blocks), Field(8, i.atime), Field(8, i.mtime), Field(8, i.ctime),
       Field(8, i.generation)]
  }

  function ExtentFields(exts: seq<Extent>): (fs: seq<Field>)
    ensures |fs| == 3 * |exts|
    ensures forall k :: 0 <= k < |exts| ==>
      && fs[3 * k] == Field(8, exts[k].start) && fs[3 * k + 1] == Field(4, exts[k].length)
      && fs[3 * k + 2] == Field(4, exts[k].flags)
  {
    if exts == [] then []
    else [Field(8, exts[0].start), Field(4, exts[0].length), Field(4, exts[0].flags)] + ExtentFields(exts[1..])
  }

  function TailFields(i: Inode): seq<Field>
  {
    [Field(8, i.indirect1), Field(8, i.indirect2), Field(4, i.atimeNsec), Field(4, i.mtimeNsec), Field(4, i.ctimeNsec)]
  }

  function InodeFields(i: Inode): (fs: seq<Field>)
    ensures |fs| == 46
  {
    HeadFields(i) + ExtentFields(i.direct) + TailFields(i)
  }

  function InodeWidth(k: nat): nat
  {
    if k < 2 then 2 else if k < 5 then 4 else if k < 11 then 8
    else if k < 41 then (if (k - 11) % 3 == 0 then 8 else 4)
    else if k < 43 then 8 else 4
  }

  function InodeWidths(): (ws: seq<nat>)
    ensures |ws| == 46 && forall k :: 0 <= k < 46 ==> ws[k] == InodeWidth(k)
  {
    seq(46, k requires 0 <= k => InodeWidth(k))
  }

  lemma InodeFieldWidths(i: Inode)
    ensures Widths(InodeFields(i)) == InodeWidths()
    ensures FieldsFit(InodeFields(i))
  {
    hide ExtentFields;
    Pow256Values();
    var fs := InodeFields(i);
    forall k | 0 <= k < 46
      ensures fs[k].width == InodeWidth(k) && fs[k].value < Pow256(fs[k].width)
    {
      if 11 <= k < 41 {
        var j := (k - 11) / 3;
        assert k - 11 == 3 * j + (k - 11) % 3;
        var es := ExtentFields(i.direct);
        assert fs[k] == es[k - 11];
        assert es[3 * j] == Field(8, i.direct[j].start);
        assert es[3 * j + 1] == Field(4, i.direct[j].length);
        assert es[3 * j + 2] == Field(4, i.direct[j].flags);
        assert (k - 11) % 3 == 0 || (k - 11) % 3 == 1 || (k - 11) % 3 == 2;
      } else if k >= 41 {
        assert fs[k] == TailFields(i)[k - 41];
      } else {
        assert fs[k] == HeadFields(i)[k];
      }
    }
  }

  // widths of consecutive stretches add up
  lemma {:induction false} TotalWidthConcat(a: seq<nat>, b: seq<nat>)
    ensures TotalWidth(a + b) == TotalWidth(a) + TotalWidth(b)
  {
    if a == [] {
      assert a + b == b;
    } else {
      assert (a + b)[1..] == a[1..] + b;
      TotalWidthConcat(a[1..], b);
    }
  }

  lemma {:induction false} ConstantWidths(w: seq<nat>, c: nat)
    requires forall k :: 0 <= k < |w| ==> w[k] == c
    ensures TotalWidth(w) == c * |w|
  {
    if w != [] {
      ConstantWidths(w[1..], c);
    }
  }

  lemma {:induction false} TripleWidths(w: seq<nat>, n: nat)
    requires |w| == 3 * n && forall k :: 0 <= k < |w| ==> w[k] == if k % 3 == 0 then 8 else 4
    ensures TotalWidth(w) == 16 * n
  {
    if n > 0 {
      TripleWidths(w[3..], n - 1);
      assert w == w[..3] + w[3..];
      TotalWidthConcat(w[..3], w[3..]);
      assert w[..3] == [8, 4, 4];
      assert w[..3][1..] == [4, 4] && [4, 4][1..] == [4];
    }
  }

  lemma TotalInodeWidth()
    ensures TotalWidth(InodeWidths()) == INODE_CHECKSUM_OFFSET
  {
    hide TotalWidth;
    var w := InodeWidths();
    ConstantWidths(w[..2], 2);
    ConstantWidths(w[2..5], 4);
    ConstantWidths(w[5..11], 8);
    TripleWidths(w[11..41], 10);
    ConstantWidths(w[41..43], 8);
    ConstantWidths(w[43..], 4);
    assert w == (((((w[..2] + w[2..5]) + w[5..11]) + w[11..41]) + w[41..43]) + w[43..]);
    TotalWidthConcat(w[..2], w[2..5]);
    TotalWidthConcat(w[..2] + w[2..5], w[5..11]);
    TotalWidthConcat((w[..2] + w[2..5]) + w[5..11], w[11..41]);
    TotalWidthConcat(((w[..2] + w[2..5]) + w[5..11]) + w[11..41], w[41..43]);
    TotalWidthConcat((((w[..2] + w[2..5]) + w[5..11]) + w[11..41]) + w[41..43], w[43..]);
  }

  type Slot = s: seq<u8> | |s| == INODE_SIZE witness Zeros(256)

  function InodeBody(i: Inode): (b: seq<u8>)
    ensures |b| == INODE_CHECKSUM_OFFSET
  {
    InodeFieldWidths(i);
    TotalInodeWidth();
    EncodeLength(InodeFields(i));
    Encode(InodeFields(i))
  }

  function PackInode(i: Inode): Slot
  {
    InodeBody(i) + Le(Crc32c(InodeBody(i)), 4)
  }

  /** A free slot (mode 0) always parses; a used one must carry its checksum. */
  function UnpackInode(slot: Slot): (r: Option<Inode>)
  {
    if FromLe(slot[..2]) != 0 && FromLe(slot[INODE_CHECKSUM_OFFSET..]) != Crc32c(slot[..INODE_CHECKSUM_OFFSET])
      then None
    else Some(FromValues(SlotValues(slot)))
  }

  function SlotValues(slot: Slot): (v: seq<nat>)
    ensures Fits(v)
  {
    TotalInodeWidth();
    InodeBounds(Decode(InodeWidths(), slot));
    Decode(InodeWidths(), slot)
  }

  ghost predicate InodeValues(v: seq<nat>)
  {
    |v| == 46 && forall k :: 0 <= k < 46 ==> v[k] < Pow256(InodeWidth(k))
  }

  lemma InodeBounds(v: seq<nat>)
    requires |v| == 46 && forall k :: 0 <= k < 46 ==> v[k] < Pow256(InodeWidths()[k])
    ensures InodeValues(v) && Fits(v)
  {
    Pow256Values();
    forall k | 0 <= k < 46
      ensures v[k] < if InodeWidth(k) == 2 then 0x1_0000 else if InodeWidth(k) == 4 then U32_LIMIT else U64_LIMIT
    {
      assert InodeWidths()[k] == InodeWidth(k);
    }
  }

  predicate Fits(v: seq<nat>)
  {
    |v| == 46 && forall k :: 0 <= k < 46 ==>
      v[k] < if InodeWidth(k) == 2 then 0x1_0000 else if InodeWidth(k) == 4 then U32_LIMIT else U64_LIMIT
  }

  function ExtentAt(v: seq<nat>, k: nat): Extent
    requires Fits(v) && k < DIRECT_EXTENTS
  {
    assert InodeWidth(11 + 3 * k) == 8 && InodeWidth(12 + 3 * k) == 4 && InodeWidth(13 + 3 * k) == 4;
    Extent(v[11 + 3 * k], v[12 + 3 * k], v[13 + 3 * k])
  }

  function FromValues(v: seq<nat>): Inode
    requires Fits(v)
  {
    Inode(v[0], v[1], v[2], v[3], v[4], v[5], v[6], v[7], v[8], v[9], v[10],
          seq(DIRECT_EXTENTS, k requires 0 <= k < DIRECT_EXTENTS => ExtentAt(v, k)),
          v[41], v[42], v[43], v[44], v[45])
  }

  lemma ValuesBack(i: Inode)
    ensures Fits(Values(InodeFields(i))) && FromValues(Values(InodeFields(i))) == i
  {
    hide ExtentFields;
    var fs := InodeFields(i);
    var v := Values(fs);
    InodeFieldWidths(i);
    forall k | 0 <= k < 46
      ensures v[k] < Pow256(InodeWidths()[k])
    {
      assert fs[k].width == Widths(fs)[k];
    }
    InodeBounds(v);
    forall k | 0 <= k < DIRECT_EXTENTS
      ensures ExtentAt(v, k) == i.direct[k]
    {
      assert fs[11 + 3 * k] == ExtentFields(i.direct)[3 * k];
      assert fs[12 + 3 * k] == ExtentFields(i.direct)[3 * k + 1];
      assert fs[13 + 3 * k] == ExtentFields(i.direct)[3 * k + 2];
    }
    assert FromValues(v).direct == i.direct;
    assert forall k :: 41 <= k < 46 ==> fs[k] == TailFields(i)[k - 41];
    assert forall k :: 0 <= k < 11 ==> fs[k] == HeadFields(i)[k];
  }

  /** Every inode survives its slot. */
  lemma UnpackPackInode(i: Inode)
    ensures UnpackInode(PackInode(i)) == Some(i)
  {
    hide Encode, Decode, TotalWidth, FromLe, Le, Crc32c, InodeFields, FromValues, InodeWidths;
    var slot := PackInode(i);
    assert slot[..INODE_CHECKSUM_OFFSET] == InodeBody(i);
    assert slot[INODE_CHECKSUM_OFFSET..] == Le(Crc32c(InodeBody(i)), 4);
    Pow256Values();
    LeRoundTrip(Crc32c(InodeBody(i)), 4);
    InodeFieldWidths(i);
    FieldsRoundTrip(InodeFields(i), Le(Crc32c(InodeBody(i)), 4));
    ValuesBack(i);
  }

  // ---- table blocks -------------------------------------------------------

  function SlotOf(img: Image, k: nat): Slot
    requires k < INODES_PER_BLOCK
  {
    img[k * INODE_SIZE..k * INODE_SIZE + INODE_SIZE]
  }

  function PutSlot(img: Image, k: nat, slot: Slot): (r: Image)
    requires k < INODES_PER_BLOCK
  {
    img[..k * INODE_SIZE] + slot + img[k * INODE_SIZE + INODE_SIZE..]
  }

  /** Rewriting one slot keeps the other fifteen. */
  lemma PutSlotSpec(img: Image, k: nat, slot: Slot, j: nat)
    requires k < INODES_PER_BLOCK && j < INODES_PER_BLOCK
    ensures SlotOf(PutSlot(img, k, slot), j) == if j == k then slot else SlotOf(img, j)
  {
    var r := PutSlot(img, k, slot);
    if j < k {
      assert j * INODE_SIZE + INODE_SIZE <= k * INODE_SIZE;
    } else if j > k {
      assert k * INODE_SIZE + INODE_SIZE <= j * INODE_SIZE;
    }
  }

  /** Inode `n` of a table, when its slot parses. */
  function InodeAt(table: seq<Image>, n: nat): Option<Inode>
  {
    if n / INODES_PER_BLOCK < |table| then UnpackInode(SlotOf(table[n / INODES_PER_BLOCK], n % INODES_PER_BLOCK))
      else None
  }

  lemma InodePut(table: seq<Image>, n: nat, i: Inode, m: nat)
    requires n / INODES_PER_BLOCK < |table|
    ensures var b := n / INODES_PER_BLOCK;
            InodeAt(table[b := PutSlot(table[b], n % INODES_PER_BLOCK, PackInode(i))], m)
            == if m == n then Some(i) else InodeAt(table, m)
  {
    hide UnpackInode, PackInode, SlotOf, PutSlot;
    var b := n / INODES_PER_BLOCK;
    UnpackPackInode(i);
    PutSlotSpec(table[b], n % INODES_PER_BLOCK, PackInode(i), m % INODES_PER_BLOCK);
  }
}
