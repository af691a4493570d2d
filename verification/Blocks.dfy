/** Filesystem blocks: 4 KiB images made of eight device sectors. */
module Blocks {
  import opened Bytes
  import opened BlockCache

  const BLOCK_SIZE := 4096
  const SECTORS_PER_BLOCK := 8

  type Image = s: seq<u8> | |s| == BLOCK_SIZE witness Zeros(4096)

  function Sec(d: nat, b: nat, s: nat): Loc
  {
    Loc(d, SECTORS_PER_BLOCK * b + s)
  }

  function Slice(img: Image, s: nat): Sector
    requires s < SECTORS_PER_BLOCK
  {
    img[SECTOR_SIZE * s..SECTOR_SIZE * s + SECTOR_SIZE]
  }

  function Split(img: Image): (ss: seq<Sector>)
    ensures |ss| == SECTORS_PER_BLOCK
  {
    [Slice(img, 0), Slice(img, 1), Slice(img, 2), Slice(img, 3),
     Slice(img, 4), Slice(img, 5), Slice(img, 6), Slice(img, 7)]
  }

  function Join(ss: seq<Sector>): (img: Image)
    requires |ss| == SECTORS_PER_BLOCK
  {
    var first: seq<u8> := ss[0];
    first + ss[1] + ss[2] + ss[3] + ss[4] + ss[5] + ss[6] + ss[7]
  }

  lemma JoinSplit(img: Image)
    ensures Join(Split(img)) == img
  {
    assert img == img[0..512] + img[512..1024] + img[1024..1536] + img[1536..2048]
                  + img[2048..2560] + img[2560..3072] + img[3072..3584] + img[3584..4096];
  }

  /** Byte `o` of a joined block is byte `o % 512` of sector `o / 512`. */
  lemma JoinAt(ss: seq<Sector>, o: nat)
    requires |ss| == SECTORS_PER_BLOCK && o < BLOCK_SIZE
    ensures Join(ss)[o] == ss[o / SECTOR_SIZE][o % SECTOR_SIZE]
  {
    var k := o / SECTOR_SIZE;
    assert o == SECTOR_SIZE * k + o % SECTOR_SIZE;
    if k == 0 { } else if k == 1 { } else if k == 2 { } else if k == 3 { }
    else if k == 4 { } else if k == 5 { } else if k == 6 { } else { }
  }

  /** An aligned four-byte field never straddles two sectors. */
  lemma JoinField(ss: seq<Sector>, o: nat)
    requires |ss| == SECTORS_PER_BLOCK && o + 4 <= BLOCK_SIZE && o % 4 == 0
    ensures o % SECTOR_SIZE + 4 <= SECTOR_SIZE
    ensures Join(ss)[o..o + 4] == ss[o / SECTOR_SIZE][o % SECTOR_SIZE..o % SECTOR_SIZE + 4]
  {
    hide Join;
    JoinAt(ss, o);
    JoinAt(ss, o + 1);
    JoinAt(ss, o + 2);
    JoinAt(ss, o + 3);
  }

  /** All eight sectors of block `b` lie on the device. */
  predicate OnDisk(m: Disk, d: nat, b: nat)
  {
    forall s :: 0 <= s < SECTORS_PER_BLOCK ==> Sec(d, b, s) in m
  }

  /** The sectors of block `b`, or nothing when the device does not reach it. */
  function Raw(m: Disk, d: nat, b: nat): (ss: seq<Sector>)
    ensures OnDisk(m, d, b) ==> |ss| == SECTORS_PER_BLOCK
    ensures OnDisk(m, d, b) ==> forall s :: 0 <= s < SECTORS_PER_BLOCK ==> ss[s] == m[Sec(d, b, s)]
  {
    if OnDisk(m, d, b) then
      seq(SECTORS_PER_BLOCK, s requires 0 <= s < SECTORS_PER_BLOCK => m[Sec(d, b, s)])
    else []
  }

  function BlockOf(m: Disk, d: nat, b: nat): (img: Image)
  {
    if OnDisk(m, d, b) then Join(Raw(m, d, b)) else Zeros(BLOCK_SIZE)
  }

  lemma SameRaw(m: Disk, n: Disk, d: nat, b: nat)
    requires m.Keys == n.Keys && OnDisk(m, d, b)
    requires forall s :: 0 <= s < SECTORS_PER_BLOCK ==> m[Sec(d, b, s)] == n[Sec(d, b, s)]
    ensures Raw(m, d, b) == Raw(n, d, b)
  {
  }

  /** Writing one block image changes that block and no other. */
  lemma OverlayBlock(view: Disk, d: nat, b: nat, img: Image)
    requires OnDisk(view, d, b)
    ensures var v := Overlay(view, d, SECTORS_PER_BLOCK * b, Split(img));
            && v.Keys == view.Keys
            && Raw(v, d, b) == Split(img) && BlockOf(v, d, b) == img
            && (forall e :: e != b ==> Raw(v, d, e) == Raw(view, d, e) && BlockOf(v, d, e) == BlockOf(view, d, e))
  {
    var v := Overlay(view, d, SECTORS_PER_BLOCK * b, Split(img));
    forall s | 0 <= s < SECTORS_PER_BLOCK
      ensures v[Sec(d, b, s)] == Split(img)[s]
    {
    }
    assert Raw(v, d, b) == Split(img);
    JoinSplit(img);
    forall e | e != b
      ensures OnDisk(v, d, e) == OnDisk(view, d, e) && Raw(v, d, e) == Raw(view, d, e)
    {
      if OnDisk(view, d, e) {
        SameRaw(v, view, d, e);
      }
    }
  }

  lemma SecPage(d: nat, b: nat, s: nat)
    requires s < SECTORS_PER_BLOCK
    ensures Page(Sec(d, b, s).lba) == SECTORS_PER_BLOCK * b
    ensures Sec(d, b, s).lba % SECTORS_PER_BLOCK == s
  {
  }

  /** A page that `a` and `b` agree on is the same in anything between them. */
  lemma MixSame(h: Disk, a: Disk, b: Disk, d: nat, blk: nat)
    requires PageMix(h, a, b)
    requires Raw(a, d, blk) == Raw(b, d, blk)
    ensures Raw(h, d, blk) == Raw(a, d, blk)
  {
    if OnDisk(a, d, blk) {
      forall s | 0 <= s < SECTORS_PER_BLOCK
        ensures h[Sec(d, blk, s)] == a[Sec(d, blk, s)]
      {
        assert Raw(a, d, blk)[s] == Raw(b, d, blk)[s];
      }
    }
  }

  /** In anything between `a` and `b` a block is a prefix of `b`'s sectors followed by `a`'s. */
  lemma MixPrefix(h: Disk, a: Disk, b: Disk, d: nat, blk: nat) returns (cut: nat)
    requires PageMix(h, a, b) && OnDisk(a, d, blk)
    ensures cut <= SECTORS_PER_BLOCK
    ensures Raw(h, d, blk) == Raw(b, d, blk)[..cut] + Raw(a, d, blk)[cut..]
  {
    var r, ra, rb := Raw(h, d, blk), Raw(a, d, blk), Raw(b, d, blk);
    cut := SECTORS_PER_BLOCK;
    while cut > 0 && r[cut - 1] == ra[cut - 1]
      invariant cut <= SECTORS_PER_BLOCK
      invariant forall s :: cut <= s < SECTORS_PER_BLOCK ==> r[s] == ra[s]
    {
      cut := cut - 1;
    }
    forall s | 0 <= s < cut
      ensures r[s] == rb[s]
    {
      SecPage(d, blk, s);
      SecPage(d, blk, cut - 1);
      assert SamePage(Sec(d, blk, s), Sec(d, blk, cut - 1));
    }
  }
}
