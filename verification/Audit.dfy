/** The mount-time audit of the allocation records (src/fs/adytumfs_verify.c). */
module Audits {
  import opened Bytes
  import opened BlockCache
  import opened Blocks
  import opened Superblocks
  import opened Durability
  import opened Staging
  import opened Volumes
  import opened Extents
  import opened Inodes
  import opened InodeOps
  import V = Views

  const CLAIMS_MAX := 2560

  /** Exactly one of the three file kinds. */
  predicate KindOk(mode: u16)
  {
    var dir, reg, lnk := HasMode(mode, MODE_DIR), HasMode(mode, MODE_REG), HasMode(mode, MODE_LNK);
    (dir && !reg && !lnk) || (!dir && reg && !lnk) || (!dir && !reg && lnk)
  }

  predicate SlotOk(s: Superblock, o: Option<Inode>)
  {
    o.Some? && (V.InUse(o) ==> KindOk(o.value.mode) && V.Sound(s, o.value))
  }

  /** What the audit is for: the three views agree and every used inode has a kind. */
  ghost predicate Mountable(used: set<nat>, t: V.Table, s: Superblock)
  {
    V.ThreeViews(used, t, s) && forall k :: 1 <= k < |t| && V.InUse(t[k]) ==> KindOk(t[k].value.mode)
  }

  // ---- claims -------------------------------------------------------------

  ghost predicate Positive(claims: seq<Extent>)
  {
    forall i :: 0 <= i < |claims| ==> claims[i].length > 0
  }

  predicate Overlap(a: Extent, b: Extent)
  {
    a.start < b.start + b.length && b.start < a.start + a.length
  }

  ghost predicate NoOverlap(claims: seq<Extent>)
  {
    forall i, j :: 0 <= i < j < |claims| ==> !Overlap(claims[i], claims[j])
  }

  lemma {:induction false} FlatMember(claims: seq<Extent>, b: nat)
    requires Positive(claims) && b in Flat(claims)
    ensures exists k :: 0 <= k < |claims| && claims[k].start <= b < claims[k].start + claims[k].length
  {
    var c, rest := claims[0], claims[1..];
    if b in Flat(rest) {
      FlatMember(rest, b);
      var k :| 0 <= k < |rest| && rest[k].start <= b < rest[k].start + rest[k].length;
      assert claims[k + 1] == rest[k];
    } else {
      assert b in Range(c.start, c.length);
    }
  }

  lemma FirstApart(claims: seq<Extent>, b: nat)
    requires claims != [] && Positive(claims) && NoOverlap(claims) && b in Range(claims[0].start, claims[0].length)
    ensures b !in Flat(claims[1..])
  {
    var rest := claims[1..];
    forall k | 0 <= k < |rest|
      ensures !(rest[k].start <= b < rest[k].start + rest[k].length)
    {
      assert !Overlap(claims[0], claims[k + 1]);
    }
    if b in Flat(rest) {
      FlatMember(rest, b);
    }
  }

  /** Claims without overlap name each of their blocks once. */
  lemma {:induction false} ApartOnce(claims: seq<Extent>)
    requires Positive(claims) && NoOverlap(claims)
    ensures multiset(Flat(claims)) == multiset(V.SetOfSeq(Flat(claims)))
  {
    if claims == [] {
      assert V.SetOfSeq(Flat(claims)) == {};
    } else {
      var c, rest := claims[0], claims[1..];
      ApartOnce(rest);
      V.RangeMultiset(c.start, c.length);
      var r, f := Range(c.start, c.length), Flat(rest);
      forall b | b in r
        ensures b !in f
      {
        FirstApart(claims, b);
      }
      UnionOnce(r, f);
    }
  }

  lemma UnionOnce(r: seq<nat>, f: seq<nat>)
    requires multiset(r) == multiset(V.SetOfSeq(r)) && multiset(f) == multiset(V.SetOfSeq(f))
    requires forall b :: b in r ==> b !in f
    ensures multiset(r + f) == multiset(V.SetOfSeq(r + f))
  {
    assert V.SetOfSeq(r + f) == V.SetOfSeq(r) + V.SetOfSeq(f);
    assert V.SetOfSeq(r) !! V.SetOfSeq(f);
    assert multiset(V.SetOfSeq(r) + V.SetOfSeq(f)) == multiset(V.SetOfSeq(r)) + multiset(V.SetOfSeq(f));
  }

  /** Two overlapping claims name some block twice. */
  lemma OverlapTwice(claims: seq<Extent>, i: nat, j: nat)
    requires Positive(claims) && i < j < |claims| && Overlap(claims[i], claims[j])
    ensures multiset(Flat(claims)) != multiset(V.SetOfSeq(Flat(claims)))
  {
    var a, c := claims[i], claims[j];
    var b: nat := if a.start < c.start then c.start else a.start;
    FlatHas(claims[..j], i, b);
    FlatHas(claims[j..], 0, b);
    LiveAll(claims);
    FlatPrefix(claims, j);
    var p: multiset<nat>, q: multiset<nat> := multiset(Flat(claims[..j])), multiset(Flat(claims[j..]));
    var all: multiset<nat>, once: multiset<nat> := multiset(Flat(claims)), multiset(V.SetOfSeq(Flat(claims)));
    assert all == p + q && p[b] >= 1 && q[b] >= 1 && once[b] <= 1;
  }

  lemma {:induction false} FlatHas(claims: seq<Extent>, k: nat, b: nat)
    requires Positive(claims) && k < |claims| && claims[k].start <= b < claims[k].start + claims[k].length
    ensures b in Flat(claims)
  {
    if k == 0 {
      var c := claims[0];
      assert Range(c.start, c.length)[b - c.start] == b;
    } else {
      FlatHas(claims[1..], k - 1, b);
    }
  }

  // ---- phase one: every used slot -----------------------------------------

  /** Audits one used inode and adds its extents to the ledger. */
  method ClaimInode(s: Superblock, inode: Inode, claims: seq<Extent>) returns (ok: bool, more: seq<Extent>)
    requires |claims| + DIRECT_EXTENTS <= CLAIMS_MAX
    ensures ok <==> KindOk(inode.mode) && V.Sound(s, inode)
    ensures ok ==> more == claims + inode.direct[..Live(inode.direct)]
  {
    hide Flat, Live;
    more := claims;
    if !KindOk(inode.mode) {
      return false, more;
    }
    var terminated, mapped, index := false, 0, 0;
    NoneFlat();
    ghost var live := 0;
    assert inode.direct[..0] == [];
    while index < DIRECT_EXTENTS
      invariant 0 <= live <= index <= DIRECT_EXTENTS
      invariant terminated <==> live < index
      invariant forall k :: 0 <= k < live ==> inode.direct[k].length > 0 && V.InSpan(s, inode.direct[k])
      invariant forall k :: live <= k < index ==> inode.direct[k].length == 0
      invariant more == claims + inode.direct[..live] && mapped == |Flat(inode.direct[..live])|
    {
      var e := inode.direct[index];
      if e.length == 0 {
        terminated := true;
      } else {
        if terminated {
          return false, more;
        }
        if e.start < s.dataStart || e.start >= s.checksumRegion || e.length > s.checksumRegion - e.start {
          return false, more;
        }
        if |more| >= CLAIMS_MAX {
          return false, more;
        }
        LiveAtLeast(inode.direct, index + 1);
        FlatStep(inode.direct, index);
        assert inode.direct[..index + 1] == inode.direct[..index] + [e];
        more := more + [e];
        mapped := mapped + e.length;
        live := index + 1;
      }
      index := index + 1;
    }
    LiveIs(inode.direct, live);
    FlatLive(inode.direct);
    ok := inode.blocks == mapped;
  }

  /** The ledger of slots 1..n. */
  ghost predicate Ledger(t: V.Table, s: Superblock, n: nat, claims: seq<Extent>)
  {
    && n <= |t|
    && Positive(claims)
    && (forall i :: 0 <= i < |claims| ==> V.InSpan(s, claims[i]))
    && V.Owned(t, n) == multiset(Flat(claims))
  }

  lemma LedgerStep(t: V.Table, s: Superblock, n: nat, claims: seq<Extent>)
    requires Ledger(t, s, n, claims) && 1 <= n < |t| && SlotOk(s, t[n])
    ensures !V.InUse(t[n]) ==> Ledger(t, s, n + 1, claims)
    ensures V.InUse(t[n]) ==>
      Ledger(t, s, n + 1, claims + t[n].value.direct[..Live(t[n].value.direct)])
  {
    hide Flat, Live;
    assert V.Owned(t, n + 1) == V.Owned(t, n) + multiset(V.Claims(t[n]));
    if V.InUse(t[n]) {
      var d := t[n].value.direct;
      var extra := d[..Live(d)];
      LiveFacts(d);
      FlatLive(d);
      FlatConcat(claims, extra);
    }
  }

  lemma LiveFacts(d: seq<Extent>)
    ensures forall i :: 0 <= i < Live(d) ==> d[i].length > 0
  {
  }

  method CollectClaims(vol: Volume) returns (ok: bool, claims: seq<Extent>, freeInodes: nat)
    requires vol.Valid()
    modifies vol.storage
    ensures vol.Valid() && vol.storage.View() == old(vol.storage.View())
            && vol.storage.faults >= old(vol.storage.faults)
    ensures ok ==> forall k :: 1 <= k < |TableOf(vol)| ==> SlotOk(vol.super, TableOf(vol)[k])
    ensures ok ==> Ledger(TableOf(vol), vol.super, |TableOf(vol)|, claims) && |TableOf(vol)| == vol.super.inodeCount
    ensures ok ==> freeInodes == V.FreeSlots(TableOf(vol), |TableOf(vol)|)
    ensures !ok && vol.storage.faults == old(vol.storage.faults) ==>
      exists k :: 1 <= k < |TableOf(vol)| && !SlotOk(vol.super, TableOf(vol)[k])
  {
    hide Good, PoolOk, Durable, LaySet, SetOf, StageOf, Flat, Live, SlotsOf, KindOk, V.Sound, Ledger, SuperValid;
    vol.Shape();
    CountCap(vol.super);
    claims, freeInodes := [], 0;
    var n := 1;
    LedgerStart(TableOf(vol), vol.super);
    while n < vol.super.inodeCount
      invariant vol.Valid() && vol.storage.View() == old(vol.storage.View())
                && vol.storage.faults >= old(vol.storage.faults)
      invariant 1 <= n <= vol.super.inodeCount == |TableOf(vol)| && |claims| <= DIRECT_EXTENTS * (n - 1)
      invariant forall k :: 1 <= k < n ==> SlotOk(vol.super, TableOf(vol)[k])
      invariant Ledger(TableOf(vol), vol.super, n, claims)
      invariant freeInodes == V.FreeSlots(TableOf(vol), n)
    {
      var inode;
      ok, inode := ReadInode(vol, n);
      if !ok {
        assert !SlotOk(vol.super, TableOf(vol)[n]) || vol.storage.faults > old(vol.storage.faults);
        return;
      }
      if inode.mode == 0 {
        LedgerStep(TableOf(vol), vol.super, n, claims);
        freeInodes := freeInodes + 1;
      } else {
        ghost var before := claims;
        ok, claims := ClaimInode(vol.super, inode, claims);
        if !ok {
          assert !SlotOk(vol.super, TableOf(vol)[n]);
          return;
        }
        LedgerStep(TableOf(vol), vol.super, n, before);
      }
      n := n + 1;
    }
    ok := true;
  }

  lemma LedgerStart(t: V.Table, s: Superblock)
    requires |t| >= 1
    ensures Ledger(t, s, 1, [])
  {
  }

  lemma CountCap(s: Superblock)
    requires SuperValid(s, s.totalBlocks)
    ensures 0 < s.inodeCount <= 256
  {
  }

  // ---- phase two: the bitmap ----------------------------------------------

  /** The one bitmap block a scan keeps at hand; `window` is -1 when there is none. */
  ghost predicate Cached(vol: Volume, window: int, img: Image)
    reads vol`committed, vol`csuper
  {
    window >= 0 ==> window < |vol.Active().bitmap| && vol.Active().bitmap[window] == img
  }

  /** verify_bit: one bit of the active bitmap, re-reading only when the address leaves the block at hand. */
  method VerifyBit(vol: Volume, b: nat, window: int, img: Image) returns (bit: int, window': int, img': Image)
    requires vol.Valid() && b < vol.super.totalBlocks && Cached(vol, window, img)
    modifies vol.storage
    ensures vol.Valid() && vol.storage.View() == old(vol.storage.View())
            && vol.storage.faults >= old(vol.storage.faults)
    ensures Cached(vol, window', img')
    ensures bit == -1 || bit == if b in vol.Committed() then 1 else 0
    ensures bit == -1 ==> vol.storage.faults > old(vol.storage.faults)
  {
    hide Good, PoolOk, Durable, LaySet, SetOf, StageOf, BlockOf, BitAt;
    vol.Shape();
    window', img' := window, img;
    var index := b / BITS_PER_BLOCK;
    if index != window {
      var ok;
      ActiveImage(vol.storage.View(), vol.storage.disk, vol.storage.history, vol.windowStart, vol.committed,
        vol.device, vol.csuper, false, index);
      ok, img' := vol.BlockRead(vol.ActiveBlock(false, index));
      if !ok {
        return -1, window, img;
      }
      window' := index;
    }
    bit := if BitAt(img', b % BITS_PER_BLOCK) then 1 else 0;
  }

  ghost function DataBelow(used: set<nat>, s: Superblock, limit: nat): set<nat>
  {
    set b | b in used && IsData(s, b) && b < limit
  }

  /** The metadata prefix and tail must be allocated; allocated data blocks are counted. */
  method CountBitmap(vol: Volume, window: int, img: Image) returns (ok: bool, marked: nat, window': int, img': Image)
    requires vol.Valid() && Cached(vol, window, img)
    modifies vol.storage
    ensures vol.Valid() && vol.storage.View() == old(vol.storage.View())
            && vol.storage.faults >= old(vol.storage.faults)
    ensures Cached(vol, window', img')
    ensures ok ==> V.MetaMarked(vol.Committed(), vol.super) && marked == |V.DataUsed(vol.Committed(), vol.super)|
    ensures !ok && vol.storage.faults == old(vol.storage.faults) ==> !V.MetaMarked(vol.Committed(), vol.super)
  {
    hide Good, PoolOk, Durable, LaySet, SetOf, StageOf, CommittedUsed, Cached, DataBelow, V.DataUsed, SuperValid;
    window', img' := window, img;
    marked := 0;
    var block := 0;
    ghost var used, s := vol.Committed(), vol.super;
    DataBelowEnds(used, s);
    while block < vol.super.totalBlocks
      invariant vol.Valid() && vol.storage.View() == old(vol.storage.View())
                && vol.storage.faults >= old(vol.storage.faults)
      invariant 0 <= block <= vol.super.totalBlocks && Cached(vol, window', img')
      invariant forall b: nat :: b < block && !IsData(s, b) ==> b in used
      invariant marked == |DataBelow(used, s, block)|
    {
      var bit;
      bit, window', img' := VerifyBit(vol, block, window', img');
      if bit < 0 {
        return false, marked, window', img';
      }
      DataBelowStep(used, s, block);
      if block < vol.super.dataStart || block >= vol.super.checksumRegion {
        if bit == 0 {
          return false, marked, window', img';
        }
      } else if bit == 1 {
        marked := marked + 1;
      }
      block := block + 1;
    }
    vol.Shape();
    DataBelowEnds(used, s);
    ok := true;
  }

  lemma DataBelowStep(used: set<nat>, s: Superblock, block: nat)
    ensures |DataBelow(used, s, block + 1)| ==
            |DataBelow(used, s, block)| + if IsData(s, block) && block in used then 1 else 0
  {
    if IsData(s, block) && block in used {
      assert DataBelow(used, s, block + 1) == DataBelow(used, s, block) + {block};
    } else {
      assert DataBelow(used, s, block + 1) == DataBelow(used, s, block);
    }
  }

  lemma DataBelowEnds(used: set<nat>, s: Superblock)
    ensures DataBelow(used, s, 0) == {}
    ensures SuperValid(s, s.totalBlocks) ==> DataBelow(used, s, s.totalBlocks) == V.DataUsed(used, s)
  {
  }

  // ---- phase three: claims against the bitmap and each other ---------------

  /** Every claimed block is allocated. */
  method ClaimsMarked(vol: Volume, claims: seq<Extent>, window: int, img: Image) returns (ok: bool, claimed: nat)
    requires vol.Valid() && Cached(vol, window, img) && Positive(claims)
    requires forall i :: 0 <= i < |claims| ==> V.InSpan(vol.super, claims[i])
    modifies vol.storage
    ensures vol.Valid() && vol.storage.View() == old(vol.storage.View())
            && vol.storage.faults >= old(vol.storage.faults)
    ensures ok ==> claimed == |Flat(claims)| && forall b :: b in Flat(claims) ==> b in vol.Committed()
    ensures !ok && vol.storage.faults == old(vol.storage.faults) ==> exists b ::
      b in Flat(claims) && b !in vol.Committed()
  {
    hide Good, PoolOk, Durable, LaySet, SetOf, StageOf, CommittedUsed, Cached, Flat, SuperValid;
    NoneFlat();
    vol.Shape();
    SpanInVolume(vol.super);
    var window', img' := window, img;
    claimed := 0;
    var index := 0;
    LiveAll(claims);
    while index < |claims|
      invariant vol.Valid() && vol.storage.View() == old(vol.storage.View())
                && vol.storage.faults >= old(vol.storage.faults)
      invariant 0 <= index <= |claims| && Cached(vol, window', img')
      invariant claimed == |Flat(claims[..index])| && forall b :: b in Flat(claims[..index]) ==> b in vol.Committed()
    {
      var c := claims[index];
      var block := c.start;
      assert V.InSpan(vol.super, c);
      while block < c.start + c.length
        invariant vol.Valid() && vol.storage.View() == old(vol.storage.View())
                  && vol.storage.faults >= old(vol.storage.faults)
        invariant c.start <= block <= c.start + c.length && Cached(vol, window', img')
        invariant forall b: nat :: c.start <= b < block ==> b in vol.Committed()
      {
        var bit;
        bit, window', img' := VerifyBit(vol, block, window', img');
        if bit != 1 {
          FlatHas(claims, index, block);
          return false, claimed;
        }
        block := block + 1;
      }
      FlatStep(claims, index);
      claimed := claimed + c.length;
      index := index + 1;
    }
    assert claims[..index] == claims;
    ok := true;
  }

  lemma SpanInVolume(s: Superblock)
    requires SuperValid(s, s.totalBlocks)
    ensures s.checksumRegion < s.totalBlocks && s.dataStart < s.checksumRegion
  {
  }

  method Disjoint(claims: seq<Extent>) returns (ok: bool)
    ensures ok <==> NoOverlap(claims)
  {
    var outer := 0;
    while outer < |claims|
      invariant 0 <= outer <= |claims|
      invariant forall i, j :: 0 <= i < outer && i < j < |claims| ==> !Overlap(claims[i], claims[j])
    {
      var inner := outer + 1;
      while inner < |claims|
        invariant outer < inner <= |claims|
        invariant forall j :: outer < j < inner ==> !Overlap(claims[outer], claims[j])
      {
        if Overlap(claims[outer], claims[inner]) {
          return false;
        }
        inner := inner + 1;
      }
      outer := outer + 1;
    }
    ok := true;
  }

  // ---- the verdict --------------------------------------------------------

  /** Disjoint claims on allocated blocks with the same total are the allocated blocks. */
  lemma Pigeonhole(claims: seq<Extent>, held: set<nat>)
    requires Positive(claims) && NoOverlap(claims) && |Flat(claims)| == |held|
    requires forall b :: b in Flat(claims) ==> b in held
    ensures multiset(Flat(claims)) == multiset(held)
  {
    hide Flat;
    ApartOnce(claims);
    var q := Flat(claims);
    assert |multiset(q)| == |q| && |multiset(V.SetOfSeq(q))| == |V.SetOfSeq(q)|;
    SameSize(V.SetOfSeq(q), held);
  }

  lemma SameSize(a: set<nat>, b: set<nat>)
    requires a <= b && |a| == |b|
    ensures a == b
  {
    assert b == a + (b - a);
    assert |b - a| == 0;
  }

  /** And when the claims are the allocated blocks, none of the audit's checks can fail. */
  lemma Converse(claims: seq<Extent>, held: set<nat>)
    requires Positive(claims) && multiset(Flat(claims)) == multiset(held)
    ensures NoOverlap(claims) && |Flat(claims)| == |held|
    ensures forall b :: b in Flat(claims) ==> b in held
  {
    hide Flat;
    var q := Flat(claims);
    assert |multiset(q)| == |q| && |multiset(held)| == |held|;
    forall b | b in q
      ensures b in held
    {
      assert b in multiset(q);
    }
    V.OnceEach(q, held);
    forall i, j | 0 <= i < j < |claims|
      ensures !Overlap(claims[i], claims[j])
    {
      if Overlap(claims[i], claims[j]) {
        OverlapTwice(claims, i, j);
      }
    }
  }

  lemma InHeld(claims: seq<Extent>, used: set<nat>, s: Superblock)
    requires forall b :: b in Flat(claims) ==> b in V.DataUsed(used, s)
    ensures forall b :: b in Flat(claims) ==> b in used
  {
    hide Flat;
  }

  lemma ClaimsHeld(claims: seq<Extent>, used: set<nat>, s: Superblock)
    requires Positive(claims) && forall i :: 0 <= i < |claims| ==> V.InSpan(s, claims[i])
    requires forall b :: b in Flat(claims) ==> b in used
    ensures forall b :: b in Flat(claims) ==> b in V.DataUsed(used, s)
  {
    hide Flat;
    forall b | b in Flat(claims)
      ensures b in V.DataUsed(used, s)
    {
      V.FlatInSpan(s, claims, b);
    }
  }

  /**
    adytumfs_verify.  It accepts only a mountable volume, and, the device
    permitting, every mountable volume.
   */
  method Verify(vol: Volume) returns (ok: bool)
    requires vol.Valid()
    modifies vol.storage
    ensures vol.Valid() && vol.storage.View() == old(vol.storage.View())
    ensures ok ==> Mountable(vol.Committed(), TableOf(vol), vol.super)
    ensures !ok && vol.storage.faults == old(vol.storage.faults) ==>
      !Mountable(vol.Committed(), TableOf(vol), vol.super)
  {
    hide Good, PoolOk, Durable, LaySet, SetOf, StageOf, CommittedUsed, Flat, SlotsOf, KindOk, V.Sound, SuperValid,
         V.DataUsed, V.MetaMarked;
    var claims, freeInodes, marked, claimed, window, img;
    ok, claims, freeInodes := CollectClaims(vol);
    if !ok {
      return;
    }
    ok, marked, window, img := CountBitmap(vol, -1, Zeros(BLOCK_SIZE));
    if !ok {
      return;
    }
    ghost var held := V.DataUsed(vol.Committed(), vol.super);
    if multiset(Flat(claims)) == multiset(held) {
      Converse(claims, held);
      InHeld(claims, vol.Committed(), vol.super);
    }
    ok, claimed := ClaimsMarked(vol, claims, window, img);
    if !ok {
      return;
    }
    ok := Disjoint(claims);
    if !ok {
      return;
    }
    if claimed != marked {
      return false;
    }
    ClaimsHeld(claims, vol.Committed(), vol.super);
    Pigeonhole(claims, held);
    vol.Shape();
    ok := vol.super.freeInodes == freeInodes
    && vol.super.freeBlocks == vol.super.checksumRegion - vol.super.dataStart - marked;
  }

  // ---- the audit across commits and crashes -------------------------------

  /** The audit accepts this metadata set under this superblock. */
  ghost predicate AuditedSet(m: MetaSet, s: Superblock)
  {
    Mountable(UsedIn(m.bitmap, s.totalBlocks), SlotsOf(m.table, s.inodeCount), s)
  }

  /** Mounting these device contents finds a generation that a volume can be opened on and that the audit accepts. */
  ghost predicate MountsAudited(h: Disk, d: nat, blocks: nat)
  {
    var p := Pick(h, d, blocks);
    p.Some? && p.value.activeSlot <= 1 && Openable(h, d, p.value)
    && AuditedSet(SetOf(h, d, p.value, p.value.activeSlot), p.value)
  }

  /** Generation number and active slot are not part of the agreement. */
  lemma NextMountable(used: set<nat>, t: V.Table, s: Superblock)
    ensures Mountable(used, t, Next(s)) <==> Mountable(used, t, s)
  {
    hide Flat, V.Sound;
    V.DataUsedFrame(used, s, Next(s));
    forall k | 1 <= k < |t| && V.InUse(t[k])
      ensures V.Sound(Next(s), t[k].value) <==> V.Sound(s, t[k].value)
    {
      V.SoundFrame(s, Next(s), t[k].value);
    }
  }

  /** Between commits every crash leaves a device that mounts and passes the audit. */
  lemma OpenWindowAudits(vol: Volume, k: nat)
    requires vol.Valid() && AuditedSet(vol.Active(), vol.csuper) && vol.windowStart <= k < |vol.storage.history|
    ensures vol.storage.history[k].Keys == vol.storage.disk.Keys
    ensures MountsAudited(vol.storage.history[k], vol.device, vol.csuper.totalBlocks)
  {
    hide Good, PoolOk, AuditedSet, SetOf, Pick, Safe, Unpack, BlockOf, Geometry, Shaped, Openable, Raw;
    vol.Shape();
    vol.CrashMounts(k);
    SafeSlot(vol.storage.history[k], vol.committed, vol.device, vol.csuper);
    SafeSlot(vol.storage.disk, vol.committed, vol.device, vol.csuper);
    SafeOpens(vol.storage.history[k], vol.committed, vol.device, vol.csuper);
  }

  /** Either outcome of a crash during a commit mounts and passes the audit. */
  lemma CrashAudits(h: Disk, view: Disk, c: Disk, d: nat, s: Superblock, next: Superblock, want: MetaSet)
    requires Geometry(s, c, d) && Unpack(BlockOf(c, d, SuperSlot(s, s.activeSlot))) == Some(s.(activeSlot := 0))
    requires Shaped(Raw(c, d, SuperSlot(s, s.activeSlot)))
    requires AuditedSet(SetOf(c, d, s, s.activeSlot), s) && AuditedSet(want, next) && next.activeSlot <= 1
    requires CrashPoint(h, view, c, d, s, next, want) && view.Keys == c.Keys
    ensures MountsAudited(h, d, s.totalBlocks) && h.Keys == c.Keys
  {
    hide AuditedSet, SetOf, Safe, Pick, BlockOf, Unpack, SealOf, OnDisk, SuperValid, Shaped, Raw, Openable;
    if Safe(h, c, d, s) {
      SafeMounts(h, c, d, s);
      SafeOpens(h, c, d, s);
      SafeSlot(h, c, d, s);
    }
  }

  /**
    Where the stage covers the difference of the two sets, the commit publishes
    an audited set exactly when the window would pass the audit.
   */
  lemma WindowAudits(vol: Volume)
    requires vol.Valid() && Covers(Pair(vol.Active(), vol.Inactive()), StageOf(vol.pool, vol.device))
    ensures AuditedSet(vol.Target(), Next(vol.super)) <==> Mountable(vol.Used(), TableOf(vol), vol.super)
    ensures Next(vol.super).activeSlot <= 1
  {
    hide Good, PoolOk, Durable, LaySet, StageOf, SetOf, UsedIn, SlotsOf, Covers, Mountable;
    vol.Shape();
    vol.ExactPublication();
    NextMountable(vol.Used(), TableOf(vol), vol.super);
  }

  /**
    Agreement alone is not enough: an inode without a kind, such as a create
    with plain permission bits leaves behind, makes the audit reject the commit.
   */
  lemma KindlessRejected(vol: Volume, k: nat)
    requires vol.Valid() && Covers(Pair(vol.Active(), vol.Inactive()), StageOf(vol.pool, vol.device))
    requires V.InUse(InodeOf(vol, k)) && !KindOk(InodeOf(vol, k).value.mode)
    ensures !AuditedSet(vol.Target(), Next(vol.super))
  {
    hide Good, PoolOk, Durable, LaySet, StageOf, SetOf, UsedIn, SlotsOf, Covers, AuditedSet, V.ThreeViews, KindOk;
    WindowAudits(vol);
  }

  /** Permission bits alone name no kind. */
  lemma PlainBitsKindless(mode: u16)
    requires mode < MODE_LNK
    ensures !KindOk(mode)
  {
  }

  /** A table in agreement with one set of allocated data blocks agrees with no other. */
  lemma OtherBitsDisagree(used: set<nat>, used': set<nat>, t: V.Table, s: Superblock, b: nat)
    requires V.ThreeViews(used, t, s) && IsData(s, b) && (b in used <==> b !in used')
    ensures !V.ThreeViews(used', t, s)
  {
    assert b in V.DataUsed(used, s) <==> b !in V.DataUsed(used', s);
    assert multiset(V.DataUsed(used, s))[b] != multiset(V.DataUsed(used', s))[b];
  }

  /**
    What a commit that does not cover the difference can do: when the two sets
    differ in the bit of a data block whose bitmap block is not staged, while the
    table is published as the window shows it, the audit rejects the new generation.
   */
  lemma UncoveredRejected(vol: Volume, b: nat)
    requires vol.Valid() && Mountable(vol.Used(), TableOf(vol), vol.super) && IsData(vol.csuper, b)
    requires b / BITS_PER_BLOCK !in StageOf(vol.pool, vol.device).bitmap && vol.Target().table == vol.Window().table
    requires BitIn(vol.Active().bitmap, b) != BitIn(vol.Inactive().bitmap, b)
    ensures !AuditedSet(vol.Target(), Next(vol.super))
  {
    hide Good, PoolOk, Durable, LaySet, StageOf, SetOf, SlotsOf, V.ThreeViews, BitAt;
    vol.Shape();
    var i := b / BITS_PER_BLOCK;
    BlockOfBit(vol.csuper, b);
    vol.Unstaged(false, i);
    NextMountable(vol.Used(), TableOf(vol), vol.super);
    OtherBitsDisagree(vol.Used(), UsedIn(vol.Target().bitmap, vol.csuper.totalBlocks), TableOf(vol), Next(vol.super),
      b);
  }

  lemma BlockOfBit(s: Superblock, b: nat)
    requires SuperValid(s, s.totalBlocks) && b < s.totalBlocks
    ensures b / BITS_PER_BLOCK < s.bitmapBlocks
  {
  }

  /**
    adytumfs_commit of a window in agreement.  At every sector write of the
    commit a crash leaves a device that mounts and passes the audit.  After a
    success the published generation passes it, ready for the next window; after
    a failure that left the volume valid the same commit can be tried again.
   */
  method CommitAudited(vol: Volume) returns (ok: bool)
    requires vol.Valid() && vol.super.generation + 1 < U64_LIMIT
    requires Mountable(vol.Used(), TableOf(vol), vol.super) && AuditedSet(vol.Active(), vol.csuper)
    requires Covers(Pair(vol.Active(), vol.Inactive()), StageOf(vol.pool, vol.device))
    modifies vol`super, vol`pool, vol`csuper, vol`committed, vol`windowStart, vol.storage
    ensures |old(vol.storage.history)| <= |vol.storage.history|
    ensures forall k :: |old(vol.storage.history)| <= k < |vol.storage.history| ==>
      MountsAudited(vol.storage.history[k], vol.device, old(vol.csuper).totalBlocks)
      && vol.storage.history[k].Keys == old(vol.committed).Keys
    ensures CrashPoints(|old(vol.storage.history)|, vol.storage.history, old(vol.storage.View()), old(vol.committed),
                        vol.device, old(vol.csuper), Next(old(vol.super)), old(vol.Window()))
    ensures Mountable(vol.Used(), TableOf(vol), vol.super) && AuditedSet(vol.Active(), vol.csuper)
    ensures vol.Window() == old(vol.Window())
    ensures ok ==> vol.Valid() && StageOf(vol.pool, vol.device) == Stage(map[], map[])
    ensures || (ok && vol.super == vol.csuper == Next(old(vol.super)))
            || (vol.super == old(vol.super) && vol.csuper == old(vol.csuper) && vol.committed == old(vol.committed))
    ensures !ok ==> vol.pool == old(vol.pool)
    ensures !ok && vol.Valid() ==> Covers(Pair(vol.Active(), vol.Inactive()), StageOf(vol.pool, vol.device))
    ensures forall x: nat :: IsData(vol.csuper, x) ==>
      vol.Data(x) == old(vol.Data(x)) && vol.Seal(x) == old(vol.Seal(x))
  {
    hide Good, PoolOk, Durable, LaySet, StageOf, SetOf, UsedIn, SlotsOf, Covers, Mountable, CrashPoint, MountsAudited,
         Pick, Unpack, BlockOf, Safe, SealOf;
    WindowAudits(vol);
    vol.ExactPublication();
    ghost var first, view, c, d, s, next, want := |vol.storage.history|, vol.storage.View(), vol.committed, vol.device,
      vol.csuper, Next(vol.super), vol.Target();
    DurableParts(vol);
    LayNothing(vol.Active());
    ok := vol.Commit();
    LayNothing(vol.Active());
    if !ok && vol.Valid() {
      vol.ExactPublication();
    }
    forall k | first <= k < |vol.storage.history|
      ensures MountsAudited(vol.storage.history[k], d, s.totalBlocks) && vol.storage.history[k].Keys == c.Keys
    {
      CrashAudits(vol.storage.history[k], view, c, d, s, next, want);
    }
  }

  /** An empty stage shows the set it is laid over. */
  lemma LayNothing(m: MetaSet)
    ensures LaySet(m, Stage(map[], map[])) == m
  {
  }

  lemma DurableParts(vol: Volume)
    requires vol.Valid()
    ensures Geometry(vol.csuper, vol.committed, vol.device)
    ensures Unpack(BlockOf(vol.committed, vol.device, SuperSlot(vol.csuper, vol.csuper.activeSlot)))
      == Some(vol.csuper.(activeSlot := 0))
    ensures Shaped(Raw(vol.committed, vol.device, SuperSlot(vol.csuper, vol.csuper.activeSlot)))
    ensures vol.storage.View().Keys == vol.storage.disk.Keys == vol.committed.Keys
  {
    hide Good, PoolOk, Safe, Unpack, BlockOf, Geometry, Shaped, Raw;
    SafeSlot(vol.storage.View(), vol.committed, vol.device, vol.csuper);
    SafeSlot(vol.storage.disk, vol.committed, vol.device, vol.csuper);
  }

  /**
    Mounting after a crash: the surviving device contents behind an empty cache,
    with nothing staged.  The volume is valid and in agreement, so everything
    proved of open windows and commits applies to it again.
   */
  method Reopen(sizes: map<nat, u32>, h: Disk, d: nat, s: Superblock) returns (vol: Volume)
    requires DiskShape(sizes, h) && d in sizes && sizes[d] / SECTORS_PER_BLOCK == s.totalBlocks
    requires MountsAudited(h, d, s.totalBlocks) && Pick(h, d, s.totalBlocks) == Some(s)
    ensures fresh(vol) && fresh(vol.storage) && vol.Valid()
    ensures vol.device == d && vol.super == vol.csuper == s && vol.storage.disk == h && vol.storage.history == [h]
    ensures vol.storage.View() == vol.committed == h && vol.Window() == vol.Active() == SetOf(h, d, s, s.activeSlot)
    ensures Mountable(vol.Used(), TableOf(vol), vol.super) && AuditedSet(vol.Active(), vol.csuper)
  {
    hide Good, PoolOk, Durable, LaySet, SetOf, UsedIn, SlotsOf, Mountable, Pick, Openable;
    var storage := new Storage(sizes, h);
    var pool := seq(POOL, _ => Free);
    NothingStaged(pool, d);
    vol := new Volume(storage, d, s, pool);
    LayNothing(vol.Active());
  }
}
