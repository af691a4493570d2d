/**
  The three records of allocation - bitmap, extents, counters - and what keeps
  them in agreement (src/fs/adytumfs_inode.c, src/fs/adytumfs_verify.c).
 */
module Views {
  import opened Bytes
  import opened Superblocks
  import opened Durability
  import opened Extents
  import opened Inodes

  /** The inode table by slot; None marks a slot that does not parse. */
  type Table = seq<Option<Inode>>

  predicate InUse(o: Option<Inode>)
  {
    o.Some? && o.value.mode != 0
  }

  /** The data blocks a slot claims. */
  function Claims(o: Option<Inode>): seq<nat>
  {
    if InUse(o) then Flat(o.value.direct) else []
  }

  /** Every claim of slots 1..n, with multiplicity. */
  ghost function Owned(t: Table, n: nat): multiset<nat>
    requires n <= |t|
  {
    if n <= 1 then multiset{} else Owned(t, n - 1) + multiset(Claims(t[n - 1]))
  }

  function FreeSlots(t: Table, n: nat): (r: nat)
    requires n <= |t|
    ensures r <= n
  {
    if n <= 1 then 0 else FreeSlots(t, n - 1) + if InUse(t[n - 1]) then 0 else 1
  }

  /** An extent inside the allocatable span. */
  predicate InSpan(s: Superblock, e: Extent)
  {
    s.dataStart <= e.start && e.start + e.length <= s.checksumRegion
  }

  predicate Sound(s: Superblock, i: Inode)
  {
    && Packed(i.direct)
    && (forall k :: 0 <= k < DIRECT_EXTENTS && i.direct[k].length > 0 ==> InSpan(s, i.direct[k]))
    && i.blocks == |Flat(i.direct)|
  }

  function DataUsed(used: set<nat>, s: Superblock): set<nat>
  {
    set b | b in used && IsData(s, b)
  }

  predicate MetaMarked(used: set<nat>, s: Superblock)
  {
    forall b: nat :: b < s.totalBlocks && !IsData(s, b) ==> b in used
  }

  predicate SlotsSound(t: Table, s: Superblock)
  {
    forall k :: 1 <= k < |t| ==> t[k].Some? && (InUse(t[k]) ==> Sound(s, t[k].value))
  }

  /**
    Bitmap, extents and counters agree.  One multiset equation says that the
    extents are pairwise disjoint and cover exactly the allocated data blocks.
   */
  ghost predicate ThreeViews(used: set<nat>, t: Table, s: Superblock)
  {
    && |t| == s.inodeCount
    && SlotsSound(t, s)
    && Owned(t, |t|) == multiset(DataUsed(used, s))
    && MetaMarked(used, s)
    && s.freeInodes == FreeSlots(t, |t|)
    && s.freeBlocks == s.checksumRegion - s.dataStart - |DataUsed(used, s)|
  }

  // ---- sums over the table ------------------------------------------------

  lemma {:induction false} OwnedFrame(t: Table, n: nat, k: nat, o: Option<Inode>)
    requires n <= k < |t|
    ensures Owned(t[k := o], n) == Owned(t, n)
  {
    if n > 1 {
      OwnedFrame(t, n - 1, k, o);
    }
  }

  lemma {:induction false} OwnedUpdate(t: Table, n: nat, k: nat, o: Option<Inode>)
    requires 1 <= k < n <= |t|
    ensures Owned(t[k := o], n) + multiset(Claims(t[k])) == Owned(t, n) + multiset(Claims(o))
  {
    hide Claims;
    var u := t[k := o];
    assert Owned(u, n) == Owned(u, n - 1) + multiset(Claims(u[n - 1]));
    assert Owned(t, n) == Owned(t, n - 1) + multiset(Claims(t[n - 1]));
    hide Owned;
    if k == n - 1 {
      OwnedFrame(t, n - 1, k, o);
    } else {
      OwnedUpdate(t, n - 1, k, o);
      AddBoth(Owned(u, n - 1), multiset(Claims(t[k])), Owned(t, n - 1), multiset(Claims(o)),
        multiset(Claims(t[n - 1])));
    }
  }

  lemma AddBoth(a: multiset<nat>, x: multiset<nat>, b: multiset<nat>, y: multiset<nat>, c: multiset<nat>)
    requires a + x == b + y
    ensures (a + c) + x == (b + c) + y
  {
    forall e
      ensures ((a + c) + x)[e] == ((b + c) + y)[e]
    {
      assert (a + x)[e] == (b + y)[e];
    }
  }

  lemma {:induction false} FreeUpdate(t: Table, n: nat, k: nat, o: Option<Inode>)
    requires n <= |t| && 1 <= k < |t|
    ensures FreeSlots(t[k := o], n) + (if k < n && !InUse(t[k]) then 1 else 0)
         == FreeSlots(t, n) + (if k < n && !InUse(o) then 1 else 0)
  {
    hide InUse;
    if n > 1 {
      FreeUpdate(t, n - 1, k, o);
    }
  }

  lemma {:induction false} ClaimsOwned(t: Table, n: nat, k: nat)
    requires n <= |t| && 1 <= k < n
    ensures multiset(Claims(t[k])) <= Owned(t, n)
  {
    hide Claims;
    if k < n - 1 {
      ClaimsOwned(t, n - 1, k);
    }
  }

  lemma {:induction false} TwoClaimsOwned(t: Table, n: nat, j: nat, k: nat)
    requires 1 <= j < k < n <= |t|
    ensures multiset(Claims(t[j])) + multiset(Claims(t[k])) <= Owned(t, n)
  {
    hide Claims;
    assert Owned(t, n) == Owned(t, n - 1) + multiset(Claims(t[n - 1]));
    if k == n - 1 {
      ClaimsOwned(t, n - 1, j);
    } else {
      TwoClaimsOwned(t, n - 1, j, k);
    }
  }

  /** No block belongs to two slots. */
  lemma ClaimsApart(used: set<nat>, t: Table, s: Superblock, j: nat, k: nat, b: nat)
    requires ThreeViews(used, t, s) && 1 <= j < |t| && 1 <= k < |t| && j != k && b in Claims(t[j])
    ensures b !in Claims(t[k])
  {
    hide Claims, Sound, IsData;
    TwoClaimsOwned(t, |t|, if j < k then j else k, if j < k then k else j);
    assert b in multiset(Claims(t[j]));
    var both := multiset(Claims(t[j])) + multiset(Claims(t[k]));
    assert both <= multiset(DataUsed(used, s)) && multiset(DataUsed(used, s))[b] <= 1;
    assert both[b] == multiset(Claims(t[j]))[b] + multiset(Claims(t[k]))[b];
  }

  // ---- sets, runs and multisets -------------------------------------------

  function SetOfSeq(q: seq<nat>): set<nat>
  {
    set b | b in q
  }

  lemma {:induction false} RangeMultiset(start: nat, length: nat)
    ensures multiset(Range(start, length)) == multiset(SetOfSeq(Range(start, length)))
    ensures |SetOfSeq(Range(start, length))| == length
  {
    if length == 0 {
      assert Range(start, 0) == [] && SetOfSeq(Range(start, 0)) == {};
    } else {
      RangeMultiset(start, length - 1);
      var p, last := Range(start, length - 1), start + length - 1;
      assert last !in SetOfSeq(p);
      assert Range(start, length) == p + [last];
      OnceMore(p, last);
    }
  }

  lemma OnceMore(q: seq<nat>, b: nat)
    requires multiset(q) == multiset(SetOfSeq(q)) && b !in SetOfSeq(q)
    ensures multiset(q + [b]) == multiset(SetOfSeq(q + [b])) && |SetOfSeq(q + [b])| == |SetOfSeq(q)| + 1
  {
    hide SetOfSeq;
    SetOfMore(q, b);
    var held := SetOfSeq(q);
    assert multiset(held + {b}) == multiset(held) + multiset{b};
  }

  lemma SetOfMore(q: seq<nat>, b: nat)
    ensures SetOfSeq(q + [b]) == SetOfSeq(q) + {b}
  {
  }

  /** A sequence whose elements a set holds once each has no repetition. */
  lemma {:induction false} OnceEach(q: seq<nat>, held: set<nat>)
    requires multiset(q) <= multiset(held)
    ensures multiset(q) == multiset(SetOfSeq(q)) && SetOfSeq(q) <= held && |SetOfSeq(q)| == |q|
  {
    forall b | b in q
      ensures b in held && multiset(q)[b] == 1
    {
      assert b in multiset(q);
      assert multiset(q)[b] <= multiset(held)[b];
    }
    assert multiset(q) == multiset(SetOfSeq(q));
    assert |multiset(q)| == |q| && |multiset(SetOfSeq(q))| == |SetOfSeq(q)|;
  }

  lemma {:induction false} SpanSize(held: set<nat>, low: nat, high: nat)
    requires low <= high && forall b :: b in held ==> low <= b < high
    ensures |held| <= high - low
  {
    if low == high {
      assert held == {};
    } else {
      SpanSize(held - {high - 1}, low, high - 1);
    }
  }

  // ---- what soundness gives -----------------------------------------------

  lemma {:induction false} FlatInSpan(s: Superblock, exts: seq<Extent>, b: nat)
    requires forall k :: 0 <= k < |exts| && exts[k].length > 0 ==> InSpan(s, exts[k])
    requires b in Flat(exts)
    ensures IsData(s, b)
  {
    var e, rest := exts[0], exts[1..];
    if b in Range(e.start, e.length) {
      assert InSpan(s, e);
    } else {
      forall k | 0 <= k < |rest| && rest[k].length > 0
        ensures InSpan(s, rest[k])
      {
        assert rest[k] == exts[k + 1];
      }
      FlatInSpan(s, rest, b);
    }
  }

  /** A packed list whose every block is a data block has every extent inside the span. */
  lemma {:induction false} SpanFromFlat(s: Superblock, exts: seq<Extent>)
    requires Packed(exts) && forall b :: b in Flat(exts) ==> IsData(s, b)
    ensures forall k :: 0 <= k < |exts| && exts[k].length > 0 ==> InSpan(s, exts[k])
  {
    if exts != [] && exts[0].length > 0 {
      var e := exts[0];
      assert Flat(exts)[0] == e.start && Flat(exts)[e.length - 1] == e.start + e.length - 1;
      assert e.start in Flat(exts) && e.start + e.length - 1 in Flat(exts);
      assert InSpan(s, e);
      forall b | b in Flat(exts[1..])
        ensures IsData(s, b)
      {
        assert b in Flat(exts);
      }
      SpanFromFlat(s, exts[1..]);
      forall k | 0 <= k < |exts| && exts[k].length > 0
        ensures InSpan(s, exts[k])
      {
        assert k > 0 ==> exts[k] == exts[1..][k - 1];
      }
    }
  }

  lemma {:induction false} FlatBound(s: Superblock, exts: seq<Extent>)
    requires s.dataStart <= s.checksumRegion
    requires forall k :: 0 <= k < |exts| && exts[k].length > 0 ==> InSpan(s, exts[k])
    ensures |Flat(exts)| <= |exts| * (s.checksumRegion - s.dataStart)
  {
    if exts != [] && exts[0].length > 0 {
      assert InSpan(s, exts[0]);
      forall k | 0 <= k < |exts[1..]| && exts[1..][k].length > 0
        ensures InSpan(s, exts[1..][k])
      {
        assert exts[1..][k] == exts[k + 1];
      }
      FlatBound(s, exts[1..]);
      OneMoreTimes(|exts[1..]|, s.checksumRegion - s.dataStart);
      assert |Flat(exts)| == exts[0].length + |Flat(exts[1..])|;
    } else {
      assert |Flat(exts)| == 0;
    }
  }

  lemma OneMoreTimes(n: nat, span: nat)
    ensures (n + 1) * span == span + n * span && n * span >= 0
  {
  }

  /** Sound extents on a volume of under 2^27 blocks fit the format's integers. */
  lemma SoundIsBounded(s: Superblock, i: Inode)
    requires Sound(s, i) && s.dataStart <= s.checksumRegion <= 0x80_0000
    ensures Bounded(i.direct) && |Flat(i.direct)| <= 10 * s.checksumRegion
  {
    hide Flat;
    FlatBound(s, i.direct);
  }

  /** Under agreement a used inode's blocks are distinct, allocated data blocks. */
  lemma SoundBlocks(used: set<nat>, t: Table, s: Superblock, k: nat)
    requires ThreeViews(used, t, s) && 1 <= k < |t| && InUse(t[k])
    ensures var q := Flat(t[k].value.direct);
      && multiset(q) == multiset(SetOfSeq(q)) && SetOfSeq(q) <= DataUsed(used, s) && |SetOfSeq(q)| == |q|
      && |q| <= s.checksumRegion - s.dataStart
  {
    hide Flat, IsData;
    ClaimsOwned(t, |t|, k);
    var q := Flat(t[k].value.direct);
    OnceEach(q, DataUsed(used, s));
    SubsetSize(SetOfSeq(q), DataUsed(used, s));
  }

  lemma {:induction false} SubsetSize(a: set<nat>, b: set<nat>)
    requires a <= b
    ensures |a| <= |b|
  {
    assert b == a + (b - a);
  }

  // ---- edits that keep the agreement --------------------------------------

  /** A used inode trades its blocks for others while the bitmap follows. */
  lemma Reown(used: set<nat>, t: Table, s: Superblock, k: nat, x: Inode, used': set<nat>, s': Superblock)
    requires ThreeViews(used, t, s) && 1 <= k < |t| && InUse(t[k]) && x.mode != 0 && Sound(s, x)
    requires multiset(DataUsed(used', s)) + multiset(Flat(t[k].value.direct))
      == multiset(DataUsed(used, s)) + multiset(Flat(x.direct))
    requires MetaMarked(used', s)
    requires s' == s.(freeBlocks := s'.freeBlocks)
             && s'.freeBlocks == s.checksumRegion - s.dataStart - |DataUsed(used', s)|
    ensures ThreeViews(used', t[k := Some(x)], s')
  {
    hide Flat, IsData, MetaMarked, Sound;
    OwnedUpdate(t, |t|, k, Some(x));
    FreeUpdate(t, |t|, k, Some(x));
    SoundFrame(s, s', x);
    SlotsFrame(t, s, s', k, Some(x));
    DataUsedFrame(used', s, s');
    MetaFrame(used', s, s');
    CancelMultiset(Owned(t[k := Some(x)], |t|), multiset(DataUsed(used', s)), multiset(Flat(t[k].value.direct)));
  }

  lemma CancelMultiset(a: multiset<nat>, b: multiset<nat>, c: multiset<nat>)
    requires a + c == b + c
    ensures a == b
  {
    forall x
      ensures a[x] == b[x]
    {
      assert (a + c)[x] == a[x] + c[x] && (b + c)[x] == b[x] + c[x];
    }
  }

  lemma SoundFrame(s: Superblock, s': Superblock, x: Inode)
    requires s'.dataStart == s.dataStart && s'.checksumRegion == s.checksumRegion
    ensures Sound(s', x) == Sound(s, x)
  {
    hide Flat;
  }

  lemma SlotsFrame(t: Table, s: Superblock, s': Superblock, k: nat, o: Option<Inode>)
    requires SlotsSound(t, s) && 1 <= k < |t|
    requires s'.dataStart == s.dataStart && s'.checksumRegion == s.checksumRegion
    requires o.Some? && (InUse(o) ==> Sound(s, o.value))
    ensures SlotsSound(t[k := o], s')
  {
    hide Sound;
    var u := t[k := o];
    forall j | 1 <= j < |u|
      ensures u[j].Some? && (InUse(u[j]) ==> Sound(s', u[j].value))
    {
      SoundFrame(s, s', u[j].value);
    }
  }

  lemma DataUsedFrame(used: set<nat>, s: Superblock, s': Superblock)
    requires s'.dataStart == s.dataStart && s'.checksumRegion == s.checksumRegion
    ensures DataUsed(used, s') == DataUsed(used, s)
  {
  }

  lemma MetaFrame(used: set<nat>, s: Superblock, s': Superblock)
    requires s'.dataStart == s.dataStart && s'.checksumRegion == s.checksumRegion && s'.totalBlocks == s.totalBlocks
    ensures MetaMarked(used, s') == MetaMarked(used, s)
  {
  }

  /** adytumfs_inode_grow: a fresh run joins the file. */
  lemma GrowViews(used: set<nat>, t: Table, s: Superblock, k: nat, x: Inode, start: nat, add: nat, s': Superblock)
    requires ThreeViews(used, t, s) && 1 <= k < |t| && InUse(t[k]) && x.mode != 0 && Sound(s, x)
    requires Flat(x.direct) == Flat(t[k].value.direct) + Range(start, add)
    requires s.dataStart <= start && start + add <= s.checksumRegion && SetOfSeq(Range(start, add)) !! used
    requires s' == s.(freeBlocks := s'.freeBlocks) && s'.freeBlocks == s.freeBlocks - add
    ensures ThreeViews(used + SetOfSeq(Range(start, add)), t[k := Some(x)], s')
  {
    hide Flat, Sound, DataUsed, SetOfSeq, Range, Owned, FreeSlots, SlotsSound;
    var run, q := SetOfSeq(Range(start, add)), Flat(t[k].value.direct);
    RangeMultiset(start, add);
    RangeIsData(start, add, s);
    UsedGrow(used, run, s);
    assert multiset(q + Range(start, add)) == multiset(q) + multiset(Range(start, add));
    Reown(used, t, s, k, x, used + run, s');
  }

  lemma RangeIsData(start: nat, add: nat, s: Superblock)
    requires s.dataStart <= start && start + add <= s.checksumRegion
    ensures forall b :: b in SetOfSeq(Range(start, add)) ==> IsData(s, b)
  {
  }

  lemma UsedGrow(used: set<nat>, run: set<nat>, s: Superblock)
    requires run !! used && forall b :: b in run ==> IsData(s, b)
    ensures DataUsed(used + run, s) == DataUsed(used, s) + run
    ensures multiset(DataUsed(used + run, s)) == multiset(DataUsed(used, s)) + multiset(run)
    ensures |DataUsed(used + run, s)| == |DataUsed(used, s)| + |run|
    ensures MetaMarked(used, s) ==> MetaMarked(used + run, s)
  {
    assert DataUsed(used + run, s) == DataUsed(used, s) + run;
    assert DataUsed(used, s) !! run;
  }

  /** adytumfs_inode_remap: one block of the file moves. */
  lemma RemapViews(used: set<nat>, t: Table, s: Superblock, k: nat, x: Inode, logical: nat, target: nat)
    requires ThreeViews(used, t, s) && 1 <= k < |t| && InUse(t[k]) && x.mode != 0 && Sound(s, x)
    requires logical < |Flat(t[k].value.direct)| && Flat(x.direct) == Flat(t[k].value.direct)[logical := target]
    requires IsData(s, target) && target !in used
    ensures Flat(t[k].value.direct)[logical] in used
    ensures ThreeViews(used + {target} - {Flat(t[k].value.direct)[logical]}, t[k := Some(x)], s)
  {
    hide Flat;
    var q := Flat(t[k].value.direct);
    var gone := q[logical];
    SoundBlocks(used, t, s, k);
    assert gone in SetOfSeq(q);
    var used' := used + {target} - {gone};
    assert DataUsed(used', s) == DataUsed(used, s) + {target} - {gone};
    assert multiset(DataUsed(used', s)) + multiset{gone} == multiset(DataUsed(used, s)) + multiset{target};
    assert multiset(q[logical := target]) + multiset{gone} == multiset(q) + multiset{target} by {
      assert q == q[..logical] + [gone] + q[logical + 1..];
      assert q[logical := target] == q[..logical] + [target] + q[logical + 1..];
    }
    SwapMultiset(multiset(DataUsed(used', s)), multiset(DataUsed(used, s)), multiset(q),
      multiset(q[logical := target]), gone, target);
    assert |DataUsed(used', s)| == |DataUsed(used, s)|;
    Reown(used, t, s, k, x, used', s);
  }

  lemma SwapMultiset(d': multiset<nat>, d: multiset<nat>, q: multiset<nat>, q': multiset<nat>, gone: nat, target: nat)
    requires d' + multiset{gone} == d + multiset{target}
    requires q' + multiset{gone} == q + multiset{target}
    ensures d' + q == d + q'
  {
    forall x
      ensures (d' + q)[x] == (d + q')[x]
    {
      assert (d' + multiset{gone})[x] == (d + multiset{target})[x];
      assert (q' + multiset{gone})[x] == (q + multiset{target})[x];
    }
  }

  /** adytumfs_inode_truncate: the tail of the file is released. */
  lemma TruncateViews(used: set<nat>, t: Table, s: Superblock, k: nat, x: Inode, keep: nat, s': Superblock)
    requires ThreeViews(used, t, s) && 1 <= k < |t| && InUse(t[k]) && x.mode != 0 && Sound(s, x)
    requires keep <= |Flat(t[k].value.direct)| && Flat(x.direct) == Flat(t[k].value.direct)[..keep]
    requires s' == s.(freeBlocks := s'.freeBlocks) && s'.freeBlocks == s.freeBlocks + (|Flat(t[k].value.direct)| - keep)
    ensures ThreeViews(used - SetOfSeq(Flat(t[k].value.direct)[keep..]), t[k := Some(x)], s')
  {
    hide Flat;
    var q := Flat(t[k].value.direct);
    var cut := q[keep..];
    SoundBlocks(used, t, s, k);
    assert q == q[..keep] + cut;
    assert multiset(cut) <= multiset(q);
    OnceEach(cut, DataUsed(used, s));
    var used' := used - SetOfSeq(cut);
    assert DataUsed(used', s) == DataUsed(used, s) - SetOfSeq(cut);
    assert multiset(DataUsed(used', s)) + multiset(SetOfSeq(cut)) == multiset(DataUsed(used, s));
    assert |DataUsed(used', s)| == |DataUsed(used, s)| - |SetOfSeq(cut)|;
    Reown(used, t, s, k, x, used', s');
  }

  /** adytumfs_inode_alloc: a free slot becomes an inode without blocks. */
  lemma BirthViews(used: set<nat>, t: Table, s: Superblock, k: nat, x: Inode)
    requires ThreeViews(used, t, s) && 1 <= k < |t| && !InUse(t[k])
    requires x.mode != 0 && Sound(s, x) && Flat(x.direct) == []
    ensures s.freeInodes > 0
    ensures ThreeViews(used, t[k := Some(x)], s.(freeInodes := s.freeInodes - 1))
  {
    hide Flat, IsData, Sound, MetaMarked;
    var s' := if s.freeInodes > 0 then s.(freeInodes := s.freeInodes - 1) else s;
    OwnedUpdate(t, |t|, k, Some(x));
    FreeUpdate(t, |t|, k, Some(x));
    SlotsFrame(t, s, s', k, Some(x));
    DataUsedFrame(used, s, s');
    MetaFrame(used, s, s');
    assert Claims(t[k]) == Claims(Some(x)) == [];
    CancelMultiset(Owned(t[k := Some(x)], |t|), Owned(t, |t|), multiset([]));
  }

  /** adytumfs_inode_free: an inode that owns no blocks any more leaves the table. */
  lemma DeathViews(used: set<nat>, t: Table, s: Superblock, k: nat, x: Inode)
    requires ThreeViews(used, t, s) && 1 <= k < |t| && InUse(t[k])
    requires x.mode == 0 && Flat(t[k].value.direct) == []
    ensures s.freeInodes < s.inodeCount
    ensures ThreeViews(used, t[k := Some(x)], s.(freeInodes := s.freeInodes + 1))
  {
    hide Flat, IsData, Sound, MetaMarked;
    FreeUpdate(t, |t|, k, Some(x));
    OwnedUpdate(t, |t|, k, Some(x));
    var s' := s.(freeInodes := s.freeInodes + 1);
    SlotsFrame(t, s, s', k, Some(x));
    DataUsedFrame(used, s, s');
    MetaFrame(used, s, s');
    assert Claims(t[k]) == Claims(Some(x)) == [];
    CancelMultiset(Owned(t[k := Some(x)], |t|), Owned(t, |t|), multiset([]));
  }
}
