/** Extent lists and what they mean: a sequence of physical blocks (src/fs/adytumfs_inode.c). */
module Extents {
  import opened Bytes

  const DIRECT_EXTENTS := 10

  datatype Extent = Extent(start: u64, length: u32, flags: u32)

  type Direct = d: seq<Extent> | |d| == DIRECT_EXTENTS
    witness seq(10, _ => Extent(0, 0, 0))

  const NO_EXTENT := Extent(0, 0, 0)

  function Range(start: nat, length: nat): (r: seq<nat>)
    ensures |r| == length
    ensures forall i :: 0 <= i < length ==> r[i] == start + i
  {
    seq(length, i => start + i)
  }

  /** The physical blocks a list of extents maps, in logical order; a zero length ends the list. */
  function Flat(exts: seq<Extent>): (r: seq<nat>)
  {
    if exts == [] || exts[0].length == 0 then []
    else Range(exts[0].start, exts[0].length) + Flat(exts[1..])
  }

  /** The number of extents before the terminator. */
  function Live(exts: seq<Extent>): (n: nat)
    ensures n <= |exts|
    ensures forall i :: 0 <= i < n ==> exts[i].length > 0
    ensures n < |exts| ==> exts[n].length == 0
  {
    if exts == [] || exts[0].length == 0 then 0 else 1 + Live(exts[1..])
  }

  /** Extents are packed from the front. */
  predicate Packed(exts: seq<Extent>)
  {
    forall i, j :: 0 <= i < j < |exts| && exts[i].length == 0 ==> exts[j].length == 0
  }

  lemma TakeTake(exts: seq<Extent>, a: nat, b: nat)
    requires a <= b <= |exts|
    ensures exts[..b][..a] == exts[..a]
    ensures a < b ==> exts[..b][a + 1..] == exts[a + 1..b]
  {
  }

  lemma {:induction false} FlatPrefix(exts: seq<Extent>, n: nat)
    requires n <= Live(exts)
    ensures Flat(exts) == Flat(exts[..n]) + Flat(exts[n..])
  {
    if n == 0 {
      assert exts[..0] == [] && exts[0..] == exts;
    } else {
      FlatPrefix(exts[1..], n - 1);
      var front := exts[..n];
      assert front[0] == exts[0] && front[1..] == exts[1..][..n - 1] && exts[1..][n - 1..] == exts[n..];
      assert Flat(exts) == Range(exts[0].start, exts[0].length) + Flat(exts[1..]);
      assert Flat(front) == Range(exts[0].start, exts[0].length) + Flat(exts[1..][..n - 1]);
    }
  }

  lemma FlatLive(exts: seq<Extent>)
    ensures Flat(exts) == Flat(exts[..Live(exts)])
  {
    FlatPrefix(exts, Live(exts));
  }

  lemma {:induction false} LiveAll(exts: seq<Extent>)
    requires forall i :: 0 <= i < |exts| ==> exts[i].length > 0
    ensures Live(exts) == |exts|
  {
    if exts != [] {
      LiveAll(exts[1..]);
    }
  }

  lemma FlatConcat(a: seq<Extent>, b: seq<Extent>)
    requires forall i :: 0 <= i < |a| ==> a[i].length > 0
    ensures Flat(a + b) == Flat(a) + Flat(b)
  {
    var s := a + b;
    LiveAtLeast(s, |a|);
    FlatPrefix(s, |a|);
    assert s[..|a|] == a && s[|a|..] == b;
  }

  lemma {:induction false} LiveAtLeast(exts: seq<Extent>, n: nat)
    requires n <= |exts| && forall i :: 0 <= i < n ==> exts[i].length > 0
    ensures Live(exts) >= n
  {
    if n > 0 {
      LiveAtLeast(exts[1..], n - 1);
    }
  }

  lemma NoneFlat()
    ensures Flat([]) == []
    ensures forall exts: seq<Extent> :: exts != [] && exts[0].length == 0 ==> Flat(exts) == []
  {
  }

  lemma FlatOne(e: Extent)
    ensures Flat([e]) == Range(e.start, e.length)
  {
    assert [e][1..] == [];
    assert Range(e.start, e.length) + [] == Range(e.start, e.length);
    if e.length == 0 {
      assert Range(e.start, 0) == [];
    }
  }

  /** adytumfs_inode_map: exactly the flattened list. */
  method InodeMap(direct: Direct, logical: nat) returns (ok: bool, physical: nat)
    ensures ok <==> logical < |Flat(direct)|
    ensures ok ==> physical == Flat(direct)[logical]
  {
    physical := 0;
    var base := 0;
    var index := 0;
    while index < DIRECT_EXTENTS
      invariant 0 <= index <= Live(direct) && index <= DIRECT_EXTENTS
      invariant base == |Flat(direct[..index])| && base <= logical
    {
      FlatPrefix(direct, index);
      var length := direct[index].length;
      if length == 0 {
        assert direct[index..][0] == direct[index];
        return false, 0;
      }
      assert direct[..index + 1] == direct[..index] + [direct[index]];
      FlatConcat(direct[..index], [direct[index]]);
      FlatOne(direct[index]);
      LiveAtLeast(direct, index + 1);
      FlatPrefix(direct, index + 1);
      if logical < base + length {
        physical := direct[index].start + (logical - base);
        return true, physical;
      }
      base := base + length;
      index := index + 1;
    }
    assert direct[..DIRECT_EXTENTS] == direct;
    return false, 0;
  }

  // ---- rerouting one block ------------------------------------------------

  /** The pieces that replace an extent when block `offset` of it moves to `target`. */
  function Pieces(e: Extent, offset: nat, target: u64): (p: seq<Extent>)
    requires offset < e.length && e.start + e.length < U64_LIMIT
    ensures 1 <= |p| <= 3
    ensures forall i :: 0 <= i < |p| ==> p[i].length > 0
  {
    (if offset > 0 then [Extent(e.start, offset, 0)] else [])
    + [Extent(target, 1, 0)]
    + (if offset + 1 < e.length then [Extent(e.start + offset + 1, e.length - offset - 1, 0)] else [])
  }

  lemma PiecesFlat(e: Extent, offset: nat, target: u64)
    requires offset < e.length && e.start + e.length < U64_LIMIT
    ensures Flat(Pieces(e, offset, target)) == Range(e.start, e.length)[offset := target]
  {
    hide Flat;
    NoneFlat();
    var a := if offset > 0 then [Extent(e.start, offset, 0)] else [];
    var b := [Extent(target, 1, 0)];
    var c := if offset + 1 < e.length then [Extent(e.start + offset + 1, e.length - offset - 1, 0)] else [];
    FlatConcat(a + b, c);
    FlatConcat(a, b);
    FlatOne(Extent(target, 1, 0));
    FlatOne(Extent(e.start, offset, 0));
    FlatOne(Extent(if offset + 1 < e.length then e.start + offset + 1 else 0, e.length - offset - 1, 0));
    SplitRange(e.start, e.length, offset, target);
  }

  lemma SplitRange(start: nat, length: nat, offset: nat, target: nat)
    requires offset < length
    ensures Range(start, offset) + Range(target, 1) + Range(start + offset + 1, length - offset - 1)
         == Range(start, length)[offset := target]
  {
  }

  /** Splicing the pieces in changes the mapping at exactly one logical block. */
  lemma SpliceFlat(exts: seq<Extent>, index: nat, logical: nat, target: u64)
    requires index < |exts| && forall i :: 0 <= i < |exts| ==> exts[i].length > 0
    requires var base := |Flat(exts[..index])|;
             base <= logical < base + exts[index].length && exts[index].start + exts[index].length < U64_LIMIT
    ensures var base := |Flat(exts[..index])|;
            && logical < |Flat(exts)|
            && Flat(exts[..index] + Pieces(exts[index], logical - base, target) + exts[index + 1..])
               == Flat(exts)[logical := target]
  {
    hide Flat;
    var a, e, c := exts[..index], exts[index], exts[index + 1..];
    var offset := logical - |Flat(a)|;
    var p := Pieces(e, offset, target);
    FlatConcat(a + p, c);
    FlatConcat(a, p);
    PiecesFlat(e, offset, target);
    assert exts == (a + [e]) + c;
    FlatConcat(a + [e], c);
    FlatConcat(a, [e]);
    FlatOne(e);
    assert Flat(exts) == Flat(a) + Range(e.start, e.length) + Flat(c);
  }

  /** Merging a physically adjacent neighbour into the last kept extent keeps the mapping. */
  lemma MergeFlat(kept: seq<Extent>, e: Extent)
    requires kept != [] && e.length > 0 && forall i :: 0 <= i < |kept| ==> kept[i].length > 0
    requires var last := kept[|kept| - 1];
             e.start == last.start + last.length && last.length + e.length < U32_LIMIT
    ensures var n := |kept| - 1;
            Flat(kept[n := kept[n].(length := kept[n].length + e.length)]) == Flat(kept) + Range(e.start, e.length)
  {
    var n := |kept| - 1;
    var last := kept[n];
    var merged := last.(length := last.length + e.length);
    assert kept == kept[..n] + [last];
    assert kept[n := merged] == kept[..n] + [merged];
    FlatConcat(kept[..n], [last]);
    FlatConcat(kept[..n], [merged]);
    FlatOne(last);
    FlatOne(merged);
    assert Range(last.start, merged.length) == Range(last.start, last.length) + Range(e.start, e.length);
  }

  /** The in-place merge pass of adytumfs_extent_reroute. */
  method Compact(exts: seq<Extent>) returns (rebuilt: seq<Extent>)
    requires forall i :: 0 <= i < |exts| ==> exts[i].length > 0
    requires |Flat(exts)| < U32_LIMIT
    ensures Flat(rebuilt) == Flat(exts) && |rebuilt| <= |exts|
    ensures forall i :: 0 <= i < |rebuilt| ==> rebuilt[i].length > 0
  {
    hide Flat;
    NoneFlat();
    rebuilt := exts;
    var compact := 0;
    var scan := 0;
    assert exts[0..] == exts;
    while scan < |exts|
      invariant 0 <= compact <= scan <= |exts| == |rebuilt|
      invariant forall i :: scan <= i < |exts| ==> rebuilt[i] == exts[i]
      invariant forall i :: 0 <= i < compact ==> rebuilt[i].length > 0
      invariant Flat(exts) == Flat(rebuilt[..compact]) + Flat(exts[scan..])
    {
      var e := rebuilt[scan];
      FlatHead(exts, scan);
      ghost var kept := rebuilt[..compact];
      if compact > 0 && e.start == rebuilt[compact - 1].start + rebuilt[compact - 1].length {
        LastFits(kept);
        MergeFlat(kept, e);
        rebuilt := rebuilt[compact - 1 := rebuilt[compact - 1].(length := rebuilt[compact - 1].length + e.length)];
        assert rebuilt[..compact] == kept[compact - 1 := rebuilt[compact - 1]];
      } else {
        FlatConcat(kept, [e]);
        FlatOne(e);
        rebuilt := rebuilt[compact := e];
        compact := compact + 1;
        assert rebuilt[..compact] == kept + [e];
      }
      scan := scan + 1;
    }
    rebuilt := rebuilt[..compact];
  }

  lemma FlatHead(exts: seq<Extent>, i: nat)
    requires i < |exts| && exts[i].length > 0
    ensures Flat(exts[i..]) == Range(exts[i].start, exts[i].length) + Flat(exts[i + 1..])
  {
    assert exts[i..][0] == exts[i] && exts[i..][1..] == exts[i + 1..];
  }

  lemma LastFits(kept: seq<Extent>)
    requires kept != [] && forall i :: 0 <= i < |kept| ==> kept[i].length > 0
    ensures kept[|kept| - 1].length <= |Flat(kept)|
  {
    var n := |kept| - 1;
    assert kept == kept[..n] + [kept[n]];
    FlatConcat(kept[..n], [kept[n]]);
    FlatOne(kept[n]);
  }

  /** Every extent ends below 2^64 and the whole mapping below 2^32 blocks, as on any volume this format holds. */
  ghost predicate Bounded(direct: seq<Extent>)
  {
    && (forall i :: 0 <= i < |direct| ==> direct[i].start + direct[i].length < U64_LIMIT)
    && |Flat(direct)| < U32_LIMIT
  }

  /**
    adytumfs_extent_reroute: moves exactly one logical block, keeps the list
    packed and the mapped length; fails, leaving the list alone, exactly when
    the block is unmapped or the split would overflow the ten slots.
   */
  method ExtentReroute(direct: Direct, logical: nat, target: u64) returns (ok: bool, r: Direct)
    requires Bounded(direct)
    ensures ok ==> logical < |Flat(direct)| && Flat(r) == Flat(direct)[logical := target] && Packed(r)
    ensures !ok ==> r == direct
    ensures !ok ==> logical >= |Flat(direct)| || SplitOverflows(direct, logical)
    ensures ok ==> !SplitOverflows(direct, logical)
  {
    hide Flat, Live, Covering;
    NoneFlat();
    r := direct;
    var extents := 0;
    while extents < DIRECT_EXTENTS && direct[extents].length > 0
      invariant 0 <= extents <= DIRECT_EXTENTS
      invariant forall i :: 0 <= i < extents ==> direct[i].length > 0
    {
      extents := extents + 1;
    }
    LiveIs(direct, extents);
    ghost var live := direct[..extents];
    FlatLive(direct);
    var base := 0;
    var index := 0;
    while index < extents
      invariant 0 <= index <= extents
      invariant base == |Flat(live[..index])| && base <= logical
    {
      var length := direct[index].length;
      assert live[..index + 1] == live[..index] + [live[index]];
      FlatConcat(live[..index], [live[index]]);
      FlatOne(live[index]);
      if base <= logical < base + length {
        var pieces := Pieces(direct[index], logical - base, target);
        SpliceFlat(live, index, logical, target);
        TakeTake(direct, index, extents);
        OverflowAt(direct, logical, index);
        if extents - 1 + |pieces| > DIRECT_EXTENTS {
          return false, direct;
        }
        var spliced := direct[..index] + pieces + direct[index + 1..extents];
        var rebuilt := Compact(spliced);
        var pad := seq(DIRECT_EXTENTS - |rebuilt|, _ => NO_EXTENT);
        r := rebuilt + pad;
        FlatConcat(rebuilt, pad);
        return true, r;
      }
      base := base + length;
      index := index + 1;
    }
    assert live[..extents] == live;
    ok := false;
  }

  /** The extent that covers a mapped logical block. */
  function Covering(exts: seq<Extent>, logical: nat): (r: (nat, nat))
    requires logical < |Flat(exts)|
    ensures r.0 < Live(exts) && r.1 < exts[r.0].length
  {
    if logical < exts[0].length then (0, logical)
    else
      var (i, o) := Covering(exts[1..], logical - exts[0].length);
      (i + 1, o)
  }

  /** The covering extent splits into more pieces than the free slots can take. */
  predicate SplitOverflows(direct: Direct, logical: nat)
  {
    logical < |Flat(direct)| &&
    var (i, o) := Covering(direct, logical);
    Live(direct) + (if o > 0 then 1 else 0) + (if o + 1 < direct[i].length then 1 else 0) > DIRECT_EXTENTS
  }

  lemma {:induction false} LiveIs(exts: seq<Extent>, n: nat)
    requires n <= |exts| && (forall i :: 0 <= i < n ==> exts[i].length > 0) && (n < |exts| ==> exts[n].length == 0)
    ensures Live(exts) == n
  {
    if n > 0 {
      LiveIs(exts[1..], n - 1);
    }
  }

  lemma {:induction false} CoveringIs(exts: seq<Extent>, logical: nat, index: nat)
    requires index < Live(exts) && |Flat(exts[..index])| <= logical < |Flat(exts[..index])| + exts[index].length
    ensures logical < |Flat(exts)| && Covering(exts, logical) == (index, logical - |Flat(exts[..index])|)
  {
    FlatPrefix(exts, index);
    assert exts[index..][0] == exts[index];
    if index > 0 {
      assert exts[..index][0] == exts[0] && exts[..index][1..] == exts[1..][..index - 1];
      CoveringIs(exts[1..], logical - exts[0].length, index - 1);
    } else {
      assert exts[..0] == [];
    }
  }

  lemma OverflowAt(direct: Direct, logical: nat, index: nat)
    requires index < Live(direct) && |Flat(direct[..index])| <= logical < |Flat(direct[..index])| + direct[index].length
    ensures logical < |Flat(direct)|
    ensures Covering(direct, logical) == (index, logical - |Flat(direct[..index])|)
  {
    CoveringIs(direct, logical, index);
  }

  // ---- growing ------------------------------------------------------------

  /** The extent half of adytumfs_inode_grow: coalesce with the last extent or take the next slot. */
  method AppendRun(direct: Direct, start: u64, add: nat) returns (ok: bool, r: Direct)
    requires Packed(direct) && 0 < add && |Flat(direct)| + add < U32_LIMIT
    ensures ok ==> Flat(r) == Flat(direct) + Range(start, add) && Packed(r)
    ensures ok ==> forall i :: 0 <= i < DIRECT_EXTENTS ==>
      r[i] == direct[i] || r[i].start + r[i].length == start + add
    ensures !ok ==> r == direct && Live(direct) == DIRECT_EXTENTS
  {
    hide Flat, Live;
    NoneFlat();
    var last := 0;
    var have := false;
    var index := 0;
    while index < DIRECT_EXTENTS
      invariant 0 <= index <= DIRECT_EXTENTS
      invariant forall i :: 0 <= i < index ==> direct[i].length > 0
      invariant have == (index > 0) && (have ==> last == index - 1)
    {
      if direct[index].length == 0 {
        break;
      }
      last := index;
      have := true;
      index := index + 1;
    }
    LiveIs(direct, index);
    FlatLive(direct);
    ghost var live := direct[..index];
    FlatOne(Extent(start, add, 0));
    if have && direct[last].start + direct[last].length == start {
      LastFits(live);
      MergeFlat(live, Extent(start, add, 0));
      r := direct[last := direct[last].(length := direct[last].length + add)];
      LiveIs(r, index);
      FlatLive(r);
      assert r[..index] == live[last := r[last]];
      return true, r;
    }
    var slot := if have then last + 1 else 0;
    if slot >= DIRECT_EXTENTS {
      return false, direct;
    }
    r := direct[slot := Extent(start, add, 0)];
    LiveIs(r, index + 1);
    FlatLive(r);
    assert r[..index + 1] == live + [Extent(start, add, 0)];
    FlatConcat(live, [Extent(start, add, 0)]);
    ok := true;
  }

  // ---- truncating ---------------------------------------------------------

  /** What one turn of the truncation loop does to its extent. */
  function CutExtent(e: Extent, base: nat, limit: nat): (r: Extent)
  {
    if base >= limit then NO_EXTENT
    else if base + e.length > limit then e.(length := limit - base)
    else e
  }

  function CutAll(exts: seq<Extent>, base: nat, limit: nat): (r: seq<Extent>)
    ensures |r| == |exts|
  {
    if exts == [] || exts[0].length == 0 then exts
    else [CutExtent(exts[0], base, limit)] + CutAll(exts[1..], base + exts[0].length, limit)
  }

  lemma {:induction false} CutAllNone(exts: seq<Extent>, base: nat, limit: nat)
    requires base >= limit
    ensures Flat(CutAll(exts, base, limit)) == []
  {
  }

  lemma {:induction false} CutAllFlat(exts: seq<Extent>, base: nat, limit: nat)
    requires base <= limit <= base + |Flat(exts)|
    ensures Flat(CutAll(exts, base, limit)) == Flat(exts)[..limit - base]
    decreases |exts|
  {
    if exts == [] || exts[0].length == 0 {
    } else {
      var e, rest := exts[0], exts[1..];
      var cut := CutAll(exts, base, limit);
      assert cut[1..] == CutAll(rest, base + e.length, limit);
      if base + e.length <= limit {
        CutAllFlat(rest, base + e.length, limit);
      } else {
        CutAllNone(rest, base + e.length, limit);
        assert Range(e.start, e.length)[..limit - base] == Range(e.start, limit - base);
      }
    }
  }

  lemma {:induction false} CutAllPacked(exts: seq<Extent>, base: nat, limit: nat)
    requires Packed(exts)
    ensures Packed(CutAll(exts, base, limit))
    ensures base >= limit ==> forall i :: 0 <= i < |exts| ==> CutAll(exts, base, limit)[i].length == 0
    decreases |exts|
  {
    if exts == [] || exts[0].length == 0 {
    } else {
      CutAllPacked(exts[1..], base + exts[0].length, limit);
    }
  }

  /** Slot by slot, the truncation cuts each live extent against the blocks before it. */
  lemma {:induction false} CutAllAt(exts: seq<Extent>, base: nat, limit: nat, i: nat)
    requires i < |exts|
    ensures i < Live(exts) ==> CutAll(exts, base, limit)[i] == CutExtent(exts[i], base + |Flat(exts[..i])|, limit)
    ensures i >= Live(exts) ==> CutAll(exts, base, limit)[i] == exts[i]
    decreases i
  {
    if exts[0].length > 0 {
      if i == 0 {
        assert exts[..0] == [];
      } else {
        CutAllAt(exts[1..], base + exts[0].length, limit, i - 1);
        assert exts[..i][0] == exts[0] && exts[..i][1..] == exts[1..][..i - 1];
        assert CutAll(exts, base, limit)[i] == CutAll(exts[1..], base + exts[0].length, limit)[i - 1];
      }
    }
  }

  /** The blocks a truncation to `limit` releases. */
  function Dropped(q: seq<nat>, limit: nat): seq<nat>
  {
    if limit <= |q| then q[limit..] else []
  }

  lemma FlatStep(exts: seq<Extent>, i: nat)
    requires i < Live(exts)
    ensures Flat(exts[..i + 1]) == Flat(exts[..i]) + Range(exts[i].start, exts[i].length)
  {
    assert exts[..i + 1] == exts[..i] + [exts[i]];
    FlatConcat(exts[..i], [exts[i]]);
    FlatOne(exts[i]);
  }

  /** The part of one extent that a truncation releases. */
  function CutOff(e: Extent, base: nat, limit: nat): seq<nat>
  {
    if base >= limit then Range(e.start, e.length)
    else if base + e.length > limit then Range(e.start + (limit - base), e.length - (limit - base))
    else []
  }

  lemma DroppedStep(q: seq<nat>, e: Extent, limit: nat)
    ensures Dropped(q + Range(e.start, e.length), limit) == Dropped(q, limit) + CutOff(e, |q|, limit)
  {
  }
}
