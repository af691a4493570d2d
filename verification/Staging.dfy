/**
  The staging pool of an open window and what committing it publishes
  (src/fs/adytumfs_volume.c).
 */
module Staging {
  import opened Bytes
  import opened Blocks
  import opened Superblocks
  import opened Durability

  const POOL := 32

  datatype Staged = Free | Staged(device: nat, isTable: bool, index: u8, image: Image)

  predicate Keyed(e: Staged, d: nat, isTable: bool, index: nat)
  {
    e.Staged? && e.device == d && e.isTable == isTable && e.index == index
  }

  /** staging_find on an index that already fits a byte. */
  function StagedAt(pool: seq<Staged>, d: nat, isTable: bool, index: nat): (i: int)
    ensures -1 <= i < |pool|
    ensures i >= 0 ==> Keyed(pool[i], d, isTable, index)
    ensures i < 0 ==> forall k :: 0 <= k < |pool| ==> !Keyed(pool[k], d, isTable, index)
  {
    if pool == [] then -1
    else
      var n := |pool| - 1;
      var r := StagedAt(pool[..n], d, isTable, index);
      if r >= 0 then r else if Keyed(pool[n], d, isTable, index) then n else -1
  }

  ghost predicate OnePerKey(pool: seq<Staged>)
  {
    forall i, j :: 0 <= i < |pool| && 0 <= j < |pool| && i != j && pool[i].Staged? && pool[j].Staged? ==>
      !Keyed(pool[j], pool[i].device, pool[i].isTable, pool[i].index)
  }

  ghost predicate PoolOk(pool: seq<Staged>, d: nat, s: Superblock)
  {
    && |pool| == POOL
    && OnePerKey(pool)
    && (forall i :: 0 <= i < |pool| && pool[i].Staged? && pool[i].device == d ==>
          pool[i].index < if pool[i].isTable then s.tableBlocks else s.bitmapBlocks)
  }

  // ---- bitmaps beyond a byte ----------------------------------------------

  /** The image adytumfs_bit_test consults for bitmap block `index` of any volume: the key travels in a byte. */
  function Consulted(active: seq<Image>, pool: seq<Staged>, d: nat, index: nat): Image
    requires index < |active|
  {
    var i := StagedAt(pool, d, false, index % 256);
    if i >= 0 then pool[i].image else active[index]
  }

  /** Beyond 256 bitmap blocks a bit is read right exactly when the aliased block is not staged or happens to agree. */
  lemma WideBit(active: seq<Image>, pool: seq<Staged>, d: nat, b: nat)
    requires b / BITS_PER_BLOCK < |active|
    ensures var index, i := b / BITS_PER_BLOCK, StagedAt(pool, d, false, b / BITS_PER_BLOCK % 256);
      BitAt(Consulted(active, pool, d, index), b % BITS_PER_BLOCK) == BitIn(Lay(active, KindOf(pool, d, false)), b) <==>
      (|| index < 256 || i < 0
       || BitAt(pool[i].image, b % BITS_PER_BLOCK) == BitAt(active[index], b % BITS_PER_BLOCK))
  {
    hide BitAt, StagedAt;
  }

  /** And no stage can change a bit there, so no such block is ever allocated or released. */
  lemma WideFixed(active: seq<Image>, pool: seq<Staged>, d: nat, b: nat)
    requires b / BITS_PER_BLOCK >= 256
    ensures BitIn(Lay(active, KindOf(pool, d, false)), b) == BitIn(active, b)
  {
    hide BitAt, StagedAt;
  }

  // ---- stages as maps -----------------------------------------------------

  datatype Stage = Stage(bitmap: map<nat, Image>, table: map<nat, Image>)

  function Lay(imgs: seq<Image>, m: map<nat, Image>): (r: seq<Image>)
    ensures |r| == |imgs|
    ensures forall i :: 0 <= i < |imgs| ==> r[i] == if i in m then m[i] else imgs[i]
  {
    seq<Image>(|imgs|, i requires 0 <= i < |imgs| => if i in m then m[i] else imgs[i])
  }

  function LaySet(base: MetaSet, stage: Stage): MetaSet
  {
    MetaSet(Lay(base.bitmap, stage.bitmap), Lay(base.table, stage.table))
  }

  function KindOf(pool: seq<Staged>, d: nat, isTable: bool): (m: map<nat, Image>)
    ensures forall i :: i in m <==> 0 <= i < 256 && StagedAt(pool, d, isTable, i) >= 0
    ensures forall i :: i in m ==> m[i] == pool[StagedAt(pool, d, isTable, i)].image
  {
    map i | 0 <= i < 256 && StagedAt(pool, d, isTable, i) >= 0 :: pool[StagedAt(pool, d, isTable, i)].image
  }

  function StageOf(pool: seq<Staged>, d: nat): Stage
  {
    Stage(KindOf(pool, d, false), KindOf(pool, d, true))
  }

  lemma StagedUnique(pool: seq<Staged>, i: nat)
    requires OnePerKey(pool) && i < |pool| && pool[i].Staged?
    ensures StagedAt(pool, pool[i].device, pool[i].isTable, pool[i].index) == i
  {
  }

  /** Claiming a free slot adds exactly one binding to one device's stage. */
  lemma Claimed(pool: seq<Staged>, i: nat, e: Staged, d: nat)
    requires OnePerKey(pool) && i < |pool| && pool[i].Free? && e.Staged?
    requires StagedAt(pool, e.device, e.isTable, e.index) < 0
    ensures OnePerKey(pool[i := e])
    ensures StageOf(pool[i := e], d) == if d == e.device then Bind(StageOf(pool, d), e) else StageOf(pool, d)
  {
    PoolChange(pool, pool[i := e], i, d);
  }

  /** Editing the image of a staged block changes that one binding. */
  lemma Edited(pool: seq<Staged>, i: nat, image: Image, d: nat)
    requires OnePerKey(pool) && i < |pool| && pool[i].Staged?
    ensures var e := pool[i].(image := image);
            && OnePerKey(pool[i := e])
            && StageOf(pool[i := e], d) == if d == e.device then Bind(StageOf(pool, d), e) else StageOf(pool, d)
  {
    PoolChange(pool, pool[i := pool[i].(image := image)], i, d);
  }

  function Bind(stage: Stage, e: Staged): Stage
    requires e.Staged?
  {
    if e.isTable then stage.(table := stage.table[e.index := e.image])
    else stage.(bitmap := stage.bitmap[e.index := e.image])
  }

  lemma PoolChange(pool: seq<Staged>, q: seq<Staged>, i: nat, d: nat)
    requires OnePerKey(pool) && i < |pool| && |q| == |pool| && q == pool[i := q[i]] && q[i].Staged?
    requires pool[i].Free? ==> StagedAt(pool, q[i].device, q[i].isTable, q[i].index) < 0
    requires pool[i].Staged? ==> Keyed(pool[i], q[i].device, q[i].isTable, q[i].index)
    ensures OnePerKey(q)
    ensures StageOf(q, d) == if d == q[i].device then Bind(StageOf(pool, d), q[i]) else StageOf(pool, d)
  {
    assert OnePerKey(q);
    KindChange(pool, q, i, d, false);
    KindChange(pool, q, i, d, true);
  }

  lemma KindChange(pool: seq<Staged>, q: seq<Staged>, i: nat, d: nat, table: bool)
    requires OnePerKey(pool) && OnePerKey(q)
    requires i < |pool| && |q| == |pool| && q == pool[i := q[i]] && q[i].Staged?
    requires pool[i].Free? ==> StagedAt(pool, q[i].device, q[i].isTable, q[i].index) < 0
    requires pool[i].Staged? ==> Keyed(pool[i], q[i].device, q[i].isTable, q[i].index)
    ensures KindOf(q, d, table) == if d == q[i].device && table == q[i].isTable
                                   then KindOf(pool, d, table)[q[i].index := q[i].image] else KindOf(pool, d, table)
  {
    hide StagedAt, OnePerKey;
    forall x: nat
      ensures StagedAt(q, d, table, x) == if Keyed(q[i], d, table, x) then i else StagedAt(pool, d, table, x)
    {
      FindChange(pool, q, i, d, table, x);
    }
  }

  lemma FindChange(pool: seq<Staged>, q: seq<Staged>, i: nat, d: nat, table: bool, x: nat)
    requires OnePerKey(pool) && OnePerKey(q)
    requires i < |pool| && |q| == |pool| && q == pool[i := q[i]] && q[i].Staged?
    requires pool[i].Free? ==> StagedAt(pool, q[i].device, q[i].isTable, q[i].index) < 0
    requires pool[i].Staged? ==> Keyed(pool[i], q[i].device, q[i].isTable, q[i].index)
    ensures StagedAt(q, d, table, x) == if Keyed(q[i], d, table, x) then i else StagedAt(pool, d, table, x)
  {
    var f := StagedAt(pool, d, table, x);
    if Keyed(q[i], d, table, x) {
      StagedUnique(q, i);
    } else if f >= 0 {
      assert Keyed(q[f], d, table, x);
      StagedUnique(q, f);
    } else {
      assert forall k :: 0 <= k < |q| && k != i ==> q[k] == pool[k];
    }
  }

  // ---- what a commit publishes --------------------------------------------

  /** The two metadata sets on the device: the one named by the mounted superblock, and its twin. */
  datatype Pair = Pair(active: MetaSet, inactive: MetaSet)

  predicate SameShape(a: MetaSet, b: MetaSet)
  {
    |a.bitmap| == |b.bitmap| && |a.table| == |b.table|
  }

  /** adytumfs_commit: staged images land in the inactive set, which then becomes the active one. */
  function Flip(p: Pair, stage: Stage): Pair
  {
    Pair(LaySet(p.inactive, stage), p.active)
  }

  /** Every index at which the sets differ is staged. */
  ghost predicate Covers(p: Pair, stage: Stage)
  {
    && SameShape(p.active, p.inactive)
    && (forall i :: 0 <= i < |p.active.bitmap| && p.active.bitmap[i] != p.inactive.bitmap[i] ==> i in stage.bitmap)
    && (forall i :: 0 <= i < |p.active.table| && p.active.table[i] != p.inactive.table[i] ==> i in stage.table)
  }

  /** The set a commit publishes is the window's own view exactly when the stage covers the difference. */
  lemma PublishedExactly(p: Pair, stage: Stage)
    requires SameShape(p.active, p.inactive)
    ensures Flip(p, stage).active == LaySet(p.active, stage) <==> Covers(p, stage)
  {
    var got, want := Flip(p, stage).active, LaySet(p.active, stage);
    if got == want {
      forall i | 0 <= i < |p.active.bitmap| && p.active.bitmap[i] != p.inactive.bitmap[i]
        ensures i in stage.bitmap
      {
        assert got.bitmap[i] == want.bitmap[i];
      }
      forall i | 0 <= i < |p.active.table| && p.active.table[i] != p.inactive.table[i]
        ensures i in stage.table
      {
        assert got.table[i] == want.table[i];
      }
    }
  }

  /** The sets after committing windows `stages` one after the other. */
  function RunFlips(p: Pair, stages: seq<Stage>): Pair
    decreases |stages|
  {
    if stages == [] then p else Flip(RunFlips(p, stages[..|stages| - 1]), stages[|stages| - 1])
  }

  /** What the mounted view should be after those windows. */
  function Ideal(base: MetaSet, stages: seq<Stage>): MetaSet
    decreases |stages|
  {
    if stages == [] then base else LaySet(Ideal(base, stages[..|stages| - 1]), stages[|stages| - 1])
  }

  /** Every commit along the run published its window's view. */
  ghost predicate RunExact(p: Pair, stages: seq<Stage>)
  {
    forall k :: 0 <= k <= |stages| ==> RunFlips(p, stages[..k]).active == Ideal(p.active, stages[..k])
  }

  /** Each window stages at least the indices the previous window changed. */
  ghost predicate Restages(base: MetaSet, stages: seq<Stage>)
  {
    forall k :: 0 < k < |stages| ==>
      Covers(Pair(Ideal(base, stages[..k]), Ideal(base, stages[..k - 1])), stages[k])
  }

  lemma {:induction false} IdealShape(base: MetaSet, stages: seq<Stage>)
    ensures SameShape(Ideal(base, stages), base)
    decreases |stages|
  {
    if stages != [] {
      IdealShape(base, stages[..|stages| - 1]);
    }
  }

  /** As long as every commit was exact, the inactive set is the view one window earlier. */
  lemma ExactPrevious(p: Pair, stages: seq<Stage>, k: nat)
    requires p.active == p.inactive && 0 < k <= |stages| && RunExact(p, stages[..k])
    ensures RunFlips(p, stages[..k]) == Pair(Ideal(p.active, stages[..k]), Ideal(p.active, stages[..k - 1]))
  {
    assert stages[..k][..k - 1] == stages[..k - 1] && stages[..k][..k] == stages[..k];
  }

  lemma ExactNext(p: Pair, stages: seq<Stage>, k: nat)
    requires p.active == p.inactive && k < |stages| && RunExact(p, stages[..k])
    ensures RunExact(p, stages[..k + 1]) <==>
              (k > 0 ==> Covers(Pair(Ideal(p.active, stages[..k]), Ideal(p.active, stages[..k - 1])), stages[k]))
  {
    var pre, post := stages[..k], stages[..k + 1];
    assert post[..k] == pre && post[k] == stages[k];
    forall j | 0 <= j <= k
      ensures post[..j] == pre[..j]
    {
    }
    assert post[..k + 1] == post;
    assert pre[..k] == pre;
    var q := RunFlips(p, pre);
    assert RunFlips(p, post) == Flip(q, stages[k]);
    assert Ideal(p.active, post) == LaySet(Ideal(p.active, pre), stages[k]);
    IdealShape(p.active, pre);
    if k > 0 {
      ExactPrevious(p, stages, k);
      IdealShape(p.active, stages[..k - 1]);
    } else {
      assert pre == [];
    }
    PublishedExactly(q, stages[k]);
  }

  lemma RunExactPrefix(p: Pair, stages: seq<Stage>)
    requires stages != []
    ensures RunExact(p, stages) ==> RunExact(p, stages[..|stages| - 1])
    ensures Restages(p.active, stages) <==>
      && Restages(p.active, stages[..|stages| - 1])
      && var n := |stages| - 1;
         (n > 0 ==> Covers(Pair(Ideal(p.active, stages[..n]), Ideal(p.active, stages[..n - 1])), stages[n]))
  {
    hide RunFlips, Ideal, Covers;
    var n := |stages| - 1;
    var pre := stages[..n];
    forall k | 0 <= k <= n
      ensures pre[..k] == stages[..k]
    {
    }
    if RunExact(p, stages) {
      forall k | 0 <= k <= |pre|
        ensures RunFlips(p, pre[..k]).active == Ideal(p.active, pre[..k])
      {
        assert RunFlips(p, stages[..k]).active == Ideal(p.active, stages[..k]);
      }
    }
  }

  /**
    From format-time twins, a run of commits keeps the mounted view exact
    exactly when every window restages what the window before it changed.
   */
  lemma {:induction false} RunExactIff(p: Pair, stages: seq<Stage>)
    requires p.active == p.inactive
    ensures RunExact(p, stages) <==> Restages(p.active, stages)
    decreases |stages|
  {
    if stages == [] {
    } else {
      RunExactStep(p, stages);
    }
  }

  lemma {:induction false} RunExactStep(p: Pair, stages: seq<Stage>)
    requires p.active == p.inactive && stages != []
    ensures RunExact(p, stages) <==> Restages(p.active, stages)
    decreases |stages|, 0
  {
    hide RunExact, Restages, RunFlips, Ideal, Covers;
    var n := |stages| - 1;
    RunExactIff(p, stages[..n]);
    RunExactPrefix(p, stages);
    assert stages[..n + 1] == stages;
    if RunExact(p, stages[..n]) {
      ExactNext(p, stages, n);
    }
  }

  /** A window that restages at least the previous window's indices is enough. */
  lemma {:induction false} GrowingStages(base: MetaSet, stages: seq<Stage>)
    requires forall k :: 0 < k < |stages| ==>
      stages[k - 1].bitmap.Keys <= stages[k].bitmap.Keys && stages[k - 1].table.Keys <= stages[k].table.Keys
    ensures RunExact(Pair(base, base), stages)
  {
    RunExactIff(Pair(base, base), stages);
    forall k | 0 < k < |stages|
      ensures Covers(Pair(Ideal(base, stages[..k]), Ideal(base, stages[..k - 1])), stages[k])
    {
      assert stages[..k][..k - 1] == stages[..k - 1] && stages[..k][k - 1] == stages[k - 1];
      assert stages[k - 1].bitmap.Keys <= stages[k].bitmap.Keys && stages[k - 1].table.Keys <= stages[k].table.Keys;
    }
  }

  /** Two windows from twin sets: the second commit publishes the second stage over the sets before both. */
  lemma TwoWindows(base: MetaSet, first: Stage, second: Stage)
    ensures RunFlips(Pair(base, base), [first, second]).active == LaySet(base, second)
    ensures Ideal(base, [first, second]) == LaySet(LaySet(base, first), second)
  {
    hide LaySet;
    var run := [first, second];
    assert run[..1] == [first] && [first][..0] == [];
    var one := Flip(Pair(base, base), first);
    assert RunFlips(Pair(base, base), [first]) == one && RunFlips(Pair(base, base), run) == Flip(one, second);
    assert Ideal(base, [first]) == LaySet(base, first) && Ideal(base, run) == LaySet(LaySet(base, first), second);
  }

  /**
    Otherwise the update is lost: whatever the first window put into a bitmap or
    table block that the second does not stage, the second commit publishes the
    block as it was before both.
   */
  lemma LostUpdate(base: MetaSet, first: Stage, second: Stage)
    ensures var run := [first, second];
            var got, want := RunFlips(Pair(base, base), run).active, Ideal(base, run);
            && SameShape(got, base) && SameShape(want, base)
            && (forall i :: 0 <= i < |base.table| && i in first.table && i !in second.table ==>
                  got.table[i] == base.table[i] && want.table[i] == first.table[i])
            && (forall i :: 0 <= i < |base.bitmap| && i in first.bitmap && i !in second.bitmap ==>
                  got.bitmap[i] == base.bitmap[i] && want.bitmap[i] == first.bitmap[i])
  {
    hide RunFlips, Ideal;
    TwoWindows(base, first, second);
  }
}
