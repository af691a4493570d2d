/** Files as byte sequences (src/fs/adytumfs_file.c). */
module Files {
  import opened Bytes
  import opened BlockCache
  import opened Blocks
  import opened Checksums
  import opened Superblocks
  import opened Durability
  import opened Staging
  import opened Volumes
  import opened Extents
  import opened Inodes
  import opened InodeOps
  import V = Views

  // ---- bytes of a list of blocks ------------------------------------------

  function Content(imgs: seq<Image>): (r: seq<u8>)
    ensures |r| == BLOCK_SIZE * |imgs|
  {
    seq(BLOCK_SIZE * |imgs|, p requires 0 <= p < BLOCK_SIZE * |imgs| => imgs[p / BLOCK_SIZE][p % BLOCK_SIZE])
  }

  function Splice(s: seq<u8>, at: nat, bytes: seq<u8>): (r: seq<u8>)
    requires at + |bytes| <= |s|
    ensures |r| == |s|
  {
    s[..at] + bytes + s[at + |bytes|..]
  }

  /** Patching one block splices the whole. */
  lemma ContentPatch(imgs: seq<Image>, l: nat, within: nat, bytes: seq<u8>)
    requires l < |imgs| && within + |bytes| <= BLOCK_SIZE
    ensures Content(imgs[l := Patch(imgs[l], within, bytes)]) == Splice(Content(imgs), BLOCK_SIZE * l + within, bytes)
  {
    var next := imgs[l := Patch(imgs[l], within, bytes)];
    forall p | 0 <= p < BLOCK_SIZE * |imgs|
      ensures Content(next)[p] == Splice(Content(imgs), BLOCK_SIZE * l + within, bytes)[p]
    {
      var q, o := p / BLOCK_SIZE, p % BLOCK_SIZE;
      assert p == BLOCK_SIZE * q + o;
    }
  }

  lemma ContentGrow(imgs: seq<Image>, more: seq<Image>)
    requires forall i :: 0 <= i < |more| ==> more[i] == Zeros(BLOCK_SIZE)
    ensures Content(imgs + more) == Content(imgs) + Zeros(BLOCK_SIZE * |more|)
  {
  }

  /** Two adjacent splices are one. */
  lemma SpliceTwice(s: seq<u8>, at: nat, bytes: seq<u8>, done: nat, chunk: nat)
    requires at + |bytes| <= |s| && done + chunk <= |bytes|
    ensures Splice(Splice(s, at, bytes[..done]), at + done, bytes[done..done + chunk])
      == Splice(s, at, bytes[..done + chunk])
  {
  }

  lemma ContentWithin(imgs: seq<Image>, l: nat, within: nat, chunk: nat)
    requires l < |imgs| && within + chunk <= BLOCK_SIZE
    ensures BLOCK_SIZE * l + within + chunk <= |Content(imgs)|
    ensures Content(imgs)[BLOCK_SIZE * l + within..BLOCK_SIZE * l + within + chunk] == imgs[l][within..within + chunk]
  {
    forall p | BLOCK_SIZE * l + within <= p < BLOCK_SIZE * l + within + chunk
      ensures Content(imgs)[p] == imgs[l][p - BLOCK_SIZE * l]
    {
      assert p / BLOCK_SIZE == l && p % BLOCK_SIZE == p - BLOCK_SIZE * l;
    }
  }

  // ---- files on a volume --------------------------------------------------

  ghost function ImagesOf(view: Disk, d: nat, q: seq<nat>): (r: seq<Image>)
    ensures |r| == |q|
  {
    seq<Image>(|q|, i requires 0 <= i < |q| => BlockOf(view, d, q[i]))
  }

  /** All bytes of a file's blocks, the part past its size included. */
  ghost function Stored(vol: Volume, inode: Inode): seq<u8>
    reads vol.storage
  {
    Content(ImagesOf(vol.storage.View(), vol.device, Flat(inode.direct)))
  }

  /** Every allocated data block carries its checksum. */
  ghost predicate SealedIn(view: Disk, d: nat, s: Superblock, used: set<nat>)
  {
    forall b: nat :: b in used && IsData(s, b) ==> FromLe(SealOf(view, d, s, b)) == Crc32c(BlockOf(view, d, b))
  }

  ghost predicate Sealed(vol: Volume)
    reads vol, vol.storage
  {
    SealedIn(vol.storage.View(), vol.device, vol.csuper, vol.Used())
  }

  /** The checksum entries vouch for every block of the list. */
  ghost predicate Readable(view: Disk, d: nat, s: Superblock, q: seq<nat>)
  {
    forall l :: 0 <= l < |q| ==>
      s.dataStart <= q[l] && FromLe(SealOf(view, d, s, q[l])) == Crc32c(BlockOf(view, d, q[l]))
  }

  /** In agreeing, sealed state every used inode is readable. */
  lemma SealedReadable(view: Disk, d: nat, s: Superblock, c: Superblock, used: set<nat>, t: V.Table, n: nat)
    requires V.ThreeViews(used, t, s) && c.dataStart == s.dataStart && c.checksumRegion == s.checksumRegion
    requires SealedIn(view, d, c, used) && 0 < n < |t| && V.InUse(t[n])
    ensures Readable(view, d, c, Flat(t[n].value.direct))
  {
    hide Flat, BlockOf, SealOf, Crc32c, FromLe;
    var q := Flat(t[n].value.direct);
    V.SoundBlocks(used, t, s, n);
    forall l | 0 <= l < |q|
      ensures q[l] in used && IsData(s, q[l])
    {
      assert q[l] in V.SetOfSeq(q);
    }
  }

  /** The bytes of one block of a file, through the checked path. */
  method ReadPiece(vol: Volume, inode: Inode, position: nat, chunk: nat) returns (ok: bool, bytes: seq<u8>)
    requires vol.Valid() && V.Sound(vol.super, inode) && position % BLOCK_SIZE + chunk <= BLOCK_SIZE
    modifies vol.storage
    ensures vol.Valid() && vol.storage.View() == old(vol.storage.View())
    ensures ok ==> position + chunk <= |Stored(vol, inode)| && bytes == Stored(vol, inode)[position..position + chunk]
    ensures !ok && vol.storage.faults == old(vol.storage.faults) ==>
      (position / BLOCK_SIZE >= |Flat(inode.direct)|
       || !Readable(vol.storage.View(), vol.device, vol.csuper, Flat(inode.direct)))
    ensures vol.storage.faults >= old(vol.storage.faults)
  {
    hide Good, PoolOk, Durable, Flat, CommittedUsed, BlockOf, SealOf, Content, Crc32c, FromLe, ImagesOf, V.Sound;
    bytes := [];
    vol.Shape();
    var logical, within := position / BLOCK_SIZE, position % BLOCK_SIZE;
    var physical, img;
    ok, physical := InodeMap(inode.direct, logical);
    if !ok {
      return;
    }
    BlockOfFlat(vol.super, inode, logical);
    ok, img := vol.DataRead(physical);
    if !ok {
      return;
    }
    ghost var view := vol.storage.View();
    ImageAt(view, vol.device, Flat(inode.direct), logical);
    ContentWithin(ImagesOf(view, vol.device, Flat(inode.direct)), logical, within, chunk);
    bytes := img[within..within + chunk];
  }

  function ReadLength(size: nat, offset: nat, length: nat): nat
  {
    if offset >= size then 0 else if length < size - offset then length else size - offset
  }

  ghost predicate IsFile(o: Option<Inode>)
  {
    o.Some? && HasMode(o.value.mode, MODE_REG)
  }

  /** The blocks a regular file owns. */
  ghost function FileBlocks(o: Option<Inode>): set<nat>
  {
    if IsFile(o) then V.SetOfSeq(Flat(o.value.direct)) else {}
  }

  /** What a read returns: the stored bytes from `offset`, clamped to the size. */
  ghost predicate ReadResult(stored: seq<u8>, size: nat, offset: nat, length: nat, out: seq<u8>)
  {
    && |out| == ReadLength(size, offset, length)
    && (out != [] ==> offset + |out| <= |stored| && out == stored[offset..offset + |out|])
  }

  /**
    adytumfs_file_read: the file's bytes from `offset`, clamped to its size.
    It fails only for a wrong inode, a size past the mapped blocks, a block
    whose checksum does not vouch for it, or a device error.
   */
  method FileRead(vol: Volume, n: nat, offset: u64, length: u64) returns (ok: bool, out: seq<u8>)
    requires vol.Valid() && V.SlotsSound(TableOf(vol), vol.super)
    modifies vol.storage
    ensures vol.Valid() && vol.storage.View() == old(vol.storage.View())
    ensures ok ==> IsFile(InodeOf(vol, n))
    ensures ok ==> var i := InodeOf(vol, n).value; ReadResult(Stored(vol, i), i.size, offset, length, out)
    ensures !ok && vol.storage.faults == old(vol.storage.faults) && IsFile(InodeOf(vol, n)) ==>
      var i := InodeOf(vol, n).value;
      !Readable(vol.storage.View(), vol.device, vol.csuper, Flat(i.direct)) || i.size > |Stored(vol, i)|
    ensures vol.storage.faults >= old(vol.storage.faults)
  {
    hide Good, PoolOk, Durable, LaySet, SetOf, StageOf, Flat, SlotsOf, Content, Readable, ImagesOf, V.Sound, HasMode,
         V.SlotsSound;
    out := [];
    var inode;
    ok, inode := ReadInode(vol, n);
    if !ok {
      return;
    }
    if !HasMode(inode.mode, MODE_REG) {
      return false, [];
    }
    if offset >= inode.size {
      return true, [];
    }
    RegularSound(TableOf(vol), vol.super, n);
    var want := ReadLength(inode.size, offset, length);
    while |out| < want
      invariant vol.Valid() && vol.storage.View() == old(vol.storage.View()) && |out| <= want
      invariant out != [] ==>
        offset + |out| <= |Stored(vol, inode)| && out == Stored(vol, inode)[offset..offset + |out|]
      invariant vol.storage.faults >= old(vol.storage.faults)
      decreases want - |out|
    {
      var position := offset + |out|;
      var within := position % BLOCK_SIZE;
      var chunk := if BLOCK_SIZE - within > want - |out| then want - |out| else BLOCK_SIZE - within;
      var bytes;
      ok, bytes := ReadPiece(vol, inode, position, chunk);
      if !ok {
        if position / BLOCK_SIZE >= |Flat(inode.direct)| {
          ShortFile(inode, position);
        }
        return;
      }
      JoinRead(Stored(vol, inode), offset, |out|, chunk);
      out := out + bytes;
    }
    ok := true;
  }

  lemma RegularSound(t: V.Table, s: Superblock, n: nat)
    requires V.SlotsSound(t, s) && 0 < n < |t| && IsFile(t[n])
    ensures V.Sound(s, t[n].value)
  {
  }

  lemma JoinRead(s: seq<u8>, offset: nat, done: nat, chunk: nat)
    requires offset + done + chunk <= |s|
    ensures s[offset..offset + done] + s[offset + done..offset + done + chunk] == s[offset..offset + (done + chunk)]
    ensures done == 0 ==> s[offset..offset + done] == []
  {
  }

  lemma ImageAt(view: Disk, d: nat, q: seq<nat>, l: nat)
    requires l < |q|
    ensures ImagesOf(view, d, q)[l] == BlockOf(view, d, q[l])
  {
    hide BlockOf;
  }

  /** An unmapped position below the size means the size runs past the mapped blocks. */
  lemma ShortFile(inode: Inode, position: nat)
    requires position / BLOCK_SIZE >= |Flat(inode.direct)| && position < inode.size
    ensures inode.size > BLOCK_SIZE * |Flat(inode.direct)|
  {
  }

  // ---- writing ------------------------------------------------------------

  /** The allocated blocks are the file's and the others', apart. */
  ghost predicate Apart(used: set<nat>, others: set<nat>, q: seq<nat>)
  {
    used == others + V.SetOfSeq(q) && others !! V.SetOfSeq(q)
  }

  lemma ApartMove(used: set<nat>, others: set<nat>, q: seq<nat>, logical: nat, target: nat)
    requires Apart(used, others, q) && logical < |q| && target !in used && multiset(q) == multiset(V.SetOfSeq(q))
    ensures Apart(used + {target} - {q[logical]}, others, q[logical := target])
  {
    var q' := q[logical := target];
    assert q[logical] in q && q'[logical] == target;
    forall b | b in q && b != q[logical]
      ensures b in q'
    {
      var k :| 0 <= k < |q| && q[k] == b;
      assert q'[k] == b;
    }
    forall k | 0 <= k < |q| && k != logical
      ensures q[k] != q[logical]
    {
      OnceIndex(q, k, logical);
    }
    assert V.SetOfSeq(q') == V.SetOfSeq(q) - {q[logical]} + {target};
  }

  lemma CountedTwice(q: seq<nat>, lo: nat, hi: nat)
    requires lo < hi < |q| && q[lo] == q[hi]
    ensures multiset(q)[q[lo]] >= 2
  {
    assert q == (q[..lo] + [q[lo]] + q[lo + 1..hi]) + ([q[hi]] + q[hi + 1..]);
  }

  lemma OnceIndex(q: seq<nat>, i: nat, j: nat)
    requires multiset(q) == multiset(V.SetOfSeq(q)) && i < |q| && j < |q| && i != j
    ensures q[i] != q[j]
  {
    assert multiset(V.SetOfSeq(q))[q[i]] <= 1;
    if q[i] == q[j] {
      CountedTwice(q, if i < j then i else j, if i < j then j else i);
    }
  }

  lemma ImagesMove(view: Disk, view': Disk, d: nat, s: Superblock, used: set<nat>, q: seq<nat>, logical: nat,
      target: nat)
    requires DataOnly(view, view', d, s, {target}) && logical < |q| && target !in used
    requires V.SetOfSeq(q) <= V.DataUsed(used, s)
    ensures ImagesOf(view', d, q[logical := target]) == ImagesOf(view, d, q)[logical := BlockOf(view', d, target)]
  {
    hide BlockOf, SealOf, SetOf;
    var a, b := ImagesOf(view', d, q[logical := target]), ImagesOf(view, d, q)[logical := BlockOf(view', d, target)];
    forall l | 0 <= l < |q|
      ensures a[l] == b[l]
    {
      assert q[l] in V.SetOfSeq(q);
    }
  }

  lemma ImagesEdit(view: Disk, view': Disk, d: nat, s: Superblock, q: seq<nat>, logical: nat)
    requires logical < |q| && multiset(q) == multiset(V.SetOfSeq(q)) && DataOnly(view, view', d, s, {q[logical]})
    requires forall l :: 0 <= l < |q| ==> IsData(s, q[l])
    ensures ImagesOf(view', d, q) == ImagesOf(view, d, q)[logical := BlockOf(view', d, q[logical])]
  {
    hide BlockOf, SealOf, SetOf;
    var a, b := ImagesOf(view', d, q), ImagesOf(view, d, q)[logical := BlockOf(view', d, q[logical])];
    forall l | 0 <= l < |q|
      ensures a[l] == b[l]
    {
      if l != logical {
        OnceIndex(q, l, logical);
      }
    }
  }

  lemma SealedStep(view: Disk, view': Disk, d: nat, s: Superblock, used: set<nat>, used': set<nat>, b: nat)
    requires SealedIn(view, d, s, used) && DataOnly(view, view', d, s, {b}) && used' <= used + {b}
    requires s.dataStart <= b && SealOf(view', d, s, b) == Le(Crc32c(BlockOf(view', d, b)), 4)
    ensures SealedIn(view', d, s, used')
  {
    hide BlockOf, SealOf, SetOf, Crc32c, Le, FromLe;
    Pow256Values();
    LeRoundTrip(Crc32c(BlockOf(view', d, b)), 4);
  }

  /** The tables differ at most in slot `n`. */
  ghost predicate SameBut(t: V.Table, u: V.Table, n: nat)
  {
    |t| == |u| && forall k :: 0 <= k < |t| && k != n ==> t[k] == u[k]
  }

  lemma SameButTrans(t: V.Table, u: V.Table, v: V.Table, n: nat)
    requires SameBut(t, u, n) && SameBut(u, v, n)
    ensures SameBut(t, v, n)
  {
  }

  lemma SameRefl(t: V.Table, n: nat)
    ensures SameBut(t, t, n)
  {
  }

  lemma SameButSet(t: V.Table, u: V.Table, n: nat, o: Option<Inode>)
    requires SameBut(t, u, n) && n < |u|
    ensures u[n := o] == t[n := o]
  {
  }

  /**
    The state of a file in the middle of a write: its inode may be ahead of the
    table.  `t` is the table the other slots are judged by.
   */
  ghost predicate Writing(vol: Volume, n: nat, inode: Inode, t: V.Table, others: set<nat>)
    reads vol`committed, vol`csuper, vol`pool, vol`super
  {
    && 0 < n < |t| && inode.mode != 0
    && V.ThreeViews(vol.Used(), t[n := Some(inode)], vol.super)
    && Apart(vol.Used(), others, Flat(inode.direct))
  }

  lemma WritingParts(vol: Volume, n: nat, inode: Inode, t: V.Table, others: set<nat>)
    requires Writing(vol, n, inode, t, others)
    ensures V.Sound(vol.super, inode) && |t| == vol.super.inodeCount
    ensures var q := Flat(inode.direct);
      && multiset(q) == multiset(V.SetOfSeq(q)) && V.SetOfSeq(q) <= V.DataUsed(vol.Used(), vol.super)
      && forall l :: 0 <= l < |q| ==> IsData(vol.super, q[l]) && q[l] in vol.Used() && q[l] !in others
  {
    hide Flat, LaySet, SetOf, UsedIn, StageOf, SlotsOf;
    var u, q := t[n := Some(inode)], Flat(inode.direct);
    V.SoundBlocks(vol.Used(), u, vol.super, n);
    assert u[n] == Some(inode);
    forall l | 0 <= l < |q|
      ensures q[l] in V.SetOfSeq(q)
    {
    }
  }

  /** A failed operation that left bitmap, table and counters as they were. */
  ghost predicate RolledBack(used: set<nat>, used': set<nat>, t: V.Table, t': V.Table, s: Superblock, s': Superblock)
  {
    used == used' && t == t' && s == s'
  }

  /** One redirected block of a write. */
  method WriteMoved(vol: Volume, n: nat, inode: Inode, logical: nat, img: Image, ghost t: V.Table,
      ghost others: set<nat>)
    returns (ok: bool, next: Inode, ghost touched: set<nat>, ghost back: bool)
    requires vol.Valid() && Writing(vol, n, inode, t, others)
    modifies vol`pool, vol`super, vol.storage
    ensures StagedMore(old(vol.pool), vol.pool, vol.device)
    ensures vol.Valid() && DataOnly(old(vol.storage.View()), vol.storage.View(), vol.device, vol.csuper, touched)
            && touched !! others && touched !! old(vol.Used())
    ensures ok ==> Wrote(inode, next, logical, vol.Committed()) && vol.super == old(vol.super)
    ensures ok ==>
      Writing(vol, n, next, t, others) && SameBut(old(TableOf(vol)), TableOf(vol), n) && TableOf(vol)[n] == Some(next)
    ensures ok ==> (ImagesOf(vol.storage.View(), vol.device, Flat(next.direct))
                    == ImagesOf(old(vol.storage.View()), vol.device, Flat(inode.direct))[logical := img])
    ensures ok && old(Sealed(vol)) ==> Sealed(vol)
    ensures !ok && back ==>
      RolledBack(vol.Used(), old(vol.Used()), TableOf(vol), old(TableOf(vol)), vol.super, old(vol.super))
    ensures !ok && !back ==> PoolFull(vol.pool) || vol.storage.faults > old(vol.storage.faults)
    ensures !ok && back ==> Writing(vol, n, inode, t, others)
    ensures !ok && logical < |Flat(inode.direct)| ==>
      Stuck(inode.direct, logical, vol.super, old(vol.Busy())) || PoolFull(vol.pool)
      || vol.storage.faults > old(vol.storage.faults)
    ensures vol.storage.faults >= old(vol.storage.faults)
  {
    hide Good, PoolOk, Durable, LaySet, SetOf, UsedIn, StageOf, Flat, SlotsOf, CommittedUsed, BlockOf, SealOf, Crc32c,
         Le, ImagesOf, V.ThreeViews, V.Sound, DataOnly, SealedIn, V.SetOfSeq, V.DataUsed, PoolFull, Stuck;
    WritingParts(vol, n, inode, t, others);
    ghost var target, used, q, view := 0, vol.Used(), Flat(inode.direct), vol.storage.View();
    ghost var u := t[n := Some(inode)];
    ok, next, target, touched, back := RemapInode(vol, inode, n, logical, img);
    if ok {
      DataOnlyMore(view, vol.storage.View(), vol.device, vol.csuper, touched, {target});
      V.DataUsedFrame(used, vol.super, vol.csuper);
      ImagesMove(view, vol.storage.View(), vol.device, vol.csuper, used, q, logical, target);
      ApartMove(used, others, q, logical, target);
      MovedAgrees(vol.super, used, vol.Used(), vol.Committed(), u, n, inode, next, logical, target);
      assert u[n := Some(next)] == t[n := Some(next)];
      if SealedIn(view, vol.device, vol.csuper, used) {
        SealedStep(view, vol.storage.View(), vol.device, vol.csuper, used, vol.Used(), target);
      }
    }
  }

  lemma DataOnlyMore(v: Disk, w: Disk, d: nat, s: Superblock, a: set<nat>, b: set<nat>)
    requires DataOnly(v, w, d, s, a) && a <= b
    ensures DataOnly(v, w, d, s, b)
  {
  }

  /** The file maps as before, except that one logical block may have moved off the committed generation. */
  ghost predicate Wrote(inode: Inode, next: Inode, logical: nat, committed: set<nat>)
  {
    && next == inode.(direct := next.direct)
    && logical < |Flat(inode.direct)| == |Flat(next.direct)|
    && Flat(next.direct) == Flat(inode.direct)[logical := Flat(next.direct)[logical]]
    && Flat(next.direct)[logical] !in committed
  }

  /** One block of a write that the file did not have before it. */
  method WriteInPlace(vol: Volume, n: nat, inode: Inode, logical: nat, img: Image, ghost t: V.Table,
      ghost others: set<nat>)
    returns (ok: bool, ghost touched: set<nat>)
    requires vol.Valid() && Writing(vol, n, inode, t, others)
    requires logical < |Flat(inode.direct)| && Flat(inode.direct)[logical] !in vol.Committed()
    modifies vol.storage
    ensures vol.Valid() && DataOnly(old(vol.storage.View()), vol.storage.View(), vol.device, vol.csuper, touched)
            && touched !! others && touched == {Flat(inode.direct)[logical]}
    ensures ok ==> (ImagesOf(vol.storage.View(), vol.device, Flat(inode.direct))
                    == ImagesOf(old(vol.storage.View()), vol.device, Flat(inode.direct))[logical := img])
    ensures ok && old(Sealed(vol)) ==> Sealed(vol)
    ensures vol.storage.faults >= old(vol.storage.faults) && (!ok ==> vol.storage.faults > old(vol.storage.faults))
  {
    hide Good, PoolOk, Durable, LaySet, SetOf, UsedIn, StageOf, Flat, SlotsOf, CommittedUsed, BlockOf, SealOf, Crc32c,
         Le, ImagesOf, V.ThreeViews, V.Sound, DataOnly, SealedIn, V.SetOfSeq, V.DataUsed;
    WritingParts(vol, n, inode, t, others);
    ghost var q, view := Flat(inode.direct), vol.storage.View();
    var mapped, physical := InodeMap(inode.direct, logical);
    touched := {physical};
    ok := vol.DataWrite(physical, img);
    if ok {
      ImagesEdit(view, vol.storage.View(), vol.device, vol.csuper, q, logical);
      if SealedIn(view, vol.device, vol.csuper, vol.Used()) {
        SealedStep(view, vol.storage.View(), vol.device, vol.csuper, vol.Used(), vol.Used(), physical);
      }
    }
  }

  /** The tail of the file, from `from` on, lies outside the committed generation. */
  ghost predicate TailFree(q: seq<nat>, from: nat, committed: set<nat>)
  {
    forall l :: from <= l < |q| ==> q[l] !in committed
  }

  /** One turn of the write loop: `scratch` still holds the previous block when the whole block is overwritten. */
  method WriteChunk(vol: Volume, n: nat, inode: Inode, oldBlocks: nat, position: nat, bytes: seq<u8>, scratch: Image,
      ghost t: V.Table, ghost others: set<nat>)
    returns (ok: bool, next: Inode, filled: Image, ghost touched: set<nat>)
    requires vol.Valid() && Writing(vol, n, inode, t, others)
    requires bytes != [] && position % BLOCK_SIZE + |bytes| <= BLOCK_SIZE
             && position / BLOCK_SIZE < |Flat(inode.direct)|
    requires TailFree(Flat(inode.direct), oldBlocks, vol.Committed())
    modifies vol`pool, vol`super, vol.storage
    ensures vol.Valid() && DataOnly(old(vol.storage.View()), vol.storage.View(), vol.device, vol.csuper, touched)
            && touched !! others
    ensures ok ==> Writing(vol, n, next, t, others) && SameBut(old(TableOf(vol)), TableOf(vol), n)
    ensures ok ==> next == inode.(direct := next.direct) && |Flat(next.direct)| == |Flat(inode.direct)|
    ensures ok ==> TailFree(Flat(next.direct), oldBlocks, vol.Committed()) && vol.super == old(vol.super)
    ensures ok ==> position + |bytes| <= |old(Stored(vol, inode))|
    ensures ok ==> Stored(vol, next) == Splice(old(Stored(vol, inode)), position, bytes)
    ensures ok && old(Sealed(vol)) ==> Sealed(vol)
    ensures !ok && old(Sealed(vol)) ==>
      Blocked(vol, n, next, oldBlocks, t, others) || PoolFull(vol.pool) || vol.storage.faults > old(vol.storage.faults)
    ensures vol.storage.faults >= old(vol.storage.faults)
  {
    hide Good, PoolOk, Durable, LaySet, SetOf, UsedIn, StageOf, Flat, SlotsOf, CommittedUsed, BlockOf, SealOf, Crc32c,
         Content, ImagesOf, V.ThreeViews, V.Sound, DataOnly, SealedIn, V.SetOfSeq, V.DataUsed, FromLe, Patch, Writing,
         Stuck, PoolFull, Blocked;
    WritingParts(vol, n, inode, t, others);
    vol.Shape();
    next, filled, touched := inode, scratch, {};
    ghost var view, q := vol.storage.View(), Flat(inode.direct);
    DataOnlyRefl(view, vol.device, vol.csuper, touched);
    var logical, within := position / BLOCK_SIZE, position % BLOCK_SIZE;
    var physical;
    ok, physical := InodeMap(inode.direct, logical);
    if within != 0 || |bytes| != BLOCK_SIZE {
      ok, filled := vol.DataRead(physical);
      if !ok {
        if SealedIn(view, vol.device, vol.csuper, vol.Used()) {
          SealedAt(view, vol.device, vol.csuper, vol.Used(), physical);
        }
        return;
      }
    }
    ImageAt(view, vol.device, q, logical);
    PatchWhole(filled, BlockOf(view, vol.device, q[logical]), within, bytes);
    ContentPatch(ImagesOf(view, vol.device, q), logical, within, bytes);
    filled := Patch(filled, within, bytes);
    ok, next, touched := PutBlock(vol, n, inode, oldBlocks, logical, filled, t, others);
  }

  /** A filled block goes where it may: a block the file had is redirected, a new one written where it is. */
  method PutBlock(vol: Volume, n: nat, inode: Inode, oldBlocks: nat, logical: nat, img: Image, ghost t: V.Table,
      ghost others: set<nat>)
    returns (ok: bool, next: Inode, ghost touched: set<nat>)
    requires vol.Valid() && Writing(vol, n, inode, t, others) && logical < |Flat(inode.direct)|
    requires TailFree(Flat(inode.direct), oldBlocks, vol.Committed())
    modifies vol`pool, vol`super, vol.storage
    ensures vol.Valid() && DataOnly(old(vol.storage.View()), vol.storage.View(), vol.device, vol.csuper, touched)
            && touched !! others
    ensures ok ==> Writing(vol, n, next, t, others) && SameBut(old(TableOf(vol)), TableOf(vol), n)
    ensures ok ==> next == inode.(direct := next.direct) && |Flat(next.direct)| == |Flat(inode.direct)|
    ensures ok ==> TailFree(Flat(next.direct), oldBlocks, vol.Committed()) && vol.super == old(vol.super)
    ensures ok ==> (ImagesOf(vol.storage.View(), vol.device, Flat(next.direct))
                    == ImagesOf(old(vol.storage.View()), vol.device, Flat(inode.direct))[logical := img])
    ensures ok && old(Sealed(vol)) ==> Sealed(vol)
    ensures !ok ==>
      Blocked(vol, n, next, oldBlocks, t, others) || PoolFull(vol.pool) || vol.storage.faults > old(vol.storage.faults)
    ensures vol.storage.faults >= old(vol.storage.faults)
  {
    hide Good, PoolOk, Durable, LaySet, SetOf, UsedIn, StageOf, Flat, SlotsOf, CommittedUsed, ImagesOf, V.ThreeViews,
         V.Sound, DataOnly, SealedIn, V.SetOfSeq, Writing, Stuck, PoolFull, Blocked;
    next := inode;
    if logical < oldBlocks {
      ghost var back;
      ok, next, touched, back := WriteMoved(vol, n, inode, logical, img, t, others);
      if !ok {
        next := inode;
        if back {
          if Stuck(inode.direct, logical, vol.super, vol.Busy()) {
            BlockedAt(vol, n, inode, oldBlocks, t, others, logical);
          }
        }
      }
    } else {
      ok, touched := WriteInPlace(vol, n, inode, logical, img, t, others);
    }
  }

  /** A block the write has to redirect cannot be. */
  ghost predicate Blocked(vol: Volume, n: nat, inode: Inode, blocks: nat, t: V.Table, others: set<nat>)
    reads vol`committed, vol`csuper, vol`pool, vol`super
  {
    && Writing(vol, n, inode, t, others)
    && exists l :: 0 <= l < blocks && l < |Flat(inode.direct)| && Stuck(inode.direct, l, vol.super, vol.Busy())
  }

  lemma BlockedAt(vol: Volume, n: nat, inode: Inode, blocks: nat, t: V.Table, others: set<nat>, l: nat)
    requires Writing(vol, n, inode, t, others) && l < blocks && l < |Flat(inode.direct)|
    requires Stuck(inode.direct, l, vol.super, vol.Busy())
    ensures Blocked(vol, n, inode, blocks, t, others)
  {
    hide LaySet, SetOf, UsedIn, StageOf, Flat, Writing, Stuck;
  }

  lemma SealedAt(view: Disk, d: nat, s: Superblock, used: set<nat>, b: nat)
    requires SealedIn(view, d, s, used) && b in used && IsData(s, b)
    ensures s.dataStart <= b && FromLe(SealOf(view, d, s, b)) == Crc32c(BlockOf(view, d, b))
  {
  }

  lemma PatchWhole(stale: Image, img: Image, within: nat, bytes: seq<u8>)
    requires within + |bytes| <= BLOCK_SIZE && (stale == img || (within == 0 && |bytes| == BLOCK_SIZE))
    ensures Patch(stale, within, bytes) == Patch(img, within, bytes)
  {
  }

  lemma ImagesGrow(view: Disk, view': Disk, d: nat, s: Superblock, used: set<nat>, q: seq<nat>, start: nat, add: nat)
    requires DataOnly(view, view', d, s, Run(start, add)) && Run(start, add) !! used
             && V.SetOfSeq(q) <= V.DataUsed(used, s)
    requires forall b :: b in Run(start, add) ==> BlockOf(view', d, b) == Zeros(BLOCK_SIZE)
    ensures ImagesOf(view', d, q + Range(start, add)) == ImagesOf(view, d, q) + BlankImages(add)
  {
    hide BlockOf, SealOf, SetOf, Content;
    var more := ImagesOf(view', d, Range(start, add));
    var all := ImagesOf(view', d, q + Range(start, add));
    forall l | 0 <= l < |q|
      ensures all[l] == ImagesOf(view, d, q)[l]
    {
      assert q[l] in V.SetOfSeq(q);
    }
    forall l | 0 <= l < add
      ensures more[l] == Zeros(BLOCK_SIZE)
    {
      assert Range(start, add)[l] in Run(start, add);
    }
    assert more == BlankImages(add);
    assert all == ImagesOf(view, d, q) + more;
  }

  function BlankImages(n: nat): (r: seq<Image>)
    ensures |r| == n && forall i :: 0 <= i < n ==> r[i] == Zeros(BLOCK_SIZE)
  {
    seq<Image>(n, _ => Zeros(BLOCK_SIZE))
  }

  lemma SealedGrow(view: Disk, view': Disk, d: nat, s: Superblock, used: set<nat>, start: nat, add: nat)
    requires SealedIn(view, d, s, used) && DataOnly(view, view', d, s, Run(start, add)) && s.dataStart <= start
    requires forall b: nat :: b in Run(start, add) ==>
      s.dataStart <= b && SealOf(view', d, s, b) == Le(Crc32c(Zeros(BLOCK_SIZE)), 4)
      && BlockOf(view', d, b) == Zeros(BLOCK_SIZE)
    ensures SealedIn(view', d, s, used + Run(start, add))
  {
    hide BlockOf, SealOf, SetOf, Crc32c, Le, FromLe;
    Pow256Values();
    LeRoundTrip(Crc32c(Zeros(BLOCK_SIZE)), 4);
  }

  lemma ApartGrow(used: set<nat>, others: set<nat>, q: seq<nat>, start: nat, add: nat)
    requires Apart(used, others, q) && Run(start, add) !! used
    ensures Apart(used + Run(start, add), others, q + Range(start, add))
  {
    RunIsRange(start, add);
    assert V.SetOfSeq(q + Range(start, add)) == V.SetOfSeq(q) + V.SetOfSeq(Range(start, add));
  }

  lemma TailGrow(q: seq<nat>, start: nat, add: nat, committed: set<nat>)
    requires Run(start, add) !! committed
    ensures TailFree(q + Range(start, add), |q|, committed)
  {
    var all := q + Range(start, add);
    forall l | |q| <= l < |all|
      ensures all[l] !in committed
    {
      assert all[l] in Run(start, add);
    }
  }

  /** The growth a write may need first: the new part of the file reads as zeroes. */
  method GrowForWrite(vol: Volume, n: nat, inode: Inode, need: u64, ghost t: V.Table, ghost others: set<nat>)
    returns (ok: bool, next: Inode, ghost touched: set<nat>, ghost back: bool)
    requires vol.Valid() && Writing(vol, n, inode, t, others)
    modifies vol`pool, vol`super, vol.storage
    ensures StagedMore(old(vol.pool), vol.pool, vol.device)
    ensures vol.Valid() && DataOnly(old(vol.storage.View()), vol.storage.View(), vol.device, vol.csuper, touched)
            && touched !! others && touched !! old(vol.Used())
    ensures ok ==> Writing(vol, n, next, t, others) && TableOf(vol) == old(TableOf(vol))
    ensures ok ==> next == inode.(direct := next.direct, blocks := next.blocks)
    ensures ok ==> next.blocks == if need > inode.blocks then need else inode.blocks
    ensures ok ==> TailFree(Flat(next.direct), inode.blocks, vol.Committed())
                   && TailFree(Flat(next.direct), inode.blocks, old(vol.Used()))
    ensures ok ==> (ImagesOf(vol.storage.View(), vol.device, Flat(next.direct))
                    == ImagesOf(old(vol.storage.View()), vol.device, Flat(inode.direct))
                      + BlankImages(next.blocks - inode.blocks))
    ensures ok && old(Sealed(vol)) ==> Sealed(vol)
    ensures !ok && back ==>
      RolledBack(vol.Used(), old(vol.Used()), TableOf(vol), old(TableOf(vol)), vol.super, old(vol.super))
    ensures !ok && !back ==> PoolFull(vol.pool) || vol.storage.faults > old(vol.storage.faults)
    ensures !ok ==> inode.blocks < need
    ensures !ok ==>
      NoGrowth(inode.direct, need - inode.blocks, vol.super, old(vol.Busy())) || PoolFull(vol.pool)
      || vol.storage.faults > old(vol.storage.faults)
    ensures vol.storage.faults >= old(vol.storage.faults)
  {
    hide NoGrowth, NoRun, Good, PoolFull, PoolOk, Durable, LaySet, SetOf, UsedIn, StageOf, Flat, SlotsOf, CommittedUsed,
         BlockOf, SealOf, Crc32c, Content, ImagesOf, V.ThreeViews, V.Sound, DataOnly, SealedIn, V.SetOfSeq, V.DataUsed,
         FromLe, Le, Run, Range, TailFree;
    WritingParts(vol, n, inode, t, others);
    SoundParts(vol.super, inode);
    ghost var view, q, used, s := vol.storage.View(), Flat(inode.direct), vol.Used(), vol.super;
    next, touched, back := inode, {}, false;
    DataOnlyRefl(view, vol.device, vol.csuper, touched);
    if need <= inode.blocks {
      NoTail(q, inode.blocks, vol.Committed());
      NoTail(q, inode.blocks, used);
      var imgs := ImagesOf(view, vol.device, q);
      assert imgs + BlankImages(0) == imgs;
      return true, inode, touched, back;
    }
    ghost var start, taken;
    ok, next, start, touched, taken := GrowInode(vol, inode, need);
    ghost var add := need - inode.blocks;
    if ok {
      V.DataUsedFrame(used, s, vol.csuper);
      BlankRun(vol, start, add);
      ImagesGrow(view, vol.storage.View(), vol.device, vol.csuper, used, q, start, add);
      ApartGrow(used, others, q, start, add);
      TailGrow(q, start, add, vol.Committed());
      TailGrow(q, start, add, used);
      GrownAgrees(s, vol.super, used, vol.Used(), vol.Committed(), t[n := Some(inode)], n, inode, next, start, need);
      assert t[n := Some(inode)][n := Some(next)] == t[n := Some(next)];
      if SealedIn(view, vol.device, vol.csuper, used) {
        SealedGrow(view, vol.storage.View(), vol.device, vol.csuper, used, start, add);
      }
    } else {
      back := vol.Used() == used && vol.super == s;
    }
  }

  lemma NoTail(q: seq<nat>, from: nat, committed: set<nat>)
    requires from >= |q|
    ensures TailFree(q, from, committed)
  {
  }

  lemma BlankRun(vol: Volume, start: nat, add: nat)
    requires forall b :: b in Run(start, add) ==> Blank(vol, b)
    ensures forall b: nat :: b in Run(start, add) ==>
      && vol.csuper.dataStart <= b
      && SealOf(vol.storage.View(), vol.device, vol.csuper, b) == Le(Crc32c(Zeros(BLOCK_SIZE)), 4)
      && BlockOf(vol.storage.View(), vol.device, b) == Zeros(BLOCK_SIZE)
  {
    hide BlockOf, SealOf, Crc32c, Le, Run;
  }

  /** Blocks of a file that an agreeing table keeps apart from all other allocated blocks. */
  lemma StartApart(used: set<nat>, t: V.Table, s: Superblock, n: nat)
    requires V.ThreeViews(used, t, s) && 0 < n < |t| && V.InUse(t[n])
    ensures Apart(used, used - V.SetOfSeq(Flat(t[n].value.direct)), Flat(t[n].value.direct))
  {
    hide Flat;
    V.SoundBlocks(used, t, s, n);
  }

  function Max(a: nat, b: nat): nat
  {
    if a < b then b else a
  }

  function BlocksFor(end: nat): (r: nat)
    ensures r <= end <= BLOCK_SIZE * r
  {
    (end + BLOCK_SIZE - 1) / BLOCK_SIZE
  }

  /** The inode after a write: extents aside, only size, block count and two times move. */
  ghost predicate WroteInode(i: Inode, next: Inode, end: nat, now: u64)
  {
    && next == i.(direct := next.direct, blocks := next.blocks, size := next.size, mtime := now, ctime := now)
    && next.size == Max(i.size, end)
    && next.blocks == Max(i.blocks, BlocksFor(end))
  }

  /** What a write does to the stored bytes: fresh blocks arrive as zeroes, then the bytes land at `offset`. */
  function AfterWrite(stored: seq<u8>, offset: nat, bytes: seq<u8>): seq<u8>
  {
    Splice(stored + Zeros(Max(|stored|, BLOCK_SIZE * BlocksFor(offset + |bytes|)) - |stored|), offset, bytes)
  }

  /** Times and size are not part of the agreement. */
  lemma TouchAgrees(used: set<nat>, t: V.Table, s: Superblock, n: nat, i: Inode, j: Inode)
    requires 0 < n < |t| && i.mode != 0 && V.ThreeViews(used, t[n := Some(i)], s)
    requires j == i.(size := j.size, mtime := j.mtime, ctime := j.ctime)
    ensures V.ThreeViews(used, t[n := Some(j)], s)
  {
    hide Flat;
    var u := t[n := Some(i)];
    assert u[n] == Some(i) && u[n := Some(j)] == t[n := Some(j)];
    V.Reown(used, u, s, n, j, used, s);
  }

  /** The chunk loop of adytumfs_file_write, over a file that already has room. */
  method FillChunks(vol: Volume, n: nat, inode: Inode, oldBlocks: nat, offset: nat, bytes: seq<u8>, ghost t: V.Table,
      ghost others: set<nat>)
    returns (ok: bool, next: Inode, ghost touched: set<nat>)
    requires vol.Valid() && Writing(vol, n, inode, t, others)
             && TailFree(Flat(inode.direct), oldBlocks, vol.Committed())
    requires offset + |bytes| <= BLOCK_SIZE * |Flat(inode.direct)|
    modifies vol`pool, vol`super, vol.storage
    ensures vol.Valid() && DataOnly(old(vol.storage.View()), vol.storage.View(), vol.device, vol.csuper, touched)
            && touched !! others
    ensures ok ==> Writing(vol, n, next, t, others) && SameBut(old(TableOf(vol)), TableOf(vol), n)
    ensures ok ==> next == inode.(direct := next.direct)
    ensures ok ==> Stored(vol, next) == Splice(old(Stored(vol, inode)), offset, bytes)
    ensures ok && old(Sealed(vol)) ==> Sealed(vol)
    ensures !ok && old(Sealed(vol)) ==>
      Blocked(vol, n, next, oldBlocks, t, others) || PoolFull(vol.pool) || vol.storage.faults > old(vol.storage.faults)
    ensures vol.storage.faults >= old(vol.storage.faults)
  {
    hide Good, PoolOk, Durable, LaySet, SetOf, UsedIn, StageOf, Flat, SlotsOf, CommittedUsed, BlockOf, SealOf, Crc32c,
         Content, ImagesOf, V.ThreeViews, V.Sound, DataOnly, SealedIn, V.SetOfSeq, V.DataUsed, FromLe, Le, TailFree,
         Splice, Writing, SameBut, Blocked, PoolFull;
    ghost var view, room := vol.storage.View(), Stored(vol, inode);
    next, touched := inode, {};
    DataOnlyRefl(view, vol.device, vol.csuper, touched);
    NothingSpliced(room, offset, bytes);
    SameRefl(TableOf(vol), n);
    var done := 0;
    var scratch: Image := Zeros(BLOCK_SIZE);
    while done < |bytes|
      invariant vol.Valid() && 0 <= done <= |bytes|
      invariant DataOnly(view, vol.storage.View(), vol.device, vol.csuper, touched) && touched !! others
      invariant Writing(vol, n, next, t, others) && SameBut(old(TableOf(vol)), TableOf(vol), n)
      invariant next == inode.(direct := next.direct) && |Flat(next.direct)| == |Flat(inode.direct)|
      invariant TailFree(Flat(next.direct), oldBlocks, vol.Committed())
      invariant Stored(vol, next) == Splice(room, offset, bytes[..done])
      invariant old(Sealed(vol)) ==> Sealed(vol)
      invariant vol.storage.faults >= old(vol.storage.faults)
    {
      var position := offset + done;
      var within := position % BLOCK_SIZE;
      var chunk := if BLOCK_SIZE - within > |bytes| - done then |bytes| - done else BLOCK_SIZE - within;
      ghost var before, more, table := vol.storage.View(), {}, TableOf(vol);
      SpliceTwice(room, offset, bytes, done, chunk);
      ok, next, scratch,
        more := WriteChunk(vol, n, next, oldBlocks, position, bytes[done..done + chunk], scratch, t, others);
      DataOnlyTrans(view, before, vol.storage.View(), vol.device, vol.csuper, touched, more);
      touched := touched + more;
      if !ok {
        return;
      }
      SameButTrans(old(TableOf(vol)), table, TableOf(vol), n);
      done := done + chunk;
    }
    assert bytes[..done] == bytes;
    ok := true;
  }

  /** The file has to grow and cannot. */
  ghost predicate NoRoom(inode: Inode, need: nat, s: Superblock, busy: set<nat>)
  {
    inode.blocks < need && NoGrowth(inode.direct, need - inode.blocks, s, busy)
  }

  /** Growth and the chunk loop of adytumfs_file_write. */
  method WriteAll(vol: Volume, n: nat, inode: Inode, offset: u64, bytes: seq<u8>, ghost t: V.Table,
      ghost others: set<nat>)
    returns (ok: bool, next: Inode, ghost touched: set<nat>)
    requires vol.Valid() && Writing(vol, n, inode, t, others) && bytes != [] && offset + |bytes| < U64_LIMIT
    modifies vol`pool, vol`super, vol.storage
    ensures vol.Valid() && DataOnly(old(vol.storage.View()), vol.storage.View(), vol.device, vol.csuper, touched)
            && touched !! others
    ensures ok ==> Writing(vol, n, next, t, others) && SameBut(old(TableOf(vol)), TableOf(vol), n)
    ensures ok ==> next == inode.(direct := next.direct, blocks := next.blocks)
    ensures ok ==> next.blocks == Max(inode.blocks, BlocksFor(offset + |bytes|))
    ensures ok ==> Stored(vol, next) == AfterWrite(old(Stored(vol, inode)), offset, bytes)
    ensures ok && old(Sealed(vol)) ==> Sealed(vol)
    ensures !ok && old(Sealed(vol)) ==>
      || NoRoom(inode, BlocksFor(offset + |bytes|), vol.super, old(vol.Busy()))
      || Blocked(vol, n, next, inode.blocks, t, others)
      || PoolFull(vol.pool) || vol.storage.faults > old(vol.storage.faults)
    ensures vol.storage.faults >= old(vol.storage.faults)
  {
    hide Good, PoolOk, Durable, LaySet, SetOf, UsedIn, StageOf, Flat, SlotsOf, CommittedUsed, BlockOf, SealOf, Crc32c,
         Content, ImagesOf, V.ThreeViews, V.Sound, DataOnly, SealedIn, V.SetOfSeq, V.DataUsed, FromLe, Le, TailFree,
         Splice, Writing, SameBut, Blocked, PoolFull, NoGrowth;
    ghost var view := vol.storage.View();
    StoredLength(vol, n, inode, t, others);
    var oldBlocks := inode.blocks;
    ghost var back;
    ok, next, touched, back := GrowForWrite(vol, n, inode, BlocksFor(offset + |bytes|), t, others);
    if !ok {
      return;
    }
    ContentGrow(ImagesOf(view, vol.device, Flat(inode.direct)), BlankImages(next.blocks - inode.blocks));
    StoredLength(vol, n, next, t, others);
    ghost var before, more, table := vol.storage.View(), {}, TableOf(vol);
    ok, next, more := FillChunks(vol, n, next, oldBlocks, offset, bytes, t, others);
    DataOnlyTrans(view, before, vol.storage.View(), vol.device, vol.csuper, touched, more);
    touched := touched + more;
  }

  lemma NothingSpliced(room: seq<u8>, offset: nat, bytes: seq<u8>)
    requires offset + |bytes| <= |room|
    ensures Splice(room, offset, bytes[..0]) == room
  {
  }

  lemma StoredLength(vol: Volume, n: nat, inode: Inode, t: V.Table, others: set<nat>)
    requires Writing(vol, n, inode, t, others)
    ensures |Flat(inode.direct)| == inode.blocks && |Stored(vol, inode)| == BLOCK_SIZE * inode.blocks
  {
    hide Flat, LaySet, SetOf, UsedIn, StageOf, SlotsOf, Content, ImagesOf;
    WritingParts(vol, n, inode, t, others);
  }

  lemma StartWrite(vol: Volume, n: nat, inode: Inode, others: set<nat>)
    requires Agrees(vol) && InodeOf(vol, n) == Some(inode) && inode.mode != 0
             && others == vol.Used() - V.SetOfSeq(Flat(inode.direct))
    ensures Writing(vol, n, inode, TableOf(vol), others)
  {
    hide LaySet, SetOf, UsedIn, StageOf, Flat, SlotsOf, V.ThreeViews, Apart, V.SetOfSeq;
    StartApart(vol.Used(), TableOf(vol), vol.super, n);
    assert TableOf(vol)[n := Some(inode)] == TableOf(vol);
  }

  /**
    adytumfs_file_write.  A successful write changes exactly the written bytes,
    keeps the allocation records in agreement and the data sealed; successful
    or not, it writes only to blocks free in the committed generation and to no
    block of any other file.  On sealed data it fails only when it cannot grow
    the file, cannot redirect a block of it (`held` is the inode at that point),
    or a resource runs out.
   */
  method FileWrite(vol: Volume, n: nat, offset: u64, bytes: seq<u8>, now: u64)
    returns (ok: bool, written: nat, ghost touched: set<nat>, ghost held: Inode)
    requires vol.Valid() && Agrees(vol) && |bytes| < U64_LIMIT
    modifies vol`pool, vol`super, vol.storage
    ensures vol.Valid() && DataOnly(old(vol.storage.View()), vol.storage.View(), vol.device, vol.csuper, touched)
    ensures touched !! old(vol.Used()) - FileBlocks(old(InodeOf(vol, n)))
    ensures FilesKept(old(vol.storage.View()), vol.storage.View(), vol.device, vol.csuper, old(TableOf(vol)), n)
    ensures ok ==> IsFile(old(InodeOf(vol, n))) && IsFile(InodeOf(vol, n)) && written == |bytes| && Agrees(vol)
    ensures ok ==> TableOf(vol) == old(TableOf(vol))[n := InodeOf(vol, n)]
    ensures ok && bytes == [] ==> InodeOf(vol, n) == old(InodeOf(vol, n)) && touched == {}
    ensures ok && bytes != [] ==> WroteInode(old(InodeOf(vol, n)).value, InodeOf(vol, n).value, offset + |bytes|, now)
    ensures ok && bytes != [] ==>
      Stored(vol, InodeOf(vol, n).value) == AfterWrite(old(Stored(vol, InodeOf(vol, n).value)), offset, bytes)
    ensures ok && old(Sealed(vol)) ==> Sealed(vol)
    ensures !ok && old(Sealed(vol)) && IsFile(old(InodeOf(vol, n))) && offset + |bytes| < U64_LIMIT ==>
      var i := old(InodeOf(vol, n)).value;
      || NoRoom(i, BlocksFor(offset + |bytes|), vol.super, old(vol.Busy()))
      || Blocked(vol, n, held, i.blocks, old(TableOf(vol)), old(vol.Used()) - V.SetOfSeq(Flat(i.direct)))
      || PoolFull(vol.pool) || vol.storage.faults > old(vol.storage.faults)
  {
    hide Good, PoolOk, Durable, LaySet, SetOf, UsedIn, StageOf, Flat, SlotsOf, CommittedUsed, BlockOf, SealOf, Crc32c,
         Content, ImagesOf, V.ThreeViews, V.Sound, DataOnly, SealedIn, V.SetOfSeq, V.DataUsed, FromLe, Le, TailFree,
         Splice, Apart, Blocked, PoolFull, NoRoom, FilesKept;
    written, touched := 0, {};
    held := Newborn(0, 0, 0, 0);
    DataOnlyRefl(vol.storage.View(), vol.device, vol.csuper, touched);
    FilesSame(vol.storage.View(), vol.device, vol.csuper, TableOf(vol), n);
    var inode;
    ok, inode := ReadInode(vol, n);
    if !ok || !HasMode(inode.mode, MODE_REG) {
      return false, 0, touched, held;
    }
    if |bytes| == 0 {
      return true, 0, touched, held;
    }
    if offset + |bytes| >= U64_LIMIT {
      return false, 0, touched, held;
    }
    ghost var t, others := TableOf(vol), vol.Used() - V.SetOfSeq(Flat(inode.direct));
    ghost var s, used := vol.super, vol.Used();
    StartWrite(vol, n, inode, others);
    ok, inode, touched := WriteAll(vol, n, inode, offset, bytes, t, others);
    held := inode;
    OtherFilesKept(old(vol.storage.View()), vol.storage.View(), vol.device, s, vol.csuper, used, t, n, touched);
    if !ok {
      return;
    }
    WritingParts(vol, n, inode, t, others);
    ghost var filled := inode;
    if offset + |bytes| > inode.size {
      inode := inode.(size := offset + |bytes|);
    }
    inode := inode.(mtime := now, ctime := now);
    TouchAgrees(vol.Used(), t, vol.super, n, filled, inode);
    SameButSet(old(TableOf(vol)), TableOf(vol), n, Some(inode));
    ok := WriteInode(vol, n, inode);
    written := |bytes|;
  }

  // ---- what readers see ---------------------------------------------------

  /** The reference: contents zero-extended to the offset, overlaid with the bytes. */
  function Overlaid(contents: seq<u8>, offset: nat, bytes: seq<u8>): (r: seq<u8>)
    ensures |r| == Max(|contents|, offset + |bytes|)
  {
    seq(Max(|contents|, offset + |bytes|), p requires 0 <= p =>
      if offset <= p < offset + |bytes| then bytes[p - offset] else if p < |contents| then contents[p] else 0)
  }

  /** Blocks past the size hold zeroes. */
  predicate SlackZero(stored: seq<u8>, size: nat)
  {
    size <= |stored| && forall p :: size <= p < |stored| ==> stored[p] == 0
  }

  lemma AfterWriteAt(stored: seq<u8>, offset: nat, bytes: seq<u8>, p: nat)
    requires p < |AfterWrite(stored, offset, bytes)|
    ensures |AfterWrite(stored, offset, bytes)| == Max(|stored|, BLOCK_SIZE * BlocksFor(offset + |bytes|))
    ensures AfterWrite(stored, offset, bytes)[p]
         == if offset <= p < offset + |bytes| then bytes[p - offset] else if p < |stored| then stored[p] else 0
  {
  }

  /**
    A write leaves the file reading as the overlay exactly when no stale byte
    lies between the old size and the offset.
   */
  lemma WriteIsOverlay(stored: seq<u8>, size: nat, offset: nat, bytes: seq<u8>)
    requires size <= |stored|
    ensures Max(size, offset + |bytes|) <= |AfterWrite(stored, offset, bytes)|
    ensures AfterWrite(stored, offset, bytes)[..Max(size, offset + |bytes|)] == Overlaid(stored[..size], offset, bytes)
      <==> forall p :: size <= p < |stored| && p < offset ==> stored[p] == 0
  {
    hide AfterWrite, BlocksFor;
    var r, o, end := AfterWrite(stored, offset, bytes), Overlaid(stored[..size], offset, bytes),
      Max(size, offset + |bytes|);
    AfterWriteLength(stored, offset, bytes);
    forall p | 0 <= p < end
      ensures r[p] == if size <= p < |stored| && p < offset then stored[p] else o[p]
      ensures size <= p < offset ==> o[p] == 0
    {
      AfterWriteAt(stored, offset, bytes, p);
    }
    if r[..end] == o {
      forall p | size <= p < |stored| && p < offset
        ensures stored[p] == 0
      {
        assert r[..end][p] == o[p];
      }
    }
  }

  lemma AfterWriteLength(stored: seq<u8>, offset: nat, bytes: seq<u8>)
    ensures |AfterWrite(stored, offset, bytes)|
      == Max(|stored|, BLOCK_SIZE * BlocksFor(offset + |bytes|)) >= offset + |bytes|
  {
  }

  /** Zero slack is an invariant of writing, so every later write is an overlay too. */
  lemma WriteKeepsSlack(stored: seq<u8>, size: nat, offset: nat, bytes: seq<u8>)
    requires SlackZero(stored, size)
    ensures SlackZero(AfterWrite(stored, offset, bytes), Max(size, offset + |bytes|))
    ensures AfterWrite(stored, offset, bytes)[..Max(size, offset + |bytes|)] == Overlaid(stored[..size], offset, bytes)
  {
    hide AfterWrite, BlocksFor;
    WriteIsOverlay(stored, size, offset, bytes);
    var r := AfterWrite(stored, offset, bytes);
    forall p | Max(size, offset + |bytes|) <= p < |r|
      ensures r[p] == 0
    {
      AfterWriteAt(stored, offset, bytes, p);
    }
  }

  /** Reading back any window of a written file gives that window of the overlay. */
  lemma ReadAfterWrite(stored: seq<u8>, size: nat, offset: nat, bytes: seq<u8>, from: nat, length: nat, out: seq<u8>)
    requires SlackZero(stored, size)
    requires ReadResult(AfterWrite(stored, offset, bytes), Max(size, offset + |bytes|), from, length, out)
    ensures out != [] ==> from + |out| <= |Overlaid(stored[..size], offset, bytes)|
    ensures out != [] ==> out == Overlaid(stored[..size], offset, bytes)[from..from + |out|]
  {
    hide AfterWrite, Overlaid;
    WriteKeepsSlack(stored, size, offset, bytes);
    var r, end := AfterWrite(stored, offset, bytes), Max(size, offset + |bytes|);
    if out != [] {
      assert r[..end][from..from + |out|] == r[from..from + |out|];
    }
  }

  /** The blocks hold the same bytes, and what could be read still can. */
  ghost predicate SameBlocks(view: Disk, view': Disk, d: nat, s: Superblock, q: seq<nat>)
  {
    ImagesOf(view', d, q) == ImagesOf(view, d, q) && (Readable(view, d, s, q) ==> Readable(view', d, s, q))
  }

  /** Every used inode of the table, except perhaps slot `but`, keeps its bytes. */
  ghost predicate FilesKept(view: Disk, view': Disk, d: nat, s: Superblock, t: V.Table, but: nat)
  {
    forall k :: 0 < k < |t| && k != but && V.InUse(t[k]) ==> SameBlocks(view, view', d, s, Flat(t[k].value.direct))
  }

  lemma FilesSame(view: Disk, d: nat, s: Superblock, t: V.Table, but: nat)
    ensures FilesKept(view, view, d, s, t, but)
  {
    hide Flat, Readable, ImagesOf;
  }

  lemma BlocksKept(view: Disk, view': Disk, d: nat, c: Superblock, q: seq<nat>, touched: set<nat>)
    requires DataOnly(view, view', d, c, touched)
    requires forall l :: 0 <= l < |q| ==> IsData(c, q[l]) && q[l] !in touched
    ensures SameBlocks(view, view', d, c, q)
  {
    hide BlockOf, SealOf, SetOf, Crc32c, FromLe;
    assert ImagesOf(view', d, q) == ImagesOf(view, d, q);
  }

  /**
    Where only free blocks and blocks of slot `but` are touched, every other
    used inode keeps its bytes.
   */
  lemma OtherFilesKept(view: Disk, view': Disk, d: nat, s: Superblock, c: Superblock, used: set<nat>, t: V.Table,
      but: nat, touched: set<nat>)
    requires V.ThreeViews(used, t, s) && c.dataStart == s.dataStart && c.checksumRegion == s.checksumRegion
    requires DataOnly(view, view', d, c, touched)
    requires touched !! used - if 0 < but < |t| && V.InUse(t[but]) then V.SetOfSeq(Flat(t[but].value.direct)) else {}
    ensures FilesKept(view, view', d, c, t, but)
  {
    hide Flat, DataOnly, SameBlocks, V.ThreeViews;
    forall k | 0 < k < |t| && k != but && V.InUse(t[k])
      ensures SameBlocks(view, view', d, c, Flat(t[k].value.direct))
    {
      var q := Flat(t[k].value.direct);
      V.SoundBlocks(used, t, s, k);
      forall l | 0 <= l < |q|
        ensures IsData(c, q[l]) && q[l] !in touched
      {
        assert q[l] in V.SetOfSeq(q);
        if 0 < but < |t| && V.InUse(t[but]) {
          V.ClaimsApart(used, t, s, k, but, q[l]);
        }
      }
      BlocksKept(view, view', d, c, q, touched);
    }
  }
}
