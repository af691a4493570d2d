# AdytumFS, its block cache, and three small cores of the kernel

This project models the copy-on-write filesystem AdytumFS from the block cache up to create and unlink,
the leveled kernel locks, the driver manager and supervisor, and the DNS and IPv4 wire formats, and
proves what they promise.  `dafny verify dfyconfig.toml` checks everything; no file includes another.

## How the filesystem is modelled

- `BlockCache.Storage` is the write-back cache over the devices.  `disk` is what the devices hold, `View()` is
  what a reader of the cache sees, and `history` records the device contents after every single sector write.
  A crash is therefore any element of `history`: evictions, partial flushes and torn blocks are all in it.
  A sector write either happens whole or fails and leaves the sector alone; `faults` counts failed device calls,
  so "succeeds unless the device fails" is a clause about `faults`, and "unless the pool is full" one about
  `Volumes.PoolFull`.
- `Volumes.Volume` is a mounted volume: the staging pool, the superblock in memory, and, as ghost state, the
  committed generation.  `Valid()` says that the device, the cached view and every device state since the window
  opened still mount as that generation with all its metadata, data and checksum entries in place
  (`Durability.Safe`, `Durability.SafeMounts`).  Every operation above it keeps `Valid()`, succeed or fail, so this
  holds at every crash point of every run of operations between two commits.
- The metadata is seen through values: `Active()` is the committed bitmap and inode table, `Window()` the same
  with the staged images laid over, `Used()` the blocks the window's bitmap marks.
- `Extents.Flat` turns an inode's extent list into the sequence of physical blocks it maps; `Views.ThreeViews` says
  in one multiset equation that the extents of all used inodes are disjoint and cover exactly the allocated data
  blocks, and that block counts and both free counters are exact.
- CRC32C is defined bit by bit (Castagnoli polynomial) and no property of it is used: a superblock torn at any
  sector either fails its checksum or is already the whole new superblock, because everything between the
  fields and the checksum is zero (`Superblocks.TornFlip`).

## Main results

- From mount to mount (`Session.dfy`): call a volume healthy when the audit would accept its window, its data are sealed
  and its directories well-formed, and rooted when the committed generation is all that too.  A formatted volume is both
  (`Sessions.FormattedHealthy`).  Any run of creates of a proper kind, unlinks and writes that succeed keeps both
  (`Sessions.RunWindow`).  So does the commit of a window whose stage covers the difference of the two sets, and a crash
  at any sector write of it leaves every file and directory of the old generation, or every one of the window
  (`Sessions.CommitWindow`); between commits it leaves those of the committed generation.  Mounting such a device gives
  a healthy, rooted volume with those files again (`Sessions.Recover`).
- Underneath, every device state during and between commits mounts as one whole generation and passes the mount audit
  (`Audits.CommitAudited`, `Audits.OpenWindowAudits`, on top of `Volumes.Volume.Commit`).
- Every successful file and directory operation keeps the records in agreement and every other file its bytes, none
  touches a committed block, and each failure has a named reason and a stated effect (`Files.FileWrite`,
  `Directories.DirAdd`, `Directories.DirRemove`, `Ops.CreateAt`, `Ops.UnlinkAt`).
- The audit accepts exactly the volumes whose records agree and whose used inodes each have one kind (`Audits.Verify`).
- Files are byte sequences, directories finite maps, paths walks through them (`Files.WriteIsOverlay`,
  `Directories.DirLookup`, `Directories.DirList`, `Ops.PathResolve`).
- The cache is invisible: it behaves as the plain device (`BlockCache.Storage.Read`, `BlockCache.Storage.Write`,
  `BlockCache.Storage.Flush`).
- Locks exclude, are fair and cannot deadlock among themselves.
- The supervisor's bounds hold in every run.  Quarantine absorbs every run of driver manager calls, whatever the rest of
  the kernel does to domains in between short of creating or removing one: until an administrator releases it the domain
  stays, alone on its device, and no domain of the device has a task (`DriverManagers.Manager.ManagerAbsorbs`).  The
  manifest graph stays acyclic and starting ends with nothing left to start.
- A DNS name is read exactly when its bytes are a compressed form of it (`Dns.ReadExactly`); DNS questions and IPv4
  headers round-trip; the vector checksum is the scalar one.

## What turned out to be false, and exactly when it holds

- A commit copies only the staged blocks to the inactive set.  The published set equals the window's view if and
  only if the stage covers every index where the sets differ (`Staging.PublishedExactly`,
  `Volumes.Volume.ExactPublication`); over a run, if and only if each window restages whatever the previous one
  changed (`Staging.RunExactIff`); otherwise the earlier update is lost (`Staging.LostUpdate`), and if that update was
  the bit of a data block, the audit rejects the generation (`Audits.UncoveredRejected`).
- Agreeing records are not enough for the audit: `adytumfs_create_at` takes any non-zero mode.  A create keeps the window
  acceptable if and only if the mode names exactly one kind (`Ops.CreateAt`); permission bits alone do not
  (`Audits.PlainBitsKindless`), and a covering commit of such an inode publishes a generation the audit rejects
  (`Audits.KindlessRejected`, `Audits.WindowAudits`).
- On volumes beyond 256 bitmap blocks a bit is read right if and only if the block its one-byte key aliases is not staged
  or happens to agree (`Staging.WideBit`), and no window can change a bit there (`Staging.WideFixed`).
- The tail subtraction of the formatter wraps on exactly the devices below three blocks, and its guard lets one and
  two blocks through (`Mounts.TailWraps`).
- A flip that fails on the device is not always undone.  If the flip slot already stored the checksum of the superblock
  being written, the first sector of the flip completes it, and such slots exist (`Superblocks.AliasedSlot`).  A failed
  commit leaves the old generation durable if and only if it did not store that checksum or no first sector landed
  (`Volumes.Volume.Commit`, `Durability.FlipExact`, `Superblocks.TornExactly`).
- Reading back a write gives the zero-extended overlay if and only if no stale byte lies between the old size and the
  offset (`Files.WriteIsOverlay`); zero slack is kept by every write (`Files.WriteKeepsSlack`).
- An unlink that cannot rewrite the directory block after releasing the file's blocks leaves the three records in
  agreement if and only if the file had no blocks (`Ops.UnlinkAt`, `Ops.EmptyOrBroken`).
- A redirection can fail with free space left: it needs a free data block and room to split the extent
  (`InodeOps.Stuck`).  Device errors and a full staging pool aside, this is the only reason why an overwrite in
  place, the removal of a bound name or the unlink of a file is refused (`InodeOps.RemapInode`, `Files.FileWrite`,
  `Directories.DirRemove`, `Ops.UnlinkAt`).
- A directory insertion takes a lookup that failed on a device error for an absent name and may bind a name twice
  (`Directories.AddedTwice`).  A successful insertion keeps the directory a map if and only if the name was absent, and
  then only that binding is new (`Directories.MapLaw`, in `Directories.DirAdd` and `Ops.CreateAt`).
- `klock_release` compares only levels; two locks of this kernel share a level.  A release keeps the locks sound if and
  only if it names the lock taken last (`Klocks.ReleaseExact`); otherwise a second CPU can enter a held lock
  (`Klocks.SharedLevel`).
- Stopping or quarantining a removed domain, or a failed removal or destruction of it, lets it occupy its device
  again.  One domain per device is kept if and only if no call does this while another domain has the device
  (`Supervisors.OnePerDeviceExact`); if one does, a task can start on a quarantined device
  (`Supervisors.LiveBesideQuarantine`, reachable by `Supervisors.RemovedThenRecreated`).  The driver manager destroys
  whatever it removes before it creates anything, so its runs never do (`Supervisors.SingleExact`,
  `Supervisors.OrderlyAbsorbs`, `DriverManagers.Manager.Valid`).
- A binding keeps naming its domain's table entry when other code destroys or releases the domain, and the entry can go
  to another device (`DriverManagers.StaleBinding`).  Bindings and domains stay coherent over a run if and only if no
  call frees a bound domain (`DriverManagers.CoherentExact`, `DriverManagers.CoherentRun`).
- `dns_build_query` accepts a name with a trailing dot, but the question it builds matches the name if and only if
  there is none and the type fits sixteen bits (`Dns.QueryRoundTrip`).

## Model

| member | source | states |
|---|---|---|
| BlockCache.Storage.Lookup | src/block/cache.c:28-35 | finds the one live entry of a page, or none |
| BlockCache.Storage.Writeback | src/block/cache.c:37-46 | the logical view never changes; success leaves the entry clean, failure leaves it dirty; every device state on the way is a per-page prefix of the view |
| BlockCache.Storage.Evict | src/block/cache.c:48-66 | frees the entry under the clock hand without changing the view, moving past it only after a device error |
| BlockCache.Storage.Fill | src/block/cache.c:68-95 | the page is resident afterwards and the view is unchanged |
| BlockCache.Storage.Read | src/block/cache.c:108-124 | in-range reads return the view, that is the latest writes |
| BlockCache.Storage.Write | src/block/cache.c:126-143 | the view gets exactly the written prefix, all of it on success; nothing of other pages lands that was not in the view |
| BlockCache.Storage.Flush | src/block/cache.c:145-154 | success makes device and view equal on the device with nothing dirty; the view never changes |
| BlockCache.Storage.DropDevice | src/block/cache.c:156-165 | reverts exactly the device's pages to what the device holds |
| BlockCache.Storage.Invalidate | src/block/cache.c:171-188 | reverts exactly the named pages and leaves them uncached |
| BlockCache.Storage.DirtyCount | src/block/cache.c:190-195 | counts the dirty entries |
| Superblocks.UnpackPack | src/fs/adytumfs_super.c:5-63 | every version 2 superblock survives its block image |
| Superblocks.TornFlip | src/fs/adytumfs_super.c:31-63 | a superblock write cut off after any sector is unsound or already the whole new superblock, the latter before the last sector if and only if the slot already stored the new checksum |
| Superblocks.TornExactly | src/fs/adytumfs_super.c:31-63 | a torn write of a version 2 superblock is unsound if and only if the slot did not store its checksum before |
| Superblocks.AliasedSlot | src/fs/adytumfs_super.c:31-63 | for every superblock there is an unsound slot that one sector of the write turns into the whole superblock |
| Superblocks.PickActive | src/fs/adytumfs_super.c:138-172 | the picker returns the active superblock whenever the other copy cannot outrank it |
| Mounts.SuperRead | src/fs/adytumfs_super.c:138-172 | without device errors the result is exactly the picker's choice; any result is structurally valid |
| Durability.SafeMounts | src/fs/adytumfs_super.c:138-172 | safe device contents mount as the committed generation with its set, its data and its checksum entries |
| Durability.SafeMix | src/block/cache.c:37-46 | whatever part of the cached pages has landed, safe contents stay safe |
| Durability.SafeOpens | src/fs/adytumfs_super.c:138-172 | safe device contents can be opened again as the committed generation |
| Durability.FlipOutcome | src/fs/adytumfs_volume.c:499-508 | every device state while the flip lands is the old generation whole or the new one whole |
| Durability.FlipExact | src/fs/adytumfs_volume.c:499-508 | while the last sector of the flip is missing, the old generation is safe if and only if the slot did not store the new checksum or the first sector has not landed; otherwise the new generation is published |
| Durability.BegunAliased | src/fs/adytumfs_volume.c:499-508 | a first sector on a slot that stores the new checksum makes the new superblock outrank the old one |
| Durability.FlipVerdict | src/fs/adytumfs_volume.c:499-508 | after a failed flip the window is durable if and only if not both of these happened |
| Durability.CommitDurable | src/fs/adytumfs_volume.c:499-511 | a landed flip is a durable new generation |
| Staging.PublishedExactly | src/fs/adytumfs_volume.c:474-481 | the published set is the window's view if and only if the stage covers the difference of the sets |
| Staging.RunExactIff | src/fs/adytumfs_volume.c:461-512 | a run of commits publishes every window exactly if and only if each window restages what the previous one changed |
| Staging.GrowingStages | src/fs/adytumfs_volume.c:461-512 | windows that stage at least what the previous window staged keep the mounted view exact |
| Staging.TwoWindows | src/fs/adytumfs_volume.c:461-512 | from twin sets the second commit publishes the second stage over the sets before both, where both stages were meant |
| Staging.LostUpdate | src/fs/adytumfs_volume.c:474-481 | a bitmap or table block staged by one window and not by the next comes back as it was before both |
| Staging.WideBit | src/fs/adytumfs_volume.c:347-364 | on a volume of any size the bit test reads the window's bit if and only if the bitmap index fits a byte, the aliased block is not staged, or both images agree in the bit |
| Staging.WideFixed | src/fs/adytumfs_volume.c:287-295 | no stage changes a bit beyond 256 bitmap blocks |
| Volumes.Volume.constructor | src/fs/adytumfs_super.c:138-172 | a flushed device whose picked superblock can be opened is a valid volume |
| Volumes.Volume.CrashMounts | src/fs/adytumfs_volume.c:404-444 | between commits every device state mounts as the committed generation, metadata, data and checksums untouched |
| Volumes.Volume.FindStaged | src/fs/adytumfs_volume.c:274-282 | finds the staged entry of a key, the index taken modulo 256 |
| Volumes.Volume.Claim | src/fs/adytumfs_volume.c:287-309 | a claimed block starts as the committed image, so the window's view stays; fails only when the pool is full or the device fails |
| Volumes.Volume.Discard | src/fs/adytumfs_volume.c:311-315 | the device's staged entries go and no others |
| Volumes.Volume.TableRead | src/fs/adytumfs_volume.c:319-332 | reads the window's table block; a staged block needs no device |
| Volumes.Volume.TableStage | src/fs/adytumfs_volume.c:336-344 | changes the window's view at that block alone and nothing on the device |
| Volumes.Volume.BitTest | src/fs/adytumfs_volume.c:347-364 | the bit in the window's bitmap |
| Volumes.Volume.BitCommitted | src/fs/adytumfs_volume.c:370-383 | the bit in the committed bitmap |
| Volumes.Volume.BitWrite | src/fs/adytumfs_volume.c:387-402 | adds or removes exactly that block of the window's used set |
| Volumes.Volume.FindRun | src/fs/adytumfs_volume.c:404-443 | the first run of data blocks free in the window and in the committed generation, or proof that none exists |
| Volumes.Volume.AllocRun | src/fs/adytumfs_volume.c:404-444 | a handed-out run is free in both generations, first fit, and exactly that run becomes used |
| Volumes.Volume.FreeRun | src/fs/adytumfs_volume.c:446-459 | releases exactly a run of data blocks; cannot fail when its bitmap blocks are already staged |
| Volumes.Volume.DataCheck | src/fs/adytumfs_volume.c:26-41 | succeeds only for bytes the checksum entry vouches for |
| Volumes.Volume.DataSeal | src/fs/adytumfs_volume.c:43-58 | rewrites one checksum entry and no other |
| Volumes.Volume.DataRead | src/fs/adytumfs_volume.c:60-65 | returns the block's bytes when its entry vouches for them |
| Volumes.Volume.DataWrite | src/fs/adytumfs_volume.c:67-72 | new bytes and their checksum in an uncommitted block; every other block and entry as before |
| Volumes.Volume.BlockZero | src/fs/adytumfs_volume.c:74-86 | the block reads back as sealed zeroes through cache and device |
| Volumes.Volume.ExactPublication | src/fs/adytumfs_volume.c:461-512 | the set a commit will publish is the window's view if and only if the stage covers the difference of the two sets |
| Volumes.Volume.Unstaged | src/fs/adytumfs_volume.c:474-481 | for a block that is not staged the window shows the active copy and the commit publishes the other one |
| Volumes.Volume.LandAndFlush | src/fs/adytumfs_volume.c:474-488 | the staged images are in the inactive set, flushed, with the old generation mountable throughout; what a commit would publish never changes, even when landing stops half-way |
| Volumes.Volume.FlushFlip | src/fs/adytumfs_volume.c:500-508 | every device state of the flip is old or new whole; a failed flip is dropped from the cache and leaves only states FlipExact speaks of |
| Volumes.Volume.Commit | src/fs/adytumfs_volume.c:461-512 | at every sector write the device mounts as the old generation whole or the new one whole; on success the sets trade places and the staged images are published; no data or checksum entry ever changes; a failure keeps the window and what it would publish, and the volume is durable if and only if the flip slot did not store the new checksum or no first sector of the flip landed |
| Extents.InodeMap | src/fs/adytumfs_inode.c:142-158 | maps exactly the flattened extent list |
| Extents.ExtentReroute | src/fs/adytumfs_inode.c:238-308 | moves exactly one logical block, keeps length and packing; fails, changing nothing, exactly when unmapped or out of slots |
| Extents.Compact | src/fs/adytumfs_inode.c:283-294 | merging adjacent extents keeps the mapping |
| Extents.AppendRun | src/fs/adytumfs_inode.c:169-191 | the new run joins the end of the mapping, or all ten slots are taken |
| Extents.CutAllFlat | src/fs/adytumfs_inode.c:203-232 | cutting extents keeps exactly the first blocks of the mapping |
| Inodes.UnpackPackInode | src/fs/adytumfs_inode.c:5-62 | every inode survives its slot |
| Inodes.InodePut | src/fs/adytumfs_inode.c:81-95 | writing one slot changes that inode and no other of the table |
| InodeOps.ReadInode | src/fs/adytumfs_inode.c:69-79 | the inode of the window's table; fails only for a bad number, a broken slot or a device error |
| InodeOps.WriteInode | src/fs/adytumfs_inode.c:81-95 | the window's table changes at that slot alone; cannot fail once the block is staged |
| InodeOps.AllocInode | src/fs/adytumfs_inode.c:97-128 | the first free slot becomes a newborn inode of the next generation; fails, changing nothing, only for a zero mode, no reachable free slot, a full pool or a device error |
| InodeOps.FreeInode | src/fs/adytumfs_inode.c:130-140 | the slot loses its mode and keeps its body; the counter follows |
| InodeOps.GrowRun | src/fs/adytumfs_inode.c:160-191 | allocation and mapping grow together; without a slot the run goes back and nothing changed; fails only without such a run, with all slots taken, or for lack of resources |
| InodeOps.GrowInode | src/fs/adytumfs_inode.c:160-201 | new blocks join the file and read as sealed zeroes, no other block changes; fails only without a free run or extent slot, on a full pool or a device error |
| InodeOps.GrownAgrees | src/fs/adytumfs_inode.c:160-201 | growing keeps the three records in agreement |
| InodeOps.TruncateInode | src/fs/adytumfs_inode.c:203-232 | exactly the blocks past the new end are released |
| InodeOps.TruncatedAgrees | src/fs/adytumfs_inode.c:203-232 | truncating keeps the three records in agreement |
| InodeOps.RedirectStage | src/fs/adytumfs_inode.c:310-319 | names the old block and reserves a block free in both generations; a mapped block is refused only when none is free |
| InodeOps.RedirectCommit | src/fs/adytumfs_inode.c:321-342 | the mapping and the table move before the old block is released; otherwise the new block goes back; refused only when the extent would split too far |
| InodeOps.RemapInode | src/fs/adytumfs_inode.c:344-359 | one logical block moves off the committed generation with the new bytes, every other block keeps its bytes; device errors and a full pool aside it succeeds if and only if some data block is free and the split fits the slots; failures roll back |
| InodeOps.MovedAgrees | src/fs/adytumfs_inode.c:344-359 | moving a block keeps the three records in agreement |
| Views.Reown | src/fs/adytumfs_verify.c:115-141 | trading a file's blocks while the bitmap follows keeps all three records in agreement |
| Views.SoundBlocks | src/fs/adytumfs_verify.c:115-134 | under agreement a file's blocks are distinct allocated data blocks |
| Views.ClaimsApart | src/fs/adytumfs_verify.c:122-130 | under agreement no block belongs to two inodes |
| Views.BirthViews | src/fs/adytumfs_inode.c:97-128 | allocating an inode keeps the agreement, free counter included |
| Views.DeathViews | src/fs/adytumfs_inode.c:130-140 | freeing an inode without blocks keeps the agreement, free counter included |
| Audits.ClaimInode | src/fs/adytumfs_verify.c:64-96 | accepts a used inode exactly when its kind, packing, span and block count are right, and records its extents |
| Audits.CollectClaims | src/fs/adytumfs_verify.c:57-100 | the ledger is every claim of every used inode and the free count is exact |
| Audits.VerifyBit | src/fs/adytumfs_verify.c:31-44 | the committed bit, through the one bitmap block kept at hand |
| Audits.CountBitmap | src/fs/adytumfs_verify.c:104-114 | all metadata bits are set and the allocated data blocks are counted |
| Audits.Disjoint | src/fs/adytumfs_verify.c:124-130 | no two claims overlap |
| Audits.Pigeonhole | src/fs/adytumfs_verify.c:115-134 | disjoint claims on allocated blocks with the same total are exactly the allocated blocks |
| Audits.Converse | src/fs/adytumfs_verify.c:115-134 | claims that are the allocated blocks pass every check |
| Audits.Verify | src/fs/adytumfs_verify.c:46-142 | accepts only volumes whose three records agree, and without device errors every such volume |
| Audits.OpenWindowAudits | src/fs/adytumfs_volume.c:404-459 | between commits every crash leaves a device that mounts, can be opened and passes the audit |
| Audits.WindowAudits | src/fs/adytumfs_volume.c:461-512 | where the stage covers the difference of the sets, the published set passes the audit if and only if the window would |
| Audits.KindlessRejected | src/fs/adytumfs_verify.c:64-68 | an inode of no single kind makes the audit reject the covering commit |
| Audits.PlainBitsKindless | src/fs/adytumfs_verify.c:64-68 | permission bits alone name no kind |
| Audits.OtherBitsDisagree | src/fs/adytumfs_verify.c:115-134 | a table that agrees with one set of allocated data blocks agrees with no other |
| Audits.UncoveredRejected | src/fs/adytumfs_volume.c:461-512 | a commit whose sets differ in the bit of a data block that is not staged, the table being covered, publishes a generation the audit rejects |
| Audits.CrashAudits | src/fs/adytumfs_super.c:138-172 | both outcomes of a crash during a commit mount, can be opened and pass the audit |
| Audits.CommitAudited | src/fs/adytumfs_volume.c:461-512 | committing an acceptable, covering window: at every sector write a crash leaves a volume that mounts, can be opened and passes the audit; a success leaves the next window ready for the same, and a failure that leaves the volume valid can be retried under the same conditions |
| Audits.Reopen | src/fs/adytumfs_super.c:138-172 | any such crash state, behind an empty cache, opens as a valid volume in agreement with nothing staged |
| Files.ReadPiece | src/fs/adytumfs_file.c:22-35 | one piece of the stored bytes, through the checksum |
| Files.FileRead | src/fs/adytumfs_file.c:7-38 | the stored bytes from the offset, clamped to the size; names every reason to fail |
| Files.WriteMoved | src/fs/adytumfs_file.c:79-82 | a block the file had is rewritten in a fresh place, the records stay in agreement and the data sealed; refused only when the block cannot be redirected |
| Files.WriteInPlace | src/fs/adytumfs_file.c:83-86 | a block the write added is filled where it is |
| Files.GrowForWrite | src/fs/adytumfs_file.c:58-60 | the file gains zero blocks outside the committed generation; refused only without room for the run |
| Files.WriteChunk | src/fs/adytumfs_file.c:65-87 | one turn splices its bytes into the stored bytes; on sealed data it stops only at a block that cannot be redirected or when a resource runs out |
| Files.FillChunks | src/fs/adytumfs_file.c:62-88 | the loop splices all bytes at the offset, with the same reasons to stop |
| Files.FileWrite | src/fs/adytumfs_file.c:40-99 | the stored bytes become the old ones, zero-extended, with the new bytes at the offset; records agree, data stay sealed, every other inode keeps its bytes; names every reason to fail |
| Files.WriteIsOverlay | src/fs/adytumfs_file.c:40-99 | readers see the overlay if and only if no stale byte lies between old size and offset |
| Files.WriteKeepsSlack | src/fs/adytumfs_file.c:40-99 | zero slack is an invariant of writing |
| Files.ReadAfterWrite | src/fs/adytumfs_file.c:7-99 | any window read after a write is that window of the overlay |
| Files.OtherFilesKept | src/fs/adytumfs_file.c:79-86 | where only free blocks and those of one slot are written, every other used inode keeps its bytes and stays readable |
| Files.SealedReadable | src/fs/adytumfs_volume.c:60-65 | in agreeing, sealed state every used inode can be read |
| DirRecords.Place | src/fs/adytumfs_dir.c:25-55 | one entry is inserted and the records still tile the block; a tiled block refuses if and only if no free record is long enough, and then nothing changed |
| DirRecords.PlacedStretch | src/fs/adytumfs_dir.c:34-50 | the free record's stretch holds exactly the new entry and a valid leftover; nothing outside it changed |
| DirRecords.FindName | src/fs/adytumfs_dir.c:69-84 | the first live record of the name, or there is none |
| DirRecords.TombstoneBlock | src/fs/adytumfs_dir.c:158-159 | a zero inode number removes that entry and no other |
| Directories.BindInsert | src/fs/adytumfs_dir.c:89-133 | inserting an absent name adds that binding and no other |
| Directories.BindAgain | src/fs/adytumfs_dir.c:89-133 | inserting an entry anywhere either binds its name, or changes nothing because an earlier entry of the name counts |
| Directories.AddedTwice | src/fs/adytumfs_dir.c:95-98 | inserting a name that is present makes the directory stop being a map |
| Directories.BindRemove | src/fs/adytumfs_dir.c:135-168 | removing an entry removes that binding and no other |
| Directories.AddEntry | src/fs/adytumfs_dir.c:103-132 | the entry joins the list in a block with room, or in a new block if and only if none has room |
| Directories.DirLookup | src/fs/adytumfs_dir.c:57-87 | answers exactly the directory's map |
| Directories.DirAdd | src/fs/adytumfs_dir.c:89-133 | a present name is refused and nothing changes unless the device fails; a success keeps the directory a map if and only if the name was absent, and then adds that binding alone; no allocated block is written, the records agree, and the directory gains a block if and only if no block had room; failures roll back and have a named reason |
| Directories.DirRemove | src/fs/adytumfs_dir.c:135-168 | the binding goes and no other; no allocated block is written; a missing name leaves everything alone; a bound name stays only if its block cannot be redirected or a resource ran out |
| Directories.RoomEnough | src/fs/adytumfs_inode.c:234-271 | two free extent slots and one free block are enough for any insertion or removal |
| Directories.DirIter | src/fs/adytumfs_dir.c:170-211 | hands out the next live entry and moves the cursor just past it, or says there is none |
| Directories.DirList | src/fs/adytumfs_dir.c:170-211 | iterating from cursor 0 ends and yields every live entry exactly once |
| Ops.CreateAt | src/fs/adytumfs_ops.c:28-51 | binds the name to a new inode, moves the parent as a directory and changes no other slot; no allocated block is written, so every inode there was keeps its bytes and every other directory its map; the parent stays a map if and only if the name was absent, and the window stays acceptable to the audit if and only if the mode names one kind; sealed data and a well-formed tree stay so; a refused name gives the inode back and keeps all of it; each refusal has a named reason |
| Ops.NameOrFree | src/fs/adytumfs_ops.c:39-50 | the newborn is named, with the same if-and-only-if on the parent map, or freed again with everything else as before; no allocated block is written |
| Ops.NoSlotCounted | src/fs/adytumfs_inode.c:97-128 | in an agreeing table there is no slot to allocate if and only if the free counter is zero |
| Ops.Undone | src/fs/adytumfs_ops.c:44-48 | the rollback of a create restores the agreement and every file |
| Ops.UnlinkAt | src/fs/adytumfs_ops.c:53-71 | removes the binding, frees the inode and exactly its blocks, moves the parent as a directory and changes no other slot; every other inode keeps its bytes; the audit's acceptance, sealed data and a well-formed tree are kept; a bound file stays only without room to rewrite the directory or for lack of resources; says what each failure leaves |
| Ops.KindDecides | src/fs/adytumfs_verify.c:64-68 | when one slot may have a new kind, the audit turns on that slot alone |
| Ops.TreeKept | src/fs/adytumfs_ops.c:28-71 | rewriting one directory keeps the tree well-formed when that directory is |
| Ops.KeptReads | src/fs/adytumfs_ops.c:28-71 | a kept inode stores the same bytes and, as a directory, is the same map |
| Ops.EmptyOrBroken | src/fs/adytumfs_ops.c:67-69 | after the release alone the records agree if and only if there was nothing to release |
| Ops.PathResolve | src/fs/adytumfs_ops.c:3-26 | succeeds exactly when the path is absolute, its names are short enough and the walk through the directory maps from the root succeeds, device errors aside |
| Sessions.FormattedHealthy | src/fs/adytumfs_volume.c:88-210 | a volume opened on a formatted device is healthy and rooted |
| Sessions.Perform | src/fs/adytumfs_ops.c:28-71 | any successful create of one kind, unlink or write keeps a healthy window healthy |
| Sessions.RunWindow | src/fs/adytumfs_ops.c:28-71 | so does any run of them; every crash meanwhile leaves a device that mounts, passes the audit and has every file of the committed generation |
| Sessions.WindowCarries | src/fs/adytumfs_super.c:138-172 | between commits every device state has all files, directories and seals of the committed generation |
| Sessions.CrashCarries | src/fs/adytumfs_volume.c:461-512 | every device state of a commit has all files, directories and seals of the old generation or all of the window |
| Sessions.CommitWindow | src/fs/adytumfs_volume.c:461-512 | committing a healthy, covering window: such states only; success leaves a healthy, rooted volume with the window's files, and a failure that leaves it valid can be retried |
| Sessions.Recover | src/fs/adytumfs_super.c:138-172 | mounting after a crash gives a healthy, rooted volume with the files and directories the device carries |
| Mounts.TailWraps | src/fs/adytumfs_volume.c:107-111 | the tail subtraction wraps exactly below three blocks and only zero blocks are caught |
| Mounts.SolveRegion | src/fs/adytumfs_volume.c:117-122 | ends with the smallest checksum region that covers the blocks it leaves |
| Mounts.NewSuperValid | src/fs/adytumfs_volume.c:93-158 | a solved layout passes the structural check |
| Mounts.FillBitmap | src/fs/adytumfs_volume.c:169-175 | marks exactly the reserved blocks |
| Mounts.NewMountable | src/fs/adytumfs_volume.c:165-200 | the formatted set passes the audit |
| Mounts.Make | src/fs/adytumfs_volume.c:88-210 | a formatted device is flushed, picked as slot 0, has twin sets and passes the audit; without device errors it fails only for lack of room |
| Mounts.FormattedReady | src/fs/adytumfs_volume.c:88-210 | a formatted device can be opened as a volume |
| Klocks.RunsKeep | src/core/klock.c:70-97 | every state a disciplined run reaches without a panic keeps the lock invariant |
| Klocks.DepthBound | src/core/klock.c:70-87 | held levels rise strictly, so depth never exceeds fourteen and the depth check adds nothing to the order check |
| Klocks.Outstanding | src/core/spinlock.h:17-25 | never more tickets are out than there are CPUs |
| Klocks.SpinExact | src/core/spinlock.h:17-21 | the 32-bit comparison ends a spin at the CPU's own turn and no other |
| Klocks.EntersFree | src/core/spinlock.h:17-21 | a CPU whose turn it is finds the lock without a holder |
| Klocks.MutualExclusion | src/core/spinlock.h:17-25 | a lock has at most one holder |
| Klocks.NoOvertaking | src/core/spinlock.h:17-21 | a later ticket cannot enter while an earlier one spins |
| Klocks.NoCircularWait | src/core/klock.c:38-40 | no chain of waiting CPUs closes into a cycle |
| Klocks.Progress | src/core/klock.c:70-87 | while a CPU spins, some spinner can enter or some holder is running |
| Klocks.ReleaseExact | src/core/klock.c:89-97 | a release the code lets through keeps the invariant if and only if it names the lock taken last |
| Klocks.SharedLevel | src/core/klock.c:89-97 | with two locks of one level a wrong release lets two CPUs hold one lock |
| DriverManagers.Visit | src/driver/driver_manager.c:105-119 | the search from one slot ends; it fails only on a cycle, else the slot and all it reaches are settled |
| DriverManagers.DependencyCycle | src/driver/driver_manager.c:121-133 | reports a cycle if and only if the active manifests have one |
| DriverManagers.Manager.Register | src/driver/driver_manager.c:238-274 | the first free slot takes the manifest unless it is invalid, its name taken, the table full or a cycle would close, and then nothing changes; afterwards the managed devices are swept and, if undisturbed, none of them can still be started |
| DriverManagers.Manager.Unregister | src/driver/driver_manager.c:285-303 | succeeds if and only if the manifest is registered, unbound and no other manifest depends on it; the graph stays acyclic |
| DriverManagers.DependenciesReady | src/driver/driver_manager.c:423-440 | true if and only if every dependency is registered and bound to a running domain |
| DriverManagers.Select | src/driver/driver_manager.c:442-454 | the first in priority order among the untried manifests that suit the device and whose dependencies run |
| DriverManagers.Manager.TryManifest | src/driver/driver_manager.c:474-495 | one manifest: undisturbed, its domain is created and comes up, or nothing but perhaps a quarantined domain is left |
| DriverManagers.Manager.FindManifest | src/driver/driver_manager.c:468-496 | the search over all manifests ends with the best that comes up, or none does |
| DriverManagers.Manager.StartDevice | src/driver/driver_manager.c:456-505 | undisturbed, trying manifests one after another binds the device, in the first free binding, to the best of those that would come up, with one new running domain; starts if and only if the device is free, a binding and a domain entry are left and one would; disturbed or not, a device held by a quarantined domain is refused |
| DriverManagers.Manager.StartAll | src/driver/driver_manager.c:515-529 | the sweeps end; bindings are only added, one per start, for listed devices; undisturbed, with running dependencies, and afterwards no listed device can be started |
| DriverManagers.Manager.StopDevice | src/driver/driver_manager.c:551-558 | exactly a bound device: its binding is disabled and its domain asked to stop when graceful, else stopped |
| DriverManagers.Manager.RestartDevice | src/driver/driver_manager.c:567-579 | stop, then start if the dependencies run; the binding ends enabled if and only if no call failed |
| DriverManagers.Manager.DropBinding | src/driver/driver_manager.c:143-153 | removal and destruction of the domain leave it gone or quarantined, never removed, and the binding free |
| DriverManagers.Manager.DeviceRemoved | src/driver/driver_manager.c:625-645 | the device loses its binding, its domain and its place in the managed list, every other device keeps its own; reports a failed removal |
| DriverManagers.Manager.DropMissing | src/driver/driver_manager.c:194-205 | exactly the bindings of unlisted devices are dropped, in order; reports whether a removal failed |
| DriverManagers.Manager.SetDevices | src/driver/driver_manager.c:174-216 | afterwards only listed devices are bound, those that were keep their bindings and, if undisturbed, no listed device can still be started |
| DriverManagers.Manager.TaskExiting | src/driver/driver_manager.c:588-596 | a clean exit disables exactly the bindings running as that task |
| DriverManagers.Manager.TickBindings | src/driver/driver_manager.c:604-617 | the turns follow each other over all bindings; no binding changes but by being disabled |
| DriverManagers.TurnSettles | src/driver/driver_manager.c:604-617 | after its turn a binding that is still enabled runs only while its dependencies run, and is stopped only while they do not |
| DriverManagers.Manager.ManagerAbsorbs | src/driver/driver_manager.c:143-645 | in every run of manager calls, interleaved with any other calls on domains but create and remove, a quarantined domain that nobody releases stays, alone on its device, and no domain of the device has a task |
| DriverManagers.CoherentExact | src/driver/driver_supervisor.c:1267-1305 | a call keeps every binding on an active domain of its device if and only if it frees no bound domain |
| DriverManagers.CoherentRun | src/driver/driver_supervisor.c:1267-1305 | over any run: in every state, if and only if no call does |
| DriverManagers.Manager.CoherentSince | src/driver/driver_manager.c:143-645 | for the manager's bindings, since any moment of the log |
| DriverManagers.LaunchCoheres | src/driver/driver_manager.c:498-503 | a started device joins the coherence |
| DriverManagers.RemovesOwn | src/driver/driver_manager.c:625-632 | then a removal takes away the device's own domain |
| DriverManagers.StaleBinding | src/driver/driver_manager.c:625-632 | a bound domain destroyed by other code and an entry reused: the binding names another device's domain |
| Supervisors.DiedOk | src/driver/driver_supervisor.c:1093-1168 | a task's death keeps the domain invariant |
| Supervisors.TickedOk | src/driver/driver_supervisor.c:1176-1209 | a tick keeps the domain invariant |
| Supervisors.RunBound | src/driver/driver_supervisor.c:120-150 | at most max_restarts + 1 relaunches by ticks, at most one fallback, capabilities within those given, a live pid exactly while running or stopping |
| Supervisors.RunsOk | src/driver/driver_supervisor.c:1093-1361 | the bounds hold in every state of every run of calls |
| Supervisors.OnePerDeviceExact | src/driver/driver_supervisor.c:391-398 | one domain per device is kept if and only if no call revives a removed domain whose device is taken |
| Supervisors.StaysQuarantined | src/driver/driver_supervisor.c:1217-1320 | no call but its administrator's release moves a quarantined domain |
| Supervisors.QuarantineAbsorbs | src/driver/driver_supervisor.c:1343-1361 | in a run that revives no removed domain on its device: until released, no domain of a quarantined device has a task and no other domain occupies it |
| Supervisors.SingleExact | src/driver/driver_supervisor.c:391-398 | one active domain per device is kept if and only if the call creates no domain on a device that an active, removed domain still has |
| Supervisors.OrderlyRespects | src/driver/driver_manager.c:143-153 | runs that never do so meet the hypothesis of QuarantineAbsorbs |
| Supervisors.OrderlyAbsorbs | src/driver/driver_supervisor.c:1343-1361 | so in such runs a quarantined domain stays until it is released, alone on a device without a task |
| Supervisors.Supervisor.QuarantineHolds | src/driver/driver_supervisor.c:1343-1361 | the same between any two moments of the supervisor's life |
| Supervisors.LiveBesideQuarantine | src/driver/driver_supervisor.c:1343-1361 | quarantining a removed domain leaves another domain of the device free to start a task |
| Supervisors.RemovedThenRecreated | src/driver/driver_supervisor.c:1246-1258 | that table is reached by removing a domain and creating another on its device |
| Supervisors.Supervisor.CreateDomain | src/driver/driver_supervisor.c:391-445 | refused exactly on an occupied device or a full table; ids are never zero; with no removed domain left, the table keeps one active domain per device |
| Supervisors.Supervisor.StartDomain | src/driver/driver_supervisor.c:838-850 | succeeds if and only if a stopped domain is running afterwards, which is when its task comes up |
| Supervisors.Supervisor.StopDomain | src/driver/driver_supervisor.c:1217-1237 | fails if and only if the domain is gone or ends quarantined |
| Supervisors.Supervisor.RemoveDomain | src/driver/driver_supervisor.c:1246-1258 | fails if and only if the domain is gone or ends quarantined |
| Supervisors.Supervisor.DestroyDomain | src/driver/driver_supervisor.c:1267-1305 | afterwards the domain is gone or quarantined and no removed domain is left |
| Supervisors.Supervisor.TaskDied | src/driver/driver_supervisor.c:1093-1168 | one pass settles every live domain of the task and no other |
| Supervisors.Supervisor.Tick | src/driver/driver_supervisor.c:1176-1209 | one pass handles every stop timeout and every due relaunch |
| Dns.EncodeName | src/net/dns_message.c:39-57 | succeeds exactly for names whose labels are legal and fit, and yields their wire form |
| Dns.DottedLabels | src/net/dns_message.c:39-57 | splitting and joining labels gives the name back, less a trailing dot |
| Dns.SkipName | src/net/dns_message.c:62-104 | ends on every message within bounds, with the text and the end of the name that ReadExactly gives meaning to |
| Dns.ReadWire | src/net/dns_message.c:62-104 | the wire form of labels reads back as those labels and stops behind them |
| Dns.ReadPointed | src/net/dns_message.c:62-104 | labels followed by a pointer back to a plain name read as the labels followed by that name, and end just past the pointer |
| Dns.ReadExactly | src/net/dns_message.c:62-104 | a text is read if and only if the bytes are a compressed form of it, through at most sixteen pointers each leading back, that fits |
| Dns.BuildQuery | src/net/dns_message.c:106-122 | the question message, exactly when the name is legal and fits |
| Dns.QuestionMatches | src/net/dns_message.c:124-137 | compares type, class and case-folded name of the question |
| Dns.QueryRoundTrip | src/net/dns_message.c:106-137 | a built question matches its name and type if and only if there is no trailing dot and the type fits |
| InternetChecksum.ScalarSum | src/net/checksum.h:47-63 | the unrolled loop is the reference word sum modulo 2^32, for every length |
| InternetChecksum.VectorSum | src/net/checksum.h:71-88 | the vector loop with its tail is the same sum, for every length |
| InternetChecksum.SadTotals | src/net/checksum.h:29-44 | the lanes give 256 times the even bytes plus the odd bytes, wrap-around included |
| InternetChecksum.FinishIsOnes | src/net/checksum.h:22-26 | two folds give the complement of the one's-complement sum |
| InternetChecksum.ComputeChecksum | src/net/ipv4.c:37-40 | the complement of the one's-complement sum of the 32-bit accumulator, which is the checksum up to 131074 bytes |
| InternetChecksum.ChecksumCancels | src/net/ipv4.c:37-40 | any data carrying its own checksum checks to zero |
| InternetChecksum.OneWordChange | src/net/ipv4.c:37-40 | replacing one word goes unnoticed if and only if it stays the same, 0x0000 becomes 0xFFFF, or 0xFFFF becomes 0x0000 beside non-zero data |
| Ipv4.BuildHeader | src/net/ipv4.c:225-244 | builds exactly for legal arguments |
| Ipv4.BuildParse | src/net/ipv4.c:42-75 | a built header before its payload is always accepted with every field recovered |

## Left out

- Volumes.Volume.constructor: volumes that fill their device, have at most 256 bitmap blocks (32 GiB; Staging.WideBit and Staging.WideFixed say what happens beyond) and whose other superblock slot has the zero padding the formatter and the commit write.
- Mounts.FormattedReady: at most 256 bitmap blocks.
- Superblocks.TornFlip: asks for that zero padding too.
- Superblocks.TornExactly: asks for that zero padding too.
- Superblocks.PickActive: a volume that fills its device, as the formatter makes it.
- Volumes.Volume.Commit: generation counters below 2^64 - 1, where the increment would wrap.
- Durability.FlipOutcome: generation counters below 2^64 - 1.
- Durability.CommitDurable: generation counters below 2^64 - 1.
- Durability.FlipExact: generation counters below 2^64 - 1.
- Durability.BegunAliased: generation counters below 2^64 - 1.
- Durability.FlipVerdict: generation counters below 2^64 - 1.
- Volumes.Volume.DataRead: asks for a block inside the volume; the code casts a larger number to a 32-bit sector address.
- Volumes.Volume.DataWrite: asks that the block is outside the committed generation, which the code does not check; every caller modelled here establishes it.
- Volumes.Volume.DataSeal: asks that a data block is outside the committed generation, like DataWrite.
- Volumes.Volume.BlockZero: asks that the block is a data block outside the committed generation, like DataWrite.
- BlockCache.Storage.Read: asks that the sector range ends below 2^32, where the sum in the bounds check would wrap.
- BlockCache.Storage.Write: asks that the sector range ends below 2^32, where the sum in the bounds check would wrap.
- BlockCache.Storage.Invalidate: asks that the range ends below the last page of the 32-bit address space, where the page counter of the loop would wrap and never stop.
- Mounts.Make: devices of one or two blocks, where the wrapped tail passes the guard and the region search runs over a span of nearly 2^64 blocks.
- Audits.CommitAudited: asks that the stage covers the difference of the two sets; Audits.UncoveredRejected says what happens otherwise.
- Extents.ExtentReroute: asks for extents whose mapping stays inside 32-bit bounds, as sound inodes have.
- Extents.Compact: asks for mappings below 2^32 blocks.
- Extents.AppendRun: asks for a packed extent list, as sound inodes have.
- InodeOps.GrowInode: asks for an inode whose extents are packed, inside the data region and counted right, as the mount audit ensures.
- InodeOps.GrowRun: asks for an inode that is sound in that sense.
- InodeOps.TruncateInode: asks for an inode that is sound in that sense.
- InodeOps.RedirectCommit: asks for an inode that is sound in that sense.
- InodeOps.RemapInode: asks for an inode that is sound in that sense.
- Files.ReadPiece: asks that the used inodes of the table are sound in that sense.
- Files.FileRead: asks that the used inodes of the table are sound in that sense.
- Files.FileWrite: asks for agreeing records; a failed write promises only that no committed block and no other file was touched, and its reason; blocks it had already grown or redirected stay in the window. The reasons are stated for sealed data.
- Directories.DirLookup: asks that the used inodes of the table are sound in that sense.
- Directories.DirIter: asks that the used inodes of the table are sound in that sense; a cursor whose header would cross the end of its block is refused, where the code reads past its buffer.
- Directories.DirList: asks that the used inodes of the table are sound in that sense.
- Directories.DirAdd: asks for agreeing records, as the mount audit ensures and every operation keeps.
- Directories.DirRemove: asks for agreeing records.
- DirRecords.FindName: a live record whose name would cross the end of its block matches nothing; the code reads past its buffer there.
- Ops.CreateAt: asks for agreeing records.
- Ops.UnlinkAt: asks for agreeing records and, where the parent is a directory, that this is its only kind, as the mount audit ensures.
- Sessions.RunWindow: speaks of the window only as long as every request succeeds; what a failed one leaves is in CreateAt, UnlinkAt and FileWrite.
- Sessions.CommitWindow: asks that the stage covers the difference of the two sets, and for generation counters below 2^64 - 1.
- Ops.PathResolve: asks for tiled and readable directories.
- DriverManagers.Manager.StartDevice: what the search finds is stated for a call nothing else disturbs; the readiness of all manifests is read at one moment of each turn; matching, domain setup and object references are answers handed in, and names are compared as strings.
- DriverManagers.Manager.TryManifest: what an attempt does is stated for a call nothing else disturbs.
- DriverManagers.Manager.FindManifest: which manifest is chosen is stated for a call nothing else disturbs.
- DriverManagers.Manager.StopDevice: the return code of the stop is not modelled.
- DriverManagers.Manager.Register: manifest validation is an answer handed in.
- DriverManagers.Manager.SetDevices: starts where the new list has been checked and retained.
- DriverManagers.Manager.ManagerAbsorbs: the rest of the kernel may call anything on domains except create and remove, which besides the manager only the multiprocessor stress of src/arch/x86_64/cpu/smp64.c calls.
- Supervisors.Supervisor.RemoveDomain: asks for a table without a removed domain, as the manager keeps it; Supervisors.OnePerDeviceExact covers all tables.
- Supervisors.Supervisor.DestroyDomain: asks for a table without another removed domain, as the manager keeps it.
- Supervisors.Supervisor.CreateDomain: asks for a table without a removed domain, as the manager keeps it; an inactive device, a bad name and a failed retain, which also refuse, are answers handed in above it.
- Supervisors.Supervisor.TaskDied: vector, error, rip and address of a crash are one value, audit records, decisions and terminal reasons are not kept, and every backend call is an answer handed in.
- Supervisors.Supervisor.Tick: decisions and terminal reasons are not kept, and every backend call is an answer handed in.
- Klocks.RunsKeep: interrupt flags and the acquire statistics are not kept.
- Dns.SkipName: the variant without a text buffer and the reply parser above it.
- The page cache, scatter-gather transfers, timestamps beyond arbitrary values, permissions and hard links of src/fs/adytumfs.c.
- src/fs/vfs.c, block transports, TCP, sockets, ARP, ICMP, NDP and UDP: their core lies in code that is not part of this model, or in table copying.
- The CRC32C instruction, vector instructions and atomics as machine operations: only their arithmetic is modelled.
- Resource requests, handles, bridges and recovery configuration checks of the driver layer: validation and bookkeeping around the modelled state machine.
