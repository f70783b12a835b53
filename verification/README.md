# NeuralFS, modelled and proved

NeuralFS is a copy-on-write file system with a learning file finder. This project models its engine, its
caches, its finder and its in-memory Windows volume, and proves the guarantees they are built for.
`dafny verify dfyconfig.toml` checks everything.

## What is modelled

**The engine** (`bytes`, `block_store`, `inodes`, `metadata`, `volume`, `marking`, `filesystem`). Directories are
immutable inodes under ever-growing ids; a write copies the directory chain to the root and swaps one root
pointer; snapshots are saved root pointers; file bytes are inline in the inode or cut into 64 KiB blocks in an
append-only, content-addressed log with an index. `block_store.dfy` and `filesystem.dfy` hold the classes whose
methods update the log, the index, the superblock, the inode table and the caches in place. Each method is tied
to a function on values, and the guarantees are proved about those functions:
path by path for every operation (`metadata.dfy`), in terms of what a path shows (`volume.dfy`), and over whole
runs. A lookup is shown to agree with a plain tree of paths and bytes, which is never built; "what `p` shows" is
`Volumes.Live(v, p)` for the live tree and `Volumes.View(v, root, p)` for a snapshot.

**The engine under concurrent requests** (`gate`, `file_read`, `crash`). A state machine whose steps are those of the daemon's
requests: a write stores its blocks in up to four steps each and commits, all while holding the collection gate
for reading; a collection holds it for writing; directory, rename, snapshot and rollback requests and block
reads, in five steps, take no gate; and the process may restart. Every step keeps the invariant `Gate.Safe` and what every
path shows under the roots there were. `file_read.dfy` adds reads of whole files, which take the root, walk down the
path inode by inode and fetch one block after another, with other requests between any two steps. `crash.dfy` says
what a crash in the one window a restart may not fall into leaves readable.

**The caches** (`ram_cache`, `path_cache`). The segmented LRU over block data, and the sliding-TTL cache of query
results with its background sweep.

**The finder** (`ranking`, `vectors`, `classifier`, `store`, `search`). Softmax training and the online update in
exact reals over an abstract exponential; the index with its two prefix-encoded secondary trees; and the lookup:
exact name, predicted directories with backtracking, full scan.

**The Windows volume** (`winfsp.dfy`). The flat map from full paths to nodes: create, cleanup, prefix rename.

## Assumptions

- The digest function has no collisions. This is stated once, as the type `Digests.Hasher`.
- The exponential is positive everywhere and one at zero (`Classifiers.Exponential`). Comparing probabilities,
  and nothing else, also uses that it is increasing and turns differences into quotients
  (`Classifiers.IsExponential`, a precondition where it is needed).
- In the finder's index, paths that occur in a run do not collide under the path hash, and a path always comes
  with the same file name, as the indexer derives it (`Stores.WellNamed`). Paths, names and queries contain no NUL.
- Disk effects persist in program order, and a log rename or an index batch is atomic.

## Where the code and its documentation or its users' expectations part

- `rename` onto itself or into its own subtree deletes the subtree (`Metadata.RenameIntoItselfRemoves`). Onto one of
  its own ancestors it replaces the ancestor by the subtree, less that subtree's own entry at the remaining path
  (`Metadata.RenameOntoAncestorReplaces`). `Metadata.RenameMovesIff` says exactly when a rename moves.
- `mkdir` on an existing directory empties it (`Volumes.MkdirShows` holds whatever was there before).
- A crash between a compaction's log swap and its index batch never yields wrong bytes, as documented, but it can
  make live blocks unreadable. `CompactionCrashes.TornShortReadIff` says for which blocks the new log is too short, and
  `CompactionCrashes.TornReadIff` exactly which blocks still read, given the old disk, the live set and the copying
  order. Whenever garbage lies ahead of a live block, the live block stored last is lost, unless it is empty
  (`CompactionCrashes.LastLiveBlockLost`); when the live blocks are the first ones stored and are copied in that order,
  none is (`CompactionCrashes.LiveInFrontSurvive`).
- Upserting an indexed path under another name leaves the old name link in place, so the name index disagrees
  with the entries from then on: `Stores.UpsertConsistentIff`.
- On the Windows volume, the outcome of a rename depends on the order in which the loop visits a hash map's keys
  exactly when some key that moves moves onto another key that moves (`WinVolumes.OrderIrrelevantIff`), as when a
  directory is renamed below itself onto the name of a child (`WinVolumes.OverlapDependsOnOrder`). Renaming onto an
  occupied directory merges the two. The tree can lose its shape: `WinVolumes.LoopClosedIff` says exactly when it
  stays closed in every order. That the re-keyed map would be closed (`WinVolumes.RenameClosedIff`) is not enough when
  a subtree goes up onto a directory above it (`WinVolumes.FittingIsNotEnough`).
- The lookup's final de-duplication never removes anything: `Searches.RankingAnswers`.
- The floor under softmax's normalizing sum never applies: `Classifiers.FloorNeverFires`.
- The protected branch of the segmented LRU's total-cap loop is never reached: `RamCaches.TrimSparesProtected`.

## Model

| member | source | states |
|---|---|---|
| BlockLogs.DecEnc | crates/neuralfs-fs/src/blockstore.rs:304-317 | Every 64-bit offset and 32-bit length survives the 12-byte index encoding. |
| BlockLogs.EncDec | crates/neuralfs-fs/src/blockstore.rs:304-317 | The decoding is injective: re-encoding a decoded value gives it back. |
| BlockLogs.EncLayout | crates/neuralfs-fs/src/blockstore.rs:304-309 | Byte by byte, the value is eight bytes of offset and then four of length, each least significant first. |
| BlockLogs.StoredContents | crates/neuralfs-fs/src/blockstore.rs:77-97 | Storing keeps the disk sound, makes the bytes readable under their address, and changes no other block, also on a duplicate. |
| BlockLogs.NeverWrongBytes | crates/neuralfs-fs/src/blockstore.rs:101-126 | On any disk, damaged or not, a successful read of an address yields the bytes that were stored under it. |
| BlockLogs.TiledDisjoint | crates/neuralfs-fs/src/blockstore.rs:82-90 | Records of different blocks, 4-byte headers included, never overlap. |
| BlockLogs.TiledLogHasNoGaps | crates/neuralfs-fs/src/blockstore.rs:222-251 | A log tiled by its records is exactly as long as its data plus one header per block. |
| BlockLogs.CompactedContents | crates/neuralfs-fs/src/blockstore.rs:232-284 | A compaction leaves a sound disk holding exactly the live blocks, byte for byte. |
| BlockStores.BlockStore.Put | crates/neuralfs-fs/src/blockstore.rs:77-97 | Returns the address; the disk is the old one with the block stored once; the cache gains nothing else; soundness is kept, and so is tiling where it held. |
| BlockStores.BlockStore.Get | crates/neuralfs-fs/src/blockstore.rs:101-126 | Answers from the cache or by a verified read; never other bytes; on an undamaged disk the same as an uncached read, so caching and eviction are invisible. |
| BlockStores.BlockStore.PhysicalBytes | crates/neuralfs-fs/src/blockstore.rs:138-146 | The sum of the indexed lengths, in whatever order the index is iterated. |
| BlockStores.BlockStore.Scrub | crates/neuralfs-fs/src/blockstore.rs:150-178 | Checks every block once and reports exactly the blocks a read would refuse, on any disk. |
| BlockStores.BlockStore.Compact | crates/neuralfs-fs/src/blockstore.rs:202-294 | For any live set: fails, changing nothing, iff a live record is unreadable; else the index is old index ∩ live, every kept block reads the same bytes, the records tile the new log, the report is exact, and exactly the dropped blocks leave the cache. |
| BlockStores.BlockStore.CopyLive | crates/neuralfs-fs/src/blockstore.rs:228-252 | The copying pass: the side log, its index, the dropped keys and the statistics are right, or some live record is damaged. |
| BlockStores.BlockStore.Install | crates/neuralfs-fs/src/blockstore.rs:254-292 | After the swap, the batch and the evictions the disk is the new log with the batched index. |
| BlockStores.CompactionExists | crates/neuralfs-fs/src/blockstore.rs:222-252 | As long as no live record is damaged, there is a compacted log for any live set. |
| RamCaches.GetKeepsEverything | crates/neuralfs-fs/src/cache.rs:73-94 | A lookup answers the resident value, evicts nothing, makes that entry the last to go, and keeps both budgets. |
| RamCaches.HitIsProtected | crates/neuralfs-fs/src/cache.rs:73-94 | A value that is read becomes the last protected one, unless it alone exceeds the protected budget; then it is not protected. |
| RamCaches.ReadValueSurvives | crates/neuralfs-fs/src/cache.rs:73-104 | A value that was read once is still answered after any stream of inserts under other keys, however long. |
| RamCaches.InsertEvictsOnlyProbation | crates/neuralfs-fs/src/cache.rs:98-104 | An insert evicts exactly the shortest LRU prefix of probation that makes the newcomer fit, and no protected entry of another key. |
| RamCaches.InsertedIsResident | crates/neuralfs-fs/src/cache.rs:98-104 | A newcomer is resident after its insert iff it fits beside what is protected. |
| RamCaches.InvalidateRemovesExactly | crates/neuralfs-fs/src/cache.rs:106-113 | Invalidation removes that key and nothing else, and keeps order and budgets. |
| RamCaches.TrimSparesProtected | crates/neuralfs-fs/src/cache.rs:156-168 | As long as protected fits on its own, trimming to the cap never reaches it. |
| RamCaches.DemotedKeepsOrder | crates/neuralfs-fs/src/cache.rs:141-153 | Demotion keeps the residents and the eviction order and brings protected under its cap. |
| RamCaches.BudgetsHoldForever | crates/neuralfs-fs/src/cache.rs:55-113 | After any run of calls no key is resident twice, and protected and total bytes are within their caps. |
| RamCaches.FreshCaps | crates/neuralfs-fs/src/cache.rs:55-68 | Four fifths of the capacity, in steps of eight bytes and at least one, may be protected. |
| RamCaches.HotEntrySurvivesColdStream | crates/neuralfs-fs/src/cache.rs:98-104 | No stream of inserts under other keys, however long, removes a protected value. |
| RamCaches.RamCache.constructor | crates/neuralfs-fs/src/cache.rs:55-68 | An empty cache with the caps the capacity determines, at least one byte each. |
| RamCaches.RamCache.Get | crates/neuralfs-fs/src/cache.rs:73-94 | The lookup on the two linked maps and counters does what `Got` says; byte counters stay the sums of resident lengths. |
| RamCaches.RamCache.Insert | crates/neuralfs-fs/src/cache.rs:98-104 | The insert does what `Inserted` says; byte counters stay exact. |
| RamCaches.RamCache.Invalidate | crates/neuralfs-fs/src/cache.rs:106-113 | The invalidation does what `Invalidated` says; byte counters stay exact. |
| RamCaches.RamCache.EnforceProtectedCap | crates/neuralfs-fs/src/cache.rs:141-153 | The loop terminates by entry count, also with empty values, and demotes the least LRU prefix that makes protected fit. |
| RamCaches.RamCache.EnforceTotalCap | crates/neuralfs-fs/src/cache.rs:156-168 | The loop terminates by entry count and evicts the least LRU prefix that makes everything fit. |
| Paths.SplitJoin | crates/neuralfs-fs/src/fs.rs:562-566 | Every list of separator-free non-empty names is what some path splits into. |
| Paths.ComponentsAreNames | crates/neuralfs-fs/src/fs.rs:562-566 | Splitting yields only non-empty separator-free names. |
| Paths.SplitAtSeparator | crates/neuralfs-fs/src/fs.rs:562-566 | A slash or a backslash anywhere separates what is before it from what is behind it, and adds nothing of its own: leading, trailing and repeated ones included. |
| Paths.SplitName | crates/neuralfs-fs/src/fs.rs:562-566 | Text without slash or backslash is one component, and the empty text none. |
| Inodes.ResolveBound | crates/neuralfs-fs/src/fs.rs:418-432 | Ids fall along every lookup: ids are a topological order. |
| Inodes.ResolveStep | crates/neuralfs-fs/src/fs.rs:418-432 | A path leads one name further iff that name is an entry of the directory it leads to, and then to that entry. |
| Inodes.ResolveFails | crates/neuralfs-fs/src/fs.rs:418-432 | A lookup fails iff on its way an entry is missing, a file is in the way, or an id dangles, and with that error. |
| Inodes.ResolveFrozen | crates/neuralfs-fs/src/fs.rs:474-487 | What is reachable from an id in use never changes, whatever is added above. |
| Inodes.RebuildKeeps | crates/neuralfs-fs/src/fs.rs:437-487 | A rebuild, successful or not, only adds directories at fresh ids; a new root is the last of them. |
| Inodes.RebuildResolves | crates/neuralfs-fs/src/fs.rs:437-487 | In a rebuilt tree every lookup at or below the path ends in the leaf, every strict prefix is a new directory, and every other lookup ends where it ended. |
| Inodes.RebuildOutcome | crates/neuralfs-fs/src/fs.rs:444-460 | Exactly when a rebuild fails, and with which error. |
| Inodes.RebuildTreeShaped | crates/neuralfs-fs/src/fs.rs:437-487 | Splicing in a fresh childless inode, or cutting one out, leaves a tree: no id on two paths. |
| Inodes.ReachIff | crates/neuralfs-fs/src/fs.rs:489-498 | An id is reached by the walk iff some path resolves to it. |
| Metadata.PlaceResolves | crates/neuralfs-fs/src/fs.rs:119-132 | Write and mkdir change one path: the new inode is there with nothing below, prefixes are directories, every other path resolves as before. |
| Metadata.PlaceOutcome | crates/neuralfs-fs/src/fs.rs:131-132 | Placing fails iff the path runs through a file. |
| Metadata.RemoveResolves | crates/neuralfs-fs/src/fs.rs:193-201 | A removal takes away exactly the subtree at its path. |
| Metadata.RemoveOutcome | crates/neuralfs-fs/src/fs.rs:193-201 | A removal succeeds iff something is at that non-root path. |
| Metadata.RenameResolves | crates/neuralfs-fs/src/fs.rs:203-214 | Where every path resolves after any successful rename, prefixes of one another included. |
| Metadata.RenameOutcome | crates/neuralfs-fs/src/fs.rs:203-214 | Exactly when a rename succeeds. |
| Metadata.RenameMovesIff | crates/neuralfs-fs/src/fs.rs:203-214 | A successful rename moves the subtree iff neither path is a prefix of the other. |
| Metadata.RenameIntoItselfRemoves | crates/neuralfs-fs/src/fs.rs:211-213 | Renaming a path to itself or below itself has the effect of removing it. |
| Metadata.RenameOntoAncestorReplaces | crates/neuralfs-fs/src/fs.rs:211-213 | Renaming onto an ancestor: nothing at or below the old path, directories between the two, everything else that was below the old path below the ancestor, and every path outside as before. |
| Metadata.RenameSharesNothing | crates/neuralfs-fs/src/fs.rs:203-214 | Although the intermediate root links the inode twice, the committed root reaches no inode by two paths. |
| Metadata.RenameInv | crates/neuralfs-fs/src/fs.rs:203-214 | Rename, failed or not, keeps the metadata invariant: ordered ids, ids in use below the counter also after a restart, every root a tree. |
| Metadata.RollbackInv | crates/neuralfs-fs/src/fs.rs:268-278 | Rolling back, also to a snapshot with a higher id counter, keeps the metadata invariant. |
| Metadata.ReopenInv | crates/neuralfs-fs/src/fs.rs:62-80 | Reopening from the last committed superblock keeps it: no reachable id is handed out again. |
| Contents.ChunkSizes | crates/neuralfs-fs/src/fs.rs:113-115 | All chunks but the last are full blocks. |
| Contents.ChunkAt | crates/neuralfs-fs/src/fs.rs:113-115 | The chunks are the successive stretches of 65536 bytes, as many as it takes. |
| Contents.FileForm | crates/neuralfs-fs/src/fs.rs:107-118 | Up to 4096 bytes go into the inode and no block is named; more go into 64 KiB blocks named in order by their addresses. |
| Contents.WriteReadRoundTrip | crates/neuralfs-fs/src/fs.rs:107-157 | For every length, whichever blocks exist already: what a write stores reads back as the data, the recorded size is its length, and inline bytes and blocks exclude each other. |
| Volumes.StepKeeps | crates/neuralfs-fs/src/fs.rs:101-303 | Every call, successful or not, collection and restart included, keeps the engine's invariant. |
| Volumes.RunKeeps | crates/neuralfs-fs/src/fs.rs:49-303 | After any run: directory entries have ids below their directory's, every root is a tree with ids below the counter (also the counter a restart would find), and every reachable file is readable, as long as recorded, and inline or in blocks but not both. |
| Volumes.PinnedView | crates/neuralfs-fs/src/fs.rs:101-303 | No call changes what any path shows under the old root or any snapshot root. |
| Volumes.WriteShows | crates/neuralfs-fs/src/fs.rs:101-133 | After a successful write: the data at its path, folders above it, nothing below it, every other path's kind and bytes as before. |
| Volumes.MkdirShows | crates/neuralfs-fs/src/fs.rs:159-175 | After a successful mkdir: an empty folder at the path, whatever was there, and every other path as before. |
| Volumes.RemoveShows | crates/neuralfs-fs/src/fs.rs:193-201 | After a successful removal: nothing at or below the path, every other path as before. |
| Volumes.RenameShows | crates/neuralfs-fs/src/fs.rs:203-214 | What every path shows after any successful rename, bytes included, prefixes of one another included: nothing at or below the old path, folders on the way to either, the old subtree below the new path, everything else as before. |
| Volumes.RollbackShows | crates/neuralfs-fs/src/fs.rs:268-278 | A rollback fails iff there is no such snapshot; else every path shows what it showed under the snapshot's root. |
| Volumes.RunCounts | crates/neuralfs-fs/src/fs.rs:519-525 | Over any run, restarts included, the transaction number rises by exactly the number of commits. |
| Volumes.FailureIsInvisible | crates/neuralfs-fs/src/fs.rs:101-278 | A failing call changes neither the live tree nor any snapshot, although it may have used up ids and stored blocks. |
| Volumes.GcKeeps | crates/neuralfs-fs/src/fs.rs:286-303 | A collection keeps the content of every file in the live tree and in every snapshot. |
| Volumes.SnapshotsArePermanent | crates/neuralfs-fs/src/fs.rs:249-278 | After any run, collections and restarts included, a rollback makes every path show byte for byte what it showed when the snapshot was last taken. |
| Volumes.WrittenDataPersists | crates/neuralfs-fs/src/fs.rs:101-157 | Written data of any length is what the path shows after any run that leaves the file and its ancestors alone. |
| Marking.MarkedIsNeeded | crates/neuralfs-fs/src/fs.rs:321-334 | Marking everything reachable from all roots finds exactly the blocks some live or pinned file needs. |
| Marking.SiblingsAreDisjoint | crates/neuralfs-fs/src/fs.rs:489-498 | In a tree-shaped root, subtrees of one directory share no inode, so an unguarded walk meets each once. |
| Marking.CollectionAccounting | crates/neuralfs-fs/src/fs.rs:294-303 | Bytes reclaimed are physical bytes before less after, at most the reclaimable bytes, and all of them when there is no snapshot. |
| Filesystems.Filesystem.Open | crates/neuralfs-fs/src/fs.rs:49-91 | Opening adopts the stored superblock, or makes an empty root when there is none. |
| Filesystems.Mount | crates/neuralfs-fs/src/fs.rs:49-91 | Opening the store and then the volume yields what is on disk behind empty caches. |
| Filesystems.Filesystem.OpenedIsValid | crates/neuralfs-fs/src/fs.rs:49-91 | An opened volume is valid whenever what was on disk was mountable. |
| Filesystems.Filesystem.RestartIsReopen | crates/neuralfs-fs/src/fs.rs:62-80 | What is persistent can always be mounted again and gives the volume of the last commit. |
| Filesystems.BlankIsMountable | crates/neuralfs-fs/src/fs.rs:62-80 | A blank disk opens into a valid volume. |
| Filesystems.Filesystem.ReadInode | crates/neuralfs-fs/src/fs.rs:500-511 | The inode cache never answers anything but the table's inode. |
| Filesystems.Filesystem.PutInode | crates/neuralfs-fs/src/fs.rs:513-517 | Stores one inode; the cache agrees with the table, bounded by its capacity. |
| Filesystems.Filesystem.CommitRoot | crates/neuralfs-fs/src/fs.rs:519-525 | The new root and the next transaction number become visible and persistent together. |
| Filesystems.Filesystem.ResolveId | crates/neuralfs-fs/src/fs.rs:418-432 | The loop through the cached inodes computes the lookup. |
| Filesystems.Filesystem.RebuildChain | crates/neuralfs-fs/src/fs.rs:437-487 | The recursion over the mutable table, cache and id counter does what `Rebuild` says, also when it fails half way. |
| Filesystems.Filesystem.PutChunks | crates/neuralfs-fs/src/fs.rs:112-116 | Stores every chunk of the data and returns their addresses in order. |
| Filesystems.Filesystem.WriteFile | crates/neuralfs-fs/src/fs.rs:101-133 | The write on the object is the write on the volume, and keeps the object valid. |
| Filesystems.Filesystem.ReadFile | crates/neuralfs-fs/src/fs.rs:136-157 | A read answers exactly the bytes the path shows, or the right error. |
| Filesystems.Filesystem.MakeDir | crates/neuralfs-fs/src/fs.rs:159-175 | The mkdir on the object is the mkdir on the volume, and keeps the object valid. |
| Filesystems.Filesystem.RemoveEntry | crates/neuralfs-fs/src/fs.rs:193-201 | The removal on the object is the removal on the volume, and keeps the object valid. |
| Filesystems.Filesystem.RenameEntry | crates/neuralfs-fs/src/fs.rs:203-214 | The rename on the object is the rename on the volume, and keeps the object valid. |
| Filesystems.Filesystem.TakeSnapshot | crates/neuralfs-fs/src/fs.rs:249-254 | Records the current superblock under the name and changes nothing else. |
| Filesystems.Filesystem.RollbackTo | crates/neuralfs-fs/src/fs.rs:268-278 | The rollback on the object is the rollback on the volume; the id counter never falls. |
| Filesystems.Filesystem.ScrubAll | crates/neuralfs-fs/src/fs.rs:282-284 | In every state the engine can reach, scrubbing checks all blocks and finds none bad. |
| Filesystems.Filesystem.WalkBlocks | crates/neuralfs-fs/src/fs.rs:336-360 | The guarded recursion adds exactly the inodes reachable from its id to the visited set and exactly their blocks to the live set, despite sharing and early returns. |
| Filesystems.Filesystem.MarkFrom | crates/neuralfs-fs/src/fs.rs:322-333 | With one visited set shared by all roots, the walks visit exactly what is reachable from some root. |
| Filesystems.Filesystem.CollectLiveBlocks | crates/neuralfs-fs/src/fs.rs:321-334 | The mark phase is exact: it collects the needed blocks and no others. |
| Filesystems.Filesystem.CollectGarbage | crates/neuralfs-fs/src/fs.rs:294-303 | Never fails on an undamaged volume; keeps exactly the needed blocks, changes nothing visible, reports exactly, and leaves a log without dead bytes. |
| Filesystems.Filesystem.Walk | crates/neuralfs-fs/src/fs.rs:489-498 | Over a tree-shaped root the unguarded walk tallies every reachable inode exactly once. |
| Filesystems.Filesystem.Info | crates/neuralfs-fs/src/fs.rs:362-408 | Files, directories and logical bytes count each reachable inode once; referenced and reclaimable bytes are those of the blocks the live tree does and does not use. |
| Filesystems.CountedByPath | crates/neuralfs-fs/src/fs.rs:362-383 | An inode is counted as a live file or directory iff some path leads to it and it is one. |
| Filesystems.CountedSize | crates/neuralfs-fs/src/fs.rs:372-374 | A live file is counted with the length of the bytes its path shows. |
| Filesystems.Filesystem.MaybeCollect | crates/neuralfs-fs/src/fs.rs:309-319 | Collects iff the reclaimable share exceeds the tolerance; otherwise nothing changes. |
| Filesystems.OverToleranceIff | crates/neuralfs-fs/src/fs.rs:309-319 | The share test says yes iff something is stored and more than that share of it is reclaimable. |
| Filesystems.CollectionIsIdempotent | crates/neuralfs-fs/src/fs.rs:294-319 | Straight after a collection another drops nothing, and without snapshots no non-negative tolerance triggers one. |
| Gate.UngatedNeedsNoMore | crates/neuralfs-fs/src/fs.rs:159-278 | The key lemma: no mkdir, removal, rename, snapshot or rollback, none of which takes the gate, makes a block needed that was not. |
| Gate.NextGood | crates/neuralfs-daemon/src/ipc.rs:218-221 | Every step of every request the gate lets through keeps the system safe, and changes nothing any path shows under the live root there was or any snapshot root. |
| Gate.CollectionNeverLosesData | crates/neuralfs-fs/src/fs.rs:294-334 | In every reachable state each block the live tree or a snapshot needs is indexed to a record that hashes to it; between log swap and index batch, by the index about to be applied. |
| Gate.SnapshotsSurviveInterleaving | crates/neuralfs-fs/src/fs.rs:249-278 | After a snapshot, any interleaving of writes, reads, collections, other requests and restarts, and a rollback, every path shows byte for byte what it showed. |
| Gate.FinishIsWrite | crates/neuralfs-fs/src/fs.rs:107-132 | However its block steps were interleaved, a write that commits is the sequential write of its data. |
| Gate.FinishedWriteShows | crates/neuralfs-fs/src/fs.rs:101-133 | A write that commits successfully shows its data at its path, folders above it, and every other path as it was. |
| Gate.WriteCanBegin | crates/neuralfs-fs/src/fs.rs:101-133 | Whenever no collection is under way a write can begin, and go through to the commit of its data. |
| Gate.CollectionCanRun | crates/neuralfs-fs/src/fs.rs:294-303 | Whenever nothing is being written and none is under way, a collection can run through, and leaves exactly the needed blocks indexed. |
| Gate.UngatedCanRun | crates/neuralfs-fs/src/fs.rs:159-278 | Requests that take no gate can run at any moment, as the sequential calls they are; so can a restart outside the swap window. |
| Gate.RestartMounts | crates/neuralfs-fs/src/fs.rs:49-91 | What is on disk in any reachable state outside the swap window, half-stored blocks included, can be opened again and shows what showed. |
| Gate.ReadsAreTruthful | crates/neuralfs-fs/src/blockstore.rs:101-126 | Whatever a block read in its five steps races with, it answers the bytes put under the address, or an error. |
| Gate.UndisturbedReadSucceeds | crates/neuralfs-fs/src/blockstore.rs:105-123 | A read that finds its block in the index gets its bytes, whatever writes, removals, snapshots and reads come between its steps, unless a collection swaps the log in between. |
| FileReads.NextKeeps | crates/neuralfs-fs/src/fs.rs:500-525 | No request but a restart changes an inode that has been handed out, or hands out ids downwards. |
| FileReads.FileReadsAreTruthful | crates/neuralfs-fs/src/fs.rs:136-157 | Whatever a read of a whole file races with between its steps, it answers what the path showed when it took the root, never a mixture: those bytes, that error, or the fault of a block read in place of a document's bytes. |
| FileReads.FileReadsAreAtomic | crates/neuralfs-fs/src/fs.rs:136-157 | Unless a collection swaps the log in the meantime, it answers exactly what it would have answered at once when it took the root. |
| FileReads.ReadCanAnswer | crates/neuralfs-fs/src/fs.rs:136-157 | Outside the swap window a read of any path can begin, and come to answer what the path shows. |
| CompactionCrashes.CrashInCompaction | crates/neuralfs-fs/src/blockstore.rs:252-284 | What a read finds after a crash before the swap, after the batch, and in between: never wrong bytes. |
| CompactionCrashes.TornShortReadIff | crates/neuralfs-fs/src/blockstore.rs:265-284 | In the window a read falls off the new log iff the block is not empty and its old record ends behind the bytes that all live records take together. |
| CompactionCrashes.TornReadIff | crates/neuralfs-fs/src/blockstore.rs:228-284 | In the window a block reads iff the live records, laid out in copying order, have its bytes at its old place; all of it known before the call. |
| CompactionCrashes.LastLiveBlockLost | crates/neuralfs-fs/src/blockstore.rs:265-284 | On a log of separate records, gaps or not, garbage ahead of the live block stored last makes that block unreadable, whatever the copying order, iff it is not empty. |
| CompactionCrashes.LiveBehindGarbageLost | crates/neuralfs-fs/src/blockstore.rs:265-284 | On a log without gaps: if a dropped block was stored before the last live one, that live one is lost iff it is not empty; so where no block is empty, all live blocks survive only if they are the first ones stored. |
| CompactionCrashes.LiveInFrontSurvive | crates/neuralfs-fs/src/blockstore.rs:228-284 | When the live blocks are the first ones stored and are copied in the order of storing, every one of them stays readable. |
| PathCaches.PathTtlCache.Get | crates/neuralfs-daemon/src/pathcache.rs:77-105 | A live entry is answered and its expiry pushed out; an expired one is dropped; the byte count stays exact and within the cap. |
| PathCaches.PathTtlCache.Insert | crates/neuralfs-daemon/src/pathcache.rs:109-147 | Evicts the shortest soonest-to-expire part that makes the new entry fit, or skips an empty or oversized one; every eviction is counted, no other counter moves, and the byte count stays exact and within the cap. |
| PathCaches.PathTtlCache.MakeRoom | crates/neuralfs-daemon/src/pathcache.rs:121-137 | The eviction loop terminates, evicts oldest first, no more than has to go, and counts every one. |
| PathCaches.PathTtlCache.Sweep | crates/neuralfs-daemon/src/pathcache.rs:151-165 | Drops exactly the expired entries and counts them. |
| PathCaches.EntryBytesCharged | crates/neuralfs-daemon/src/pathcache.rs:51-57 | An entry is charged with the bytes of its query and of all its paths, 24 for each path, and 64. |
| PathCaches.CapBoundsContents | crates/neuralfs-daemon/src/pathcache.rs:109-147 | The bytes of all resident queries and paths, and 64 for each entry, are together within the cap. |
| SweepInvisible.EvictedLiveAlike | crates/neuralfs-daemon/src/pathcache.rs:121-137 | With the same live entries, a swept and an unswept cache evict the same live entries. |
| SweepInvisible.SweepingIsInvisible | crates/neuralfs-daemon/src/pathcache.rs:77-165 | Over any run at increasing times, a cache swept at arbitrary moments answers every lookup like one never swept. |
| SweepInvisible.HitNeedsUnbrokenChain | crates/neuralfs-daemon/src/pathcache.rs:77-92 | A hit answers what an insert stored, through a chain of touches from that insert on, each less than one TTL after the one before. |
| SweepInvisible.LookupWithinTtlHits | crates/neuralfs-daemon/src/pathcache.rs:77-92 | A lookup less than one TTL after its result was stored or last answered hits and answers the same, whatever sweeps, other lookups and fitting inserts come in between. |
| Ranking.RankedIsSorted | crates/neuralfs-daemon/src/search.rs:90 | Ranking is a permutation in descending score. |
| Ranking.RankedIsStable | crates/neuralfs-daemon/src/search.rs:90 | Ranking keeps the order of equal scores. |
| Ranking.StableSortIsUnique | crates/neuralfs-daemon/src/search.rs:90 | Nothing else is a stable descending sort. |
| Classifiers.FloorNeverFires | crates/neuralfs-daemon/src/classifier.rs:317-322 | The normalizing sum is at least one, so the floor of 1e-12 never applies. |
| Classifiers.SoftmaxIsDistribution | crates/neuralfs-daemon/src/classifier.rs:317-322 | Probabilities are positive, at most one, and sum to exactly one. |
| Classifiers.SoftmaxRatio | crates/neuralfs-daemon/src/classifier.rs:317-322 | Two probabilities are in the ratio of the exponential of their logits' difference. |
| Classifiers.SteppedLogit | crates/neuralfs-daemon/src/classifier.rs:79-90 | An update moves each logit of its own query by -lr (‖x‖² + 1) times the residual. |
| Classifiers.LogitIsSum | crates/neuralfs-daemon/src/classifier.rs:240-250 | A class's logit is its bias plus the sum of the features times their weights for it. |
| Classifiers.NudgedEntry | crates/neuralfs-daemon/src/classifier.rs:67-95 | An online update moves feature i's weight for class j by the learning rate times feature i times class j's miss, and the bias by the rate times the miss. |
| Classifiers.NudgeWidensMargin | crates/neuralfs-daemon/src/classifier.rs:67-95 | An online update raises the opened class's margin over every other class, for that query, by exactly lr (‖x‖² + 1)(1 − p_c + p_j), which is positive. |
| Classifiers.NudgeRaisesProbability | crates/neuralfs-daemon/src/classifier.rs:67-95 | With at least two classes, the opened class's probability for that query strictly rises. |
| Classifiers.NudgeKeepsBalance | crates/neuralfs-daemon/src/classifier.rs:79-90 | An online update keeps every weight row and the bias summing to zero. |
| Classifiers.RowDescendedEntry | crates/neuralfs-daemon/src/classifier.rs:415-419 | Entry by entry, a descent step subtracts the learning rate times the mean of feature times residual plus the decay. |
| Classifiers.BiasDescendedEntry | crates/neuralfs-daemon/src/classifier.rs:416-419 | Entry by entry, a descent step subtracts the learning rate times the mean residual from the bias. |
| Classifiers.EpochWeight | crates/neuralfs-daemon/src/classifier.rs:410-418 | An epoch moves feature i's weight for class j by half of: the mean over the samples of feature i times class j's miss on that sample, plus a thousandth of the weight. |
| Classifiers.EpochBias | crates/neuralfs-daemon/src/classifier.rs:410-419 | And class j's bias by half of the mean of class j's miss. |
| Classifiers.RunBalanced | crates/neuralfs-daemon/src/classifier.rs:399-423 | Over any number of epochs on any samples, every weight row and the bias sum to zero. |
| Classifiers.SoftmaxRows | crates/neuralfs-daemon/src/classifier.rs:324-334 | The in-place loop turns every row into its softmax and disturbs no other row. |
| Classifiers.TrainSoftmax | crates/neuralfs-daemon/src/classifier.rs:399-423 | The result is that of exactly 150 epochs of descent from zero, and is balanced. |
| Classifiers.TrainedFor150Epochs | crates/neuralfs-daemon/src/classifier.rs:399-423 | A trained model is the last of 151, the first of which is all zero and each other one epoch after the one before. |
| Classifiers.TopThreeAreBest | crates/neuralfs-daemon/src/classifier.rs:240-259 | Of the scored classes, at most three, best first, and no class left out beats one returned. |
| Classifiers.Classifier.Train | crates/neuralfs-daemon/src/classifier.rs:199-210 | A trained classifier is balanced, at version one, with no online updates. |
| Classifiers.Classifier.CountTokens | crates/neuralfs-daemon/src/classifier.rs:221-226 | The count map holds exactly the occurring features with their numbers of occurrences. |
| Classifiers.Classifier.Vectorize | crates/neuralfs-daemon/src/classifier.rs:213-236 | Nothing iff no token is known; otherwise term frequency times inverse document frequency for every feature. |
| Classifiers.FeatureIsWeightedShare | crates/neuralfs-daemon/src/classifier.rs:221-235 | A feature is the share of the query's tokens that are it, times its inverse document frequency. |
| Classifiers.Classifier.PredictTop3 | crates/neuralfs-daemon/src/classifier.rs:240-259 | The three most likely classes of the query, or nothing when untrained or nothing is known. |
| Classifiers.TopThreeScored | crates/neuralfs-daemon/src/classifier.rs:247-259 | What is answered are three classes, or all if fewer, each with its own probability, best first, none better left out. |
| Classifiers.Classifier.OnlineUpdate | crates/neuralfs-daemon/src/classifier.rs:67-95 | Applies iff the directory is a class and some token is known; then the model takes one nudge, and both counters rise by one; the model stays balanced. |
| Stores.PrefixFree | crates/neuralfs-daemon/src/store.rs:173-212 | A link key lies under a label's prefix iff it is that label's: the NUL-terminated encoding is prefix-free. |
| Stores.UpsertConsistentIff | crates/neuralfs-daemon/src/store.rs:67-83 | After an upsert the secondary trees agree with the primary iff the path keeps its lowercased name. |
| Stores.RemoveConsistent | crates/neuralfs-daemon/src/store.rs:96-105 | A removal keeps them in agreement. |
| Stores.RunConsistent | crates/neuralfs-daemon/src/store.rs:67-132 | They agree after every run of upserts, re-indexings, removals and opens. |
| Stores.FrequencyIsOpens | crates/neuralfs-daemon/src/store.rs:86-132 | A path is indexed iff it was put there since it was last removed, and its frequency is its opens since it was last created, whatever re-indexing happened. |
| Stores.EntryIsHistory | crates/neuralfs-daemon/src/store.rs:67-132 | An entry is the one its path was last indexed or re-indexed with, with the opens and the time of the last open since the path was created. |
| Stores.Store.Upsert | crates/neuralfs-daemon/src/store.rs:67-83 | The three trees become those of `Upserted`: entry replaced, parent link moved, name link added; they still agree iff the path keeps its lowercased name. |
| Stores.Store.UpsertPreservingStats | crates/neuralfs-daemon/src/store.rs:86-94 | As an upsert, with frequency and last open taken from the entry it replaces; the trees still agree iff the path keeps its lowercased name. |
| Stores.Store.RemovePath | crates/neuralfs-daemon/src/store.rs:96-105 | Removes the entry and both its links, or nothing; the trees stay in agreement. |
| Stores.Store.RecordOpen | crates/neuralfs-daemon/src/store.rs:121-132 | Counts one more open of an indexed path and returns the entry, or changes nothing; the trees stay in agreement. |
| Stores.Store.Scan | crates/neuralfs-daemon/src/store.rs:109-119 | The prefix scan lists exactly the indexed entries with that label, each once. |
| Stores.Store.FilesNamed | crates/neuralfs-daemon/src/store.rs:109-119 | Exactly the indexed files of that lowercased name, each once. |
| Stores.Store.FilesIn | crates/neuralfs-daemon/src/store.rs:134-144 | Exactly the indexed files of that lowercased directory, each once. |
| Stores.Store.AllEntries | crates/neuralfs-daemon/src/store.rs:146-153 | Every indexed entry, each once. |
| Searches.FuzzyMatchMembers | crates/neuralfs-daemon/src/search.rs:96-113 | The filter keeps exactly the candidates that contain the query or share a word with it. |
| Searches.FuzzyIsMatching | crates/neuralfs-daemon/src/search.rs:96-113 | A file matches iff its lowercased name is something, the lowercased query, and something, or the two have a token in common. |
| Searches.NewHits | crates/neuralfs-daemon/src/search.rs:53-66 | Searching a directory not visited before never finds a path twice, so the hits stay exactly the matches of the winning directories. |
| Searches.Backtrack | crates/neuralfs-daemon/src/search.rs:50-71 | One prediction's climb visits and wins exactly the directories `Climb` says, at most four levels, and the hits stay exact. |
| Searches.Collect | crates/neuralfs-daemon/src/search.rs:48-81 | The hits are exactly the matches in the winning directories at their confidences, or all matches at confidence zero when none won. |
| Searches.Find | crates/neuralfs-daemon/src/search.rs:14-94 | The answer is the best of exactly the hits the query should find: all files of that name if any, else the collected hits. |
| Searches.RankingAnswers | crates/neuralfs-daemon/src/search.rs:83-93 | Sorting and truncating distinct hits answers the best of them, each path once, and de-duplication changes nothing. |
| Searches.AnswerIsComplete | crates/neuralfs-daemon/src/search.rs:14-94 | The answer is empty iff no indexed file has the trimmed query as its name or matches the query. |
| Searches.AnswerIsSound | crates/neuralfs-daemon/src/search.rs:14-94 | Results are distinct paths of indexed files that are named or match, at a confidence of one, of a prediction, or zero; best first; at most as many as asked for. |
| Searches.ResultsAreExplained | crates/neuralfs-daemon/src/search.rs:14-94 | Every result is an indexed file of exactly the query's name at confidence one, or a match at confidence zero or in the first directory with a match among a predicted one and the three above it, at that prediction's confidence. |
| Searches.MatchesAreAnswered | crates/neuralfs-daemon/src/search.rs:14-113 | The answer is non-empty iff some indexed file contains the query in its name, shares a token with it, or has its name. |
| Searches.ExactNameWins | crates/neuralfs-daemon/src/search.rs:27-46 | When a file has exactly the query's name, only such files are answered, at confidence one, and each is in the answer unless it is full of better ones. |
| Searches.PredictedMatchesAreConsidered | crates/neuralfs-daemon/src/search.rs:48-71 | When a prediction is the first to come near the directory it climbs to, each match there is in the answer at its confidence, unless the answer is full of better ones. |
| Searches.OtherwiseAllMatchesAreConsidered | crates/neuralfs-daemon/src/search.rs:73-81 | When no prediction climbs to a match, each match in the index is in the answer at confidence zero, unless the answer is full of better ones. |
| WinVolumes.UnderParent | crates/neuralfs-daemon/src/winfsphost.rs:164-173 | A path lies below another iff its parent is that path or lies below it. |
| WinVolumes.OrderIrrelevant | crates/neuralfs-daemon/src/winfsphost.rs:449-464 | When no key that moves moves onto another that moves, the loop re-keys exactly the given keys, in whatever order it visits them. |
| WinVolumes.OrderIrrelevantIff | crates/neuralfs-daemon/src/winfsphost.rs:449-464 | All orders of the loop leave the same map iff no key that moves moves onto another that moves. |
| WinVolumes.TangleDiffers | crates/neuralfs-daemon/src/winfsphost.rs:456-464 | When one does, two orders that differ only in which of the two goes first leave different keys. |
| WinVolumes.TimelyIff | crates/neuralfs-daemon/src/winfsphost.rs:449-464 | In a given order the loop re-keys exactly the source's subtree iff no key is visited after another one has moved onto it. |
| WinVolumes.RenameClosedIff | crates/neuralfs-daemon/src/winfsphost.rs:436-466 | For every existing source and every target, the root and overlapping paths included, the re-keyed map, which the loop leaves in every timely order, is a closed tree iff the subtree fits where it goes. |
| WinVolumes.ForerunClosedIff | crates/neuralfs-daemon/src/winfsphost.rs:456-464 | When the key that moves onto the source's own goes first, the loop leaves a closed tree iff that key has no children and, if it is a file, the target is not the root and nothing else has its parent there afterwards. |
| WinVolumes.LoopClosedIff | crates/neuralfs-daemon/src/winfsphost.rs:436-466 | For every existing source and every target, the loop keeps the tree closed in every order iff the subtree fits where it goes, and no key moves onto another one that moves or going first does no harm. |
| WinVolumes.FittingIsNotEnough | crates/neuralfs-daemon/src/winfsphost.rs:449-464 | A closed tree and a rename up onto the parent that fits, and that some order turns into a tree that is not closed. |
| WinVolumes.RenameMovesSubtree | crates/neuralfs-daemon/src/winfsphost.rs:436-466 | Onto a free place or a leaf in an existing directory, not below itself: exactly the source's subtree moves, nodes unchanged, nothing else changes, the tree stays closed. |
| WinVolumes.OverlapDependsOnOrder | crates/neuralfs-daemon/src/winfsphost.rs:449-464 | A closed tree and a rename for which the order of the loop matters. |
| WinVolumes.MoveAllNumbered | crates/neuralfs-daemon/src/winfsphost.rs:456-464 | The rename loop, in any order and between any paths, leaves index numbers distinct. |
| WinVolumes.WinVolume.Create | crates/neuralfs-daemon/src/winfsphost.rs:243-291 | Collides iff the key exists, fails iff the parent is no directory, else adds one empty node with a new index number; keeps the tree closed and index numbers distinct. |
| WinVolumes.WinVolume.Cleanup | crates/neuralfs-daemon/src/winfsphost.rs:295-309 | Deletes iff asked to and there is no child; the tree stays closed unless the root itself goes. |
| WinVolumes.WinVolume.Rename | crates/neuralfs-daemon/src/winfsphost.rs:436-466 | Collides iff the target exists and may not be replaced; else the loop, in some order, and exactly the re-keyed map whenever the order cannot matter; nothing changes when a closed tree has no such source; a closed tree stays closed under the condition of `LoopClosedIff`, and when the order cannot matter iff the source fits; index numbers stay distinct. |

## Left out

- Modification times, modes, attributes and the dedup ratio: nothing here depends on them.
- Listing a directory and `stat`: they would only add easy members.
- Integer widths of inode ids, transaction numbers and log offsets: ids and offsets are unbounded; the 32-bit record length is a precondition of `Put`, which the 64 KiB chunks always meet.
- The embedded database, serialization, flushing and file handles: trees are maps, the log is a byte sequence, and the index holds decoded locations, the 12-byte codec being proved separately.
- Iteration orders: wherever the source iterates over a map, a set or a database tree, the model picks in any order, so results that depend on the order, such as ties between equal scores or a directory's order of listing, are not fixed.
- Gate: `snapshot`, `rollback`, `rename` and the mark phase are one step each, although each reads before it locks; the benchmark request, which writes without taking the gate, is not a step.
- Gate.CollectionNeverLosesData: the cache is an over-approximation that may lose any entry at any time, and a restart is not a step between log swap and index batch, where the lemmas of `CompactionCrashes` say what is left.
- SweepInvisible.SweepingIsInvisible: lookups and inserts come at strictly increasing times, so that no two entries expire together; with equal expiries the source evicts whichever its hash map yields first.
- PathCaches.PathTtlCache.Insert: which of several entries with the same earliest expiry is evicted is left open, as in the source.
- Stores.RunConsistent: path hashes are assumed free of collisions among the paths of a run; two colliding paths would share one entry.
- Searches.Find: trimming, lowercasing, tokenizing, a path's parent directory and the score are parameters, the predictions are given as a list, and database errors, which the source treats as no results, do not occur.
- Classifiers.Classifier.Train: the choice of classes, vocabulary, inverse document frequencies and the weighted reservoir sample are inputs; a degenerate index, for which the source returns an untrained classifier, is not modelled.
- Classifiers.NudgeWidensMargin: exact reals; rounding and NaN are not modelled.
- FileReads.FileReadsAreTruthful: inodes come from the table; the inode cache, which `Filesystems.Filesystem.ReadInode` shows to agree with it, takes no part in the races.
- WinVolumes.WinVolume.Rename: when some key moves onto another that moves, which order the loop takes is left open; case-insensitive matching, node attributes and times, reading and writing data are not modelled.
- The FUSE host and its content cache, the WinFsp callback plumbing, IPC transport, configuration, the watcher, the installer and the command line.
