/**
 * The engine under concurrent requests. Volume writes hold the daemon's collection gate for reading from
 * before their first block is stored until their commit; a collection holds it for writing; directory,
 * rename, snapshot and rollback requests and all reads take no gate. Each event below is one atomic step:
 * storing one block takes up to four of them, reading one up to five, and a collection marks, swaps the log,
 * applies the index batch and evicts from the cache in turn. The process may stop and restart between any two.
 */
module Gate {
  import opened Prelude
  import opened Bytes
  import opened Digests
  import opened Paths
  import opened Inodes
  import opened Metadata
  import opened BlockLogs
  import opened BlockStores
  import opened Contents
  import opened Volumes
  import opened Marking
  import opened Filesystems

  /** How far storing the next block has come. */
  datatype Stage = Ready | Missing | Logged(loc: Loc) | Indexed

  datatype Writer = Writer(p: Path, data: ByteSeq, done: nat, stage: Stage)

  /** Who holds the gate for writing, and how far the collection has come. */
  datatype Collection =
    | Inactive
    | Started
    | Marked(live: set<Digest>)
    | Swapped(live: set<Digest>, fitting: Index)  // new log in place, its index not yet
    | Evicting(dropped: set<Digest>)              // both in place, dropped blocks perhaps still cached

  /** How far a block read has come. */
  datatype Reader =
    | Looking(k: Digest)
    | Missed(k: Digest)
    | Located(k: Digest, loc: Loc)
    | Loaded(k: Digest, bytes: ByteSeq)
    | Verified(k: Digest, bytes: ByteSeq)
    | Answered(k: Digest, answer: Result<ByteSeq>)

  datatype System = System(
    meta: Meta, disk: Disk, cache: map<Digest, ByteSeq>,
    writers: map<nat, Writer>, collection: Collection, readers: map<nat, Reader>)

  datatype Event =
    | BeginWrite(w: nat, p: Path, data: ByteSeq)
    | CheckIndex(w: nat)
    | AppendRecord(w: nat)
    | InsertIndex(w: nat)
    | CacheWritten(w: nat)
    | FinishWrite(w: nat)
    | AbandonWrite(w: nat)
    | BeginCollection
    | MarkLive
    | SwapLog(image: Disk)
    | ApplyIndex
    | EvictDropped
    | AbandonCollection
    | MkdirNow(p: Path)
    | RemoveNow(p: Path)
    | RenameNow(from: Path, to: Path)
    | SnapshotNow(name: string)
    | RollbackNow(name: string)
    | BeginRead(r: nat, k: Digest)
    | ProbeCache(r: nat)
    | LookUp(r: nat)
    | ReadLog(r: nat)
    | VerifyHash(r: nat)
    | CacheRead(r: nat)
    | EvictCached(k: Digest)
    | Restart

  /** The blocks a write stores: none for inline data. */
  function BlocksToStore(data: ByteSeq): seq<ByteSeq> {
    if IsInline(data) then [] else Chunks(data)
  }

  predicate AtBlock(s: System, w: nat, stage: Stage) {
    w in s.writers && s.writers[w].stage == stage && s.writers[w].done < |BlocksToStore(s.writers[w].data)|
  }

  function NextBlock(writer: Writer): ByteSeq
    requires writer.done < |BlocksToStore(writer.data)|
  {
    BlocksToStore(writer.data)[writer.done]
  }

  /** No request under way and nothing cached. */
  function Quiescent(meta: Meta, disk: Disk): System {
    System(meta, disk, map[], map[], Inactive, map[])
  }

  /** Writes: taking the gate for reading, storing each block, and the commit, or the failure, that lets go of it. */
  ghost predicate WriteNext(h: Hasher, s: System, e: Event, s': System) {
    match e
    case BeginWrite(w, p, data) =>
      w !in s.writers && p != [] && s.collection.Inactive?
      && s' == s.(writers := s.writers[w := Writer(p, data, 0, Ready)])
    case CheckIndex(w) =>
      AtBlock(s, w, Ready) &&
      var writer := s.writers[w];
      s' == s.(writers := s.writers[w :=
        if h(NextBlock(writer)) in s.disk.index then writer.(done := writer.done + 1) else writer.(stage := Missing)])
    case AppendRecord(w) =>
      AtBlock(s, w, Missing) &&
      var block := NextBlock(s.writers[w]);
      s' == s.(disk := s.disk.(log := s.disk.log + Record(block)),
               writers := s.writers[w := s.writers[w].(stage := Logged(Loc(|s.disk.log| + 4, |block|)))])
    case InsertIndex(w) =>
      w in s.writers && s.writers[w].stage.Logged? && AtBlock(s, w, s.writers[w].stage) &&
      var writer := s.writers[w];
      var k := h(NextBlock(writer));
      s' == s.(disk := s.disk.(index := s.disk.index[k := writer.stage.loc]),
               writers := s.writers[w := writer.(stage := Indexed)])
    case CacheWritten(w) =>
      AtBlock(s, w, Indexed) &&
      var writer := s.writers[w];
      s' == s.(cache := s.cache[h(NextBlock(writer)) := NextBlock(writer)],
               writers := s.writers[w := writer.(done := writer.done + 1, stage := Ready)])
    case FinishWrite(w) =>
      w in s.writers && s.writers[w].stage == Ready && s.writers[w].done == |BlocksToStore(s.writers[w].data)| &&
      s' == s.(meta := WriteMeta(s.meta, s.writers[w].p, MakeFile(h, s.writers[w].data)).meta,
               writers := s.writers - {w})
    case AbandonWrite(w) => w in s.writers && s' == s.(writers := s.writers - {w})
    case _ => false
  }

  /** Collections: taking the gate for writing, and every stage up to letting go of it. */
  ghost predicate CollectNext(s: System, e: Event, s': System) {
    match e
    case BeginCollection =>
      s.collection.Inactive? && s.writers == map[] && s' == s.(collection := Started)
    case MarkLive =>
      s.collection.Started? && Ordered(s.meta.table) && s' == s.(collection := Marked(NeededSet(s.meta)))
    case SwapLog(image) =>
      s.collection.Marked? && Compacted(s.disk, s.collection.live, image) &&
      s' == s.(disk := s.disk.(log := image.log), collection := Swapped(s.collection.live, image.index))
    case ApplyIndex =>
      s.collection.Swapped? &&
      var dropped := s.disk.index.Keys - s.collection.live;
      s' == s.(disk := s.disk.(index := (s.disk.index + s.collection.fitting) - dropped),
               collection := Evicting(dropped))
    case EvictDropped =>
      s.collection.Evicting? && s' == s.(cache := s.cache - s.collection.dropped, collection := Inactive)
    case AbandonCollection =>
      (s.collection.Started? || s.collection.Marked?) && s' == s.(collection := Inactive)
    case _ => false
  }

  /** The requests that take no gate. */
  ghost predicate TreeNext(s: System, e: Event, s': System) {
    match e
    case MkdirNow(p) => s' == s.(meta := MkdirMeta(s.meta, p).meta)
    case RemoveNow(p) => s' == s.(meta := RemoveMeta(s.meta, p).meta)
    case RenameNow(from, to) => s' == s.(meta := RenameMeta(s.meta, from, to).meta)
    case SnapshotNow(name) => s' == s.(meta := SnapshotMeta(s.meta, name))
    case RollbackNow(name) => s' == s.(meta := RollbackMeta(s.meta, name).meta)
    case _ => false
  }

  /** Block reads, up to the verdict on what they read. */
  ghost predicate ReadNext(h: Hasher, s: System, e: Event, s': System) {
    match e
    case BeginRead(r, k) => r !in s.readers && s' == s.(readers := s.readers[r := Looking(k)])
    case ProbeCache(r) =>
      r in s.readers && s.readers[r].Looking? &&
      var k := s.readers[r].k;
      s' == s.(readers := s.readers[r := if k in s.cache then Answered(k, Ok(s.cache[k])) else Missed(k)])
    case LookUp(r) =>
      r in s.readers && s.readers[r].Missed? &&
      var k := s.readers[r].k;
      s' == s.(readers := s.readers[r :=
        if k in s.disk.index then Located(k, s.disk.index[k]) else Answered(k, Err(BlockNotFound))])
    case ReadLog(r) =>
      r in s.readers && s.readers[r].Located? && !s.collection.Swapped? &&
      var k := s.readers[r].k;
      s' == s.(readers := s.readers[r :=
        match ReadExact(s.disk.log, s.readers[r].loc)
        case None => Answered(k, Err(ShortRead))
        case Some(b) => Loaded(k, b)])
    case VerifyHash(r) =>
      r in s.readers && s.readers[r].Loaded? &&
      var (k, b) := (s.readers[r].k, s.readers[r].bytes);
      s' == s.(readers := s.readers[r := if h(b) == k then Verified(k, b) else Answered(k, Err(IntegrityFailure))])
    case _ => false
  }

  /** A read that fills the cache, and evictions from it. */
  ghost predicate CacheNext(s: System, e: Event, s': System) {
    match e
    case CacheRead(r) =>
      r in s.readers && s.readers[r].Verified? &&
      var (k, b) := (s.readers[r].k, s.readers[r].bytes);
      s' == s.(cache := s.cache[k := b], readers := s.readers[r := Answered(k, Ok(b))])
    case EvictCached(k) => s' == s.(cache := s.cache - {k})
    case _ => false
  }

  /** The process stops and opens the volume again; not inside the window between log swap and index batch. */
  ghost predicate RestartNext(s: System, s': System) {
    !s.collection.Swapped? && s' == Quiescent(ReopenMeta(s.meta), s.disk)
  }

  ghost predicate Next(h: Hasher, s: System, e: Event, s': System) {
    || WriteNext(h, s, e, s') || CollectNext(s, e, s') || TreeNext(s, e, s')
    || ReadNext(h, s, e, s') || CacheNext(s, e, s') || (e.Restart? && RestartNext(s, s'))
  }

  // ---- what the system shows ----

  /** The disk under the index that fits it: between log swap and index batch, the one about to be applied. */
  function Effective(s: System): Disk {
    match s.collection
    case Swapped(_, fitting) => Disk(s.disk.log, fitting)
    case _ => s.disk
  }

  /** The volume as the live tree and the snapshots show it. */
  ghost function Shown(s: System): Vol {
    Vol(s.meta, StoredBlocks(Effective(s)))
  }

  /** Every path shows the same under every root there was. */
  ghost predicate KeepsViews(v: Vol, v': Vol) {
    forall root, p | root in Roots(v.meta) :: View(v', root, p) == View(v, root, p)
  }

  // ---- the invariant ----

  /** Every indexed block is intact in the log, and every file some root reaches is readable. */
  ghost predicate Holds(h: Hasher, s: System) {
    Sound(h, Effective(s)) && VolInv(h, Shown(s))
  }

  ghost predicate AllIndexed(h: Hasher, index: Index, blocks: seq<ByteSeq>, n: nat)
    requires n <= |blocks|
  {
    forall i | 0 <= i < n :: h(blocks[i]) in index
  }

  lemma OneMoreIndexed(h: Hasher, index: Index, index': Index, blocks: seq<ByteSeq>, n: nat)
    requires n < |blocks| && AllIndexed(h, index, blocks, n)
    requires h(blocks[n]) in index' && forall k | k in index :: k in index'
    ensures AllIndexed(h, index', blocks, n + 1)
  {
  }

  lemma StillIndexed(h: Hasher, index: Index, index': Index, blocks: seq<ByteSeq>, n: nat)
    requires n <= |blocks| && AllIndexed(h, index, blocks, n)
    requires forall k | k in index :: k in index'
    ensures AllIndexed(h, index', blocks, n)
  {
  }

  ghost predicate WriterOk(h: Hasher, disk: Disk, writer: Writer) {
    var blocks := BlocksToStore(writer.data);
    && writer.p != [] && writer.done <= |blocks|
    && AllIndexed(h, disk.index, blocks, writer.done)
    && (writer.stage.Logged? ==>
          writer.done < |blocks| && ReadExact(disk.log, writer.stage.loc) == Some(blocks[writer.done]))
    && (writer.stage.Indexed? ==> writer.done < |blocks| && h(blocks[writer.done]) in disk.index)
  }

  ghost predicate WritersOk(h: Hasher, disk: Disk, writers: map<nat, Writer>) {
    forall w | w in writers :: WriterOk(h, disk, writers[w])
  }

  /** What each phase of a collection may rely on; `idle` when no write is under way. */
  ghost predicate CollectionOk(m: Meta, index: Index, idle: bool, c: Collection)
    requires Ordered(m.table)
  {
    match c
    case Inactive => true
    case Started => idle
    case Marked(live) => idle && forall k | Needed(m, k) :: k in live
    case Swapped(live, fitting) => idle && fitting.Keys == index.Keys * live
    case Evicting(_) => idle
  }

  /** What is cached or answered was never anything but bytes with the address asked for. */
  ghost predicate Truthful(h: Hasher, cache: map<Digest, ByteSeq>, readers: map<nat, Reader>) {
    && (forall k | k in cache :: h(cache[k]) == k)
    && (forall r | r in readers && readers[r].Verified? :: h(readers[r].bytes) == readers[r].k)
    && (forall r | r in readers && readers[r].Answered? && readers[r].answer.Ok? ::
          h(readers[r].answer.value) == readers[r].k)
  }

  ghost predicate Safe(h: Hasher, s: System) {
    && Holds(h, s)
    && CollectionOk(s.meta, s.disk.index, s.writers == map[], s.collection)
    && WritersOk(h, s.disk, s.writers)
    && Truthful(h, s.cache, s.readers)
  }

  /** A step that keeps the system safe and changes nothing anyone sees under the roots there were. */
  ghost predicate Good(h: Hasher, s: System, s': System) {
    Safe(h, s') && KeepsViews(Shown(s), Shown(s'))
  }

  // ---- changes to the disk ----

  lemma TrimmedDisk(h: Hasher, v: Vol, v': Vol)
    requires VolInv(h, v) && KeepsNeeded(v, v') && Addressed(h, v'.blocks)
    ensures VolInv(h, v') && KeepsViews(v, v')
  {
    hide View;
    NeededKept(h, v, v');
    forall k | Needed(v.meta, k) ensures k in v'.blocks {
      NeededIsStored(h, v, k);
    }
    forall root, p | root in Roots(v.meta) ensures View(v', root, p) == View(v, root, p) {
      PreservedView(h, v, v', root, p);
    }
  }

  lemma NeededIsStored(h: Hasher, v: Vol, k: Digest)
    requires VolInv(h, v) && Needed(v.meta, k)
    ensures k in v.blocks
  {
    var x :| Reachable(v.meta, x) && x in v.meta.table && v.meta.table[x].File? && k in v.meta.table[x].blocks;
  }

  lemma SteppedVolume(h: Hasher, v: Vol, op: Op, v': Vol)
    requires VolInv(h, v) && Step(h, v, op, v')
    ensures VolInv(h, v') && KeepsViews(v, v')
  {
    hide Step, View;
    StepKeeps(h, v, op, v');
    forall root, p | root in Roots(v.meta) ensures View(v', root, p) == View(v, root, p) {
      PinnedView(h, v, op, v', root, p);
    }
  }

  lemma AppendedSound(h: Hasher, d: Disk, block: ByteSeq)
    requires Sound(h, d)
    ensures var d' := d.(log := d.log + Record(block)); Sound(h, d') && StoredBlocks(d') == StoredBlocks(d)
  {
    hide Record;
    var d' := d.(log := d.log + Record(block));
    forall k | k in d'.index ensures Intact(h, d', k) && ReadBlock(d', k) == ReadBlock(d, k) {
      assert Intact(h, d, k);
      AppendReads(d.log, block, d.index[k]);
    }
  }

  lemma InsertedSound(h: Hasher, d: Disk, loc: Loc, block: ByteSeq)
    requires Sound(h, d) && ReadExact(d.log, loc) == Some(block)
    ensures var d' := d.(index := d.index[h(block) := loc]);
            Sound(h, d') && StoredBlocks(d') == StoredBlocks(d)[h(block) := block]
  {
    var d' := d.(index := d.index[h(block) := loc]);
    forall x | x in d'.index
      ensures Intact(h, d', x) && ReadBlock(d', x) == if x == h(block) then Some(block) else ReadBlock(d, x)
    {
      if x != h(block) {
        assert Intact(h, d, x);
      }
    }
  }

  // ---- writes ----

  lemma BeginGood(h: Hasher, s: System, w: nat, s': System)
    requires Safe(h, s) && exists p, data :: WriteNext(h, s, BeginWrite(w, p, data), s')
    ensures Good(h, s, s')
  {
    hide Sound, VolInv, View, Truthful;
  }

  lemma AbandonGood(h: Hasher, s: System, w: nat, s': System)
    requires Safe(h, s) && WriteNext(h, s, AbandonWrite(w), s')
    ensures Good(h, s, s')
  {
    hide Sound, VolInv, View, Truthful, WriterOk;
    IdleCollection(h, s, w);
  }

  /** No collection runs beside a write. */
  lemma IdleCollection(h: Hasher, s: System, w: nat)
    requires Safe(h, s) && w in s.writers
    ensures s.collection.Inactive? && Effective(s) == s.disk
  {
    hide Sound, VolInv, View, Truthful, WritersOk;
  }

  lemma WriterMovesOn(h: Hasher, disk: Disk, writers: map<nat, Writer>, w: nat)
    requires WritersOk(h, disk, writers) && w in writers && writers[w].done < |BlocksToStore(writers[w].data)|
    requires h(NextBlock(writers[w])) in disk.index
    ensures WritersOk(h, disk, writers[w := writers[w].(done := writers[w].done + 1, stage := Ready)])
  {
    var writer := writers[w];
    assert WriterOk(h, disk, writer);
    OneMoreIndexed(h, disk.index, disk.index, BlocksToStore(writer.data), writer.done);
  }

  lemma CheckGood(h: Hasher, s: System, w: nat, s': System)
    requires Safe(h, s) && WriteNext(h, s, CheckIndex(w), s')
    ensures Good(h, s, s')
  {
    hide Sound, VolInv, View, Truthful, BlocksToStore, AllIndexed, ReadExact;
    var writer := s.writers[w];
    IdleCollection(h, s, w);
    assert WriterOk(h, s.disk, writer) && w in s'.writers;
    if h(NextBlock(writer)) in s.disk.index {
      hide WritersOk;
      WriterMovesOn(h, s.disk, s.writers, w);
    }
  }

  lemma AppendedWriters(h: Hasher, disk: Disk, writers: map<nat, Writer>, w: nat, block: ByteSeq)
    requires WritersOk(h, disk, writers) && w in writers && writers[w].done < |BlocksToStore(writers[w].data)|
    requires block == NextBlock(writers[w])
    ensures WritersOk(h, disk.(log := disk.log + Record(block)),
                      writers[w := writers[w].(stage := Logged(Loc(|disk.log| + 4, |block|)))])
  {
    hide BlocksToStore, AllIndexed, Record, ReadExact;
    var disk' := disk.(log := disk.log + Record(block));
    var writers' := writers[w := writers[w].(stage := Logged(Loc(|disk.log| + 4, |block|)))];
    AppendReads(disk.log, block, Loc(0, 0));
    forall x | x in writers' ensures WriterOk(h, disk', writers'[x]) {
      assert WriterOk(h, disk, writers[x]);
      if writers[x].stage.Logged? {
        AppendReads(disk.log, block, writers[x].stage.loc);
      }
    }
  }

  lemma AppendGood(h: Hasher, s: System, w: nat, s': System)
    requires Safe(h, s) && WriteNext(h, s, AppendRecord(w), s')
    ensures Good(h, s, s')
  {
    hide Sound, VolInv, View, Truthful, BlocksToStore, WritersOk, Record, StoredBlocks;
    IdleCollection(h, s, w);
    AppendedSound(h, s.disk, NextBlock(s.writers[w]));
    AppendedWriters(h, s.disk, s.writers, w, NextBlock(s.writers[w]));
    assert w in s'.writers;
  }

  lemma InsertedWriters(h: Hasher, disk: Disk, writers: map<nat, Writer>, w: nat, loc: Loc)
    requires WritersOk(h, disk, writers) && w in writers && writers[w].done < |BlocksToStore(writers[w].data)|
    ensures WritersOk(h, disk.(index := disk.index[h(NextBlock(writers[w])) := loc]),
                      writers[w := writers[w].(stage := Indexed)])
  {
    hide BlocksToStore, AllIndexed, ReadExact;
    var disk' := disk.(index := disk.index[h(NextBlock(writers[w])) := loc]);
    var writers' := writers[w := writers[w].(stage := Indexed)];
    forall x | x in writers' ensures WriterOk(h, disk', writers'[x]) {
      assert WriterOk(h, disk, writers[x]);
      StillIndexed(h, disk.index, disk'.index, BlocksToStore(writers[x].data), writers[x].done);
    }
  }

  lemma InsertGood(h: Hasher, s: System, w: nat, s': System)
    requires Safe(h, s) && WriteNext(h, s, InsertIndex(w), s')
    ensures Good(h, s, s')
  {
    hide Sound, VolInv, View, Truthful, BlocksToStore, AllIndexed, ReadExact, StoredBlocks;
    var writer := s.writers[w];
    IdleCollection(h, s, w);
    assert WriterOk(h, s.disk, writer) && w in s'.writers;
    hide WritersOk, WriterOk;
    InsertedSound(h, s.disk, writer.stage.loc, NextBlock(writer));
    InsertedWriters(h, s.disk, s.writers, w, writer.stage.loc);
    GrownVolume(h, Shown(s), Shown(s'), NextBlock(writer));
  }

  /** Storing one more block changes nothing that is shown. */
  lemma GrownVolume(h: Hasher, v: Vol, v': Vol, block: ByteSeq)
    requires VolInv(h, v) && v' == v.(blocks := v.blocks[h(block) := block])
    ensures VolInv(h, v') && KeepsViews(v, v')
  {
    TrimmedDisk(h, v, v');
  }

  lemma CachedStaysTruthful(h: Hasher, cache: map<Digest, ByteSeq>, readers: map<nat, Reader>, block: ByteSeq)
    requires Truthful(h, cache, readers)
    ensures Truthful(h, cache[h(block) := block], readers)
  {
  }

  lemma CachedGood(h: Hasher, s: System, w: nat, s': System)
    requires Safe(h, s) && WriteNext(h, s, CacheWritten(w), s')
    ensures Good(h, s, s')
  {
    hide Sound, VolInv, View, Truthful, BlocksToStore, AllIndexed, ReadExact;
    var writer := s.writers[w];
    var block := NextBlock(writer);
    IdleCollection(h, s, w);
    assert WriterOk(h, s.disk, writer) && h(block) in s.disk.index && w in s'.writers;
    hide WritersOk, WriterOk, NextBlock;
    WriterMovesOn(h, s.disk, s.writers, w);
    CachedStaysTruthful(h, s.cache, s.readers, block);
  }

  /** A finished write is the write of its data: all its blocks are stored by then. */
  lemma FinishIsWrite(h: Hasher, s: System, w: nat, s': System)
    requires Safe(h, s) && WriteNext(h, s, FinishWrite(w), s')
    ensures Step(h, Shown(s), Write(s.writers[w].p, s.writers[w].data), Shown(s'))
    ensures Shown(s') == Written(h, Shown(s), s.writers[w].p, s.writers[w].data).0
  {
    var Writer(p, data, done, _) := s.writers[w];
    IdleCollection(h, s, w);
    assert WriterOk(h, s.disk, s.writers[w]);
    hide View, WriteMeta, MakeFile, Chunks;
    var blocks := BlocksToStore(data);
    forall c | c in blocks ensures h(c) in Shown(s).blocks {
      var i :| 0 <= i < |blocks| && blocks[i] == c;
      assert h(blocks[i]) in s.disk.index;
      assert Intact(h, s.disk, h(c));
    }
    StoreAllPresent(h, Shown(s).blocks, blocks);
  }

  lemma FinishGood(h: Hasher, s: System, w: nat, s': System)
    requires Safe(h, s) && WriteNext(h, s, FinishWrite(w), s')
    ensures Good(h, s, s')
  {
    hide Sound, VolInv, View, Truthful, WriterOk, WriteMeta, MakeFile, Step, Written;
    IdleCollection(h, s, w);
    FinishIsWrite(h, s, w, s');
    SteppedVolume(h, Shown(s), Write(s.writers[w].p, s.writers[w].data), Shown(s'));
  }

  /** Every step of a write keeps the system safe, and only its commit shows. */
  lemma WriteGood(h: Hasher, s: System, e: Event, s': System)
    requires Safe(h, s) && WriteNext(h, s, e, s')
    ensures Good(h, s, s')
  {
    hide Safe, Good, BlocksToStore;
    match e
    case BeginWrite(w, p, data) => BeginGood(h, s, w, s');
    case CheckIndex(w) => CheckGood(h, s, w, s');
    case AppendRecord(w) => AppendGood(h, s, w, s');
    case InsertIndex(w) => InsertGood(h, s, w, s');
    case CacheWritten(w) => CachedGood(h, s, w, s');
    case FinishWrite(w) => FinishGood(h, s, w, s');
    case AbandonWrite(w) => AbandonGood(h, s, w, s');
  }

  // ---- collections ----

  lemma MarkGood(h: Hasher, s: System, s': System)
    requires Safe(h, s) && CollectNext(s, MarkLive, s')
    ensures Good(h, s, s')
  {
    hide Sound, View, Truthful, WritersOk, NeededSet;
    forall k | Needed(s.meta, k) ensures k in NeededSet(s.meta) {
      NeededSetIsNeeded(s.meta, k);
    }
  }

  /** The new log under its own index still holds everything anyone needs. */
  lemma SwapGood(h: Hasher, s: System, image: Disk, s': System)
    requires Safe(h, s) && CollectNext(s, SwapLog(image), s')
    ensures Good(h, s, s')
  {
    hide View, Truthful;
    assert Effective(s') == image;
    CompactedContents(h, s.disk, s.collection.live, image);
    TrimmedDisk(h, Shown(s), Shown(s'));
  }

  lemma ApplyGood(h: Hasher, s: System, s': System)
    requires Safe(h, s) && CollectNext(s, ApplyIndex, s')
    ensures Good(h, s, s') && s'.disk == Effective(s)
  {
    hide Sound, VolInv, View, Truthful;
    assert s'.disk.index == s.collection.fitting;
  }

  lemma HandoverGood(h: Hasher, s: System, e: Event, s': System)
    requires Safe(h, s) && CollectNext(s, e, s') && (e.BeginCollection? || e.AbandonCollection? || e.EvictDropped?)
    ensures Good(h, s, s')
  {
    hide Sound, VolInv, View, WritersOk;
  }

  /** Every stage of a collection keeps the system safe, and none of them shows. */
  lemma CollectGood(h: Hasher, s: System, e: Event, s': System)
    requires Safe(h, s) && CollectNext(s, e, s')
    ensures Good(h, s, s')
  {
    hide Safe, Good;
    match e
    case MarkLive => MarkGood(h, s, s');
    case SwapLog(image) => SwapGood(h, s, image, s');
    case ApplyIndex => ApplyGood(h, s, s');
    case _ => HandoverGood(h, s, e, s');
  }

  // ---- requests that take no gate ----

  lemma NeedsNoMore(m: Meta, m': Meta)
    requires Ordered(m.table) && Ordered(m'.table) && NoOtherFiles(m, m', None)
    ensures forall k | Needed(m', k) :: Needed(m, k)
  {
    forall k | Needed(m', k) ensures Needed(m, k) {
      var x :| Reachable(m', x) && x in m'.table && m'.table[x].File? && k in m'.table[x].blocks;
      assert Reachable(m, x) && m.table[x] == m'.table[x];
    }
  }

  /** The call an ungated request makes. */
  function CallOf(e: Event): Op
    requires e.MkdirNow? || e.RemoveNow? || e.RenameNow? || e.SnapshotNow? || e.RollbackNow?
  {
    match e
    case MkdirNow(p) => Mkdir(p)
    case RemoveNow(p) => Remove(p)
    case RenameNow(from, to) => Rename(from, to)
    case SnapshotNow(name) => Snapshot(name)
    case RollbackNow(name) => Rollback(name)
  }

  /** The key fact about ungated requests: none of them makes a block needed that was not. */
  lemma UngatedNeedsNoMore(s: System, e: Event, s': System)
    requires MetaInv(s.meta) && TreeNext(s, e, s')
    ensures MetaInv(s'.meta)
    ensures forall k | Needed(s'.meta, k) :: Needed(s.meta, k)
  {
    match e
    case MkdirNow(p) =>
      if p != [] {
        PlaceInv(s.meta, p, Dir(map[]));
        PlaceFiles(s.meta, p, Dir(map[]));
        NeedsNoMore(s.meta, s'.meta);
      }
    case RemoveNow(p) =>
      RemoveInv(s.meta, p);
      RemoveFiles(s.meta, p);
      NeedsNoMore(s.meta, s'.meta);
    case RenameNow(from, to) =>
      RenameInv(s.meta, from, to);
      RenameFiles(s.meta, from, to);
      NeedsNoMore(s.meta, s'.meta);
    case SnapshotNow(name) =>
      SnapshotInv(s.meta, name);
      SnapshotFiles(s.meta, name);
      NeedsNoMore(s.meta, s'.meta);
    case RollbackNow(name) =>
      RollbackInv(s.meta, name);
      RollbackFiles(s.meta, name);
      NeedsNoMore(s.meta, s'.meta);
  }

  lemma UngatedIsCall(h: Hasher, s: System, e: Event, s': System)
    requires TreeNext(s, e, s')
    ensures Step(h, Shown(s), CallOf(e), Shown(s'))
  {
    hide MkdirMeta, RemoveMeta, RenameMeta, SnapshotMeta, RollbackMeta, StoredBlocks;
  }

  lemma UngatedGood(h: Hasher, s: System, e: Event, s': System)
    requires Safe(h, s) && TreeNext(s, e, s')
    ensures Good(h, s, s')
  {
    UngatedNeedsNoMore(s, e, s');
    UngatedIsCall(h, s, e, s');
    hide Sound, VolInv, View, Truthful, WritersOk, Step, MkdirMeta, RemoveMeta, RenameMeta, SnapshotMeta,
         RollbackMeta, Needed, MetaInv, StoredBlocks;
    SteppedVolume(h, Shown(s), CallOf(e), Shown(s'));
  }

  // ---- reads and restarts ----

  lemma ReaderGood(h: Hasher, s: System, e: Event, s': System)
    requires Safe(h, s) && ReadNext(h, s, e, s')
    ensures Good(h, s, s')
  {
    hide Sound, VolInv, View, CollectionOk, WritersOk;
  }

  lemma CacheGood(h: Hasher, s: System, e: Event, s': System)
    requires Safe(h, s) && CacheNext(s, e, s')
    ensures Good(h, s, s')
  {
    hide Sound, VolInv, View, CollectionOk, WritersOk;
  }

  /** A restart loses what was in memory, ids handed out but not committed included, and nothing that shows. */
  lemma RestartGood(h: Hasher, s: System, s': System)
    requires Safe(h, s) && RestartNext(s, s')
    ensures Good(h, s, s')
  {
    hide Sound, VolInv, View;
    SteppedVolume(h, Shown(s), Reopen, Shown(s'));
  }

  /** Every event of every request, in any interleaving the gate allows, keeps the system safe and the views. */
  lemma NextGood(h: Hasher, s: System, e: Event, s': System)
    requires Safe(h, s) && Next(h, s, e, s')
    ensures Good(h, s, s')
  {
    hide Safe, Good, WriteNext, CollectNext, TreeNext, ReadNext, CacheNext, RestartNext;
    if WriteNext(h, s, e, s') {
      WriteGood(h, s, e, s');
    } else if CollectNext(s, e, s') {
      CollectGood(h, s, e, s');
    } else if TreeNext(s, e, s') {
      UngatedGood(h, s, e, s');
    } else if ReadNext(h, s, e, s') {
      ReaderGood(h, s, e, s');
    } else if CacheNext(s, e, s') {
      CacheGood(h, s, e, s');
    } else {
      RestartGood(h, s, s');
    }
  }

  // ---- reachable states ----

  ghost predicate Behaviour(h: Hasher, ss: seq<System>, es: seq<Event>) {
    |ss| == |es| + 1 && forall i | 0 <= i < |es| :: Next(h, ss[i], es[i], ss[i + 1])
  }

  /** All but the last step of a behaviour. */
  lemma BehaviourPrefix(h: Hasher, ss: seq<System>, es: seq<Event>)
    requires Behaviour(h, ss, es) && es != []
    ensures var n := |es| - 1; Behaviour(h, ss[..n + 1], es[..n]) && Next(h, ss[n], es[n], ss[n + 1])
  {
    hide Next;
    var n := |es| - 1;
    forall i | 0 <= i < n ensures Next(h, ss[..n + 1][i], es[..n][i], ss[..n + 1][i + 1]) {
      assert Next(h, ss[i], es[i], ss[i + 1]);
    }
  }

  lemma {:induction false} BehaviourSafe(h: Hasher, ss: seq<System>, es: seq<Event>)
    requires Behaviour(h, ss, es) && Safe(h, ss[0])
    ensures Safe(h, ss[|ss| - 1])
    decreases |es|
  {
    hide Safe, Next, KeepsViews;
    if es != [] {
      var n := |es| - 1;
      BehaviourPrefix(h, ss, es);
      BehaviourSafe(h, ss[..n + 1], es[..n]);
      NextGood(h, ss[n], es[n], ss[n + 1]);
    }
  }

  lemma VolumeStartsSafe(h: Hasher, meta: Meta, disk: Disk)
    requires Sound(h, disk) && VolInv(h, Vol(meta, StoredBlocks(disk)))
    ensures Safe(h, Quiescent(meta, disk))
  {
  }

  /**
   * No interleaving loses data: from any valid volume, in every state a run reaches, each block that the
   * live tree or any snapshot needs is indexed to a record whose bytes hash to it; between a collection's
   * log swap and its index batch, it is so by the index about to be applied.
   */
  lemma CollectionNeverLosesData(h: Hasher, ss: seq<System>, es: seq<Event>, meta: Meta, disk: Disk, k: Digest)
    requires Sound(h, disk) && VolInv(h, Vol(meta, StoredBlocks(disk)))
    requires Behaviour(h, ss, es) && ss[0] == Quiescent(meta, disk)
    ensures var s := ss[|ss| - 1];
            Ordered(s.meta.table) && (Needed(s.meta, k) ==> Intact(h, Effective(s), k))
  {
    hide Next;
    VolumeStartsSafe(h, meta, disk);
    BehaviourSafe(h, ss, es);
    var s := ss[|ss| - 1];
    if Needed(s.meta, k) {
      NeededIsStored(h, Shown(s), k);
    }
  }

  /**
   * No interleaving answers wrong bytes: whatever a block read races with, the outcome is the bytes that
   * were put under that address, or an error.
   */
  lemma ReadsAreTruthful(h: Hasher, ss: seq<System>, es: seq<Event>, meta: Meta, disk: Disk, r: nat, put: ByteSeq)
    requires Sound(h, disk) && VolInv(h, Vol(meta, StoredBlocks(disk)))
    requires Behaviour(h, ss, es) && ss[0] == Quiescent(meta, disk)
    requires var s := ss[|ss| - 1];
             r in s.readers && s.readers[r].Answered? && s.readers[r].k == h(put) && s.readers[r].answer.Ok?
    ensures ss[|ss| - 1].readers[r].answer == Ok(put)
  {
    hide Next;
    VolumeStartsSafe(h, meta, disk);
    BehaviourSafe(h, ss, es);
  }

  // ---- what anyone sees ----

  lemma WriteKeepsSnapshots(h: Hasher, s: System, e: Event, s': System)
    requires WriteNext(h, s, e, s')
    ensures s'.meta.snaps == s.meta.snaps
  {
    hide Rebuild, MakeFile, BlocksToStore, Record, NextBlock;
  }

  lemma ReadKeepsMeta(h: Hasher, s: System, e: Event, s': System)
    requires ReadNext(h, s, e, s') || CacheNext(s, e, s') || CollectNext(s, e, s')
    ensures s'.meta == s.meta
  {
    hide NeededSet, Compacted, ReadExact;
  }

  lemma TreeKeepsSnapshot(s: System, e: Event, s': System, name: string)
    requires TreeNext(s, e, s') && name in s.meta.snaps && e != SnapshotNow(name)
    ensures name in s'.meta.snaps && s'.meta.snaps[name] == s.meta.snaps[name]
  {
    hide Rebuild, Resolve;
  }

  /** Only retaking a snapshot changes where it points. */
  lemma SnapshotKeptBy(h: Hasher, s: System, e: Event, s': System, name: string)
    requires Next(h, s, e, s') && name in s.meta.snaps && e != SnapshotNow(name)
    ensures name in s'.meta.snaps && s'.meta.snaps[name] == s.meta.snaps[name]
  {
    hide WriteNext, CollectNext, TreeNext, ReadNext, CacheNext;
    if WriteNext(h, s, e, s') {
      WriteKeepsSnapshots(h, s, e, s');
    } else if TreeNext(s, e, s') {
      TreeKeepsSnapshot(s, e, s', name);
    } else if ReadNext(h, s, e, s') || CacheNext(s, e, s') || CollectNext(s, e, s') {
      ReadKeepsMeta(h, s, e, s');
    }
  }

  /** Over any interleaving that does not retake it, a snapshot pins what every path shows under its root. */
  lemma {:induction false} SnapshotPinnedThroughout(
    h: Hasher, ss: seq<System>, es: seq<Event>, name: string, p: Path)
    requires Behaviour(h, ss, es) && Safe(h, ss[0]) && name in ss[0].meta.snaps
    requires forall e | e in es :: e != SnapshotNow(name)
    ensures var s, root := ss[|ss| - 1], ss[0].meta.snaps[name].root;
            && name in s.meta.snaps && s.meta.snaps[name] == ss[0].meta.snaps[name]
            && View(Shown(s), root, p) == View(Shown(ss[0]), root, p)
    decreases |es|
  {
    hide Next, Safe, View, Shown;
    if es != [] {
      var n := |es| - 1;
      BehaviourPrefix(h, ss, es);
      BehaviourSafe(h, ss[..n + 1], es[..n]);
      assert forall e | e in es[..n] :: e in es;
      SnapshotPinnedThroughout(h, ss[..n + 1], es[..n], name, p);
      NextGood(h, ss[n], es[n], ss[n + 1]);
      assert es[n] in es;
      SnapshotKeptBy(h, ss[n], es[n], ss[n + 1], name);
      SnapshotRoot(h, ss[n], name);
    }
  }

  lemma SnapshotRoot(h: Hasher, s: System, name: string)
    requires name in s.meta.snaps
    ensures Shown(s).meta == s.meta && s.meta.snaps[name].root in Roots(s.meta)
  {
  }

  /**
   * Snapshots are permanent under every interleaving the gate allows: after a snapshot, any behaviour of
   * concurrent writes, reads, collections, renames, restarts and other snapshots, and a rollback, every path
   * shows, byte for byte, what it showed when the snapshot was taken.
   */
  lemma SnapshotsSurviveInterleaving(
    h: Hasher, s: System, name: string, ss: seq<System>, es: seq<Event>, s': System, p: Path)
    requires Safe(h, s) && ss != [] && TreeNext(s, SnapshotNow(name), ss[0])
    requires Behaviour(h, ss, es) && forall e | e in es :: e != SnapshotNow(name)
    requires TreeNext(ss[|ss| - 1], RollbackNow(name), s')
    ensures Live(Shown(s'), p) == Live(Shown(s), p)
  {
    hide Next, Safe, NodeOf, Resolve, Behaviour, StoredBlocks;
    var last := ss[|ss| - 1];
    UngatedGood(h, s, SnapshotNow(name), ss[0]);
    SnapshotPinnedThroughout(h, ss, es, name, p);
    BehaviourSafe(h, ss, es);
    UngatedGood(h, last, RollbackNow(name), s');
    SnapshotRoot(h, last, name);
  }

  /** A finished write shows its data at its path, folders above it, and every other path as it was. */
  lemma FinishedWriteShows(h: Hasher, s: System, w: nat, s': System, q: Path)
    requires Safe(h, s) && WriteNext(h, s, FinishWrite(w), s')
    requires WriteMeta(s.meta, s.writers[w].p, MakeFile(h, s.writers[w].data)).result.Ok?
    ensures Live(Shown(s'), q)
            == Overlaid(s.writers[w].p, Document(s.writers[w].data), q, Live(Shown(s), q))
  {
    hide Resolve, Rebuild, MakeFile, NodeOf, Sound, VolInv, WithData;
    FinishIsWrite(h, s, w, s');
    WriteShows(h, Shown(s), s.writers[w].p, s.writers[w].data, q);
  }

  /** What is on disk at any moment outside a swap window can be opened again, into the volume that showed. */
  lemma RestartMounts(h: Hasher, ss: seq<System>, es: seq<Event>, meta: Meta, disk: Disk)
    requires Sound(h, disk) && VolInv(h, Vol(meta, StoredBlocks(disk)))
    requires Behaviour(h, ss, es) && ss[0] == Quiescent(meta, disk) && !ss[|ss| - 1].collection.Swapped?
    ensures var s := ss[|ss| - 1];
            var image := Image(s.disk, s.meta.table, Some(s.meta.committed), s.meta.snaps);
            && Mountable(h, image)
            && Opened(image) == ReopenMeta(s.meta)
            && forall p :: Live(Vol(Opened(image), StoredBlocks(image.disk)), p) == Live(Shown(s), p)
  {
    hide Next, Resolve, NodeOf, StoredBlocks;
    VolumeStartsSafe(h, meta, disk);
    BehaviourSafe(h, ss, es);
    var s := ss[|ss| - 1];
    RestartGood(h, s, Quiescent(ReopenMeta(s.meta), s.disk));
  }

  // ---- reads are answered ----

  /** A reader's location still holds bytes with the address it is after. */
  ghost predicate Points(h: Hasher, s: System, r: nat) {
    && r in s.readers && s.readers[r].Located?
    && var b := ReadExact(s.disk.log, s.readers[r].loc); b.Some? && h(b.value) == s.readers[r].k
  }

  ghost predicate LogOnlyGrows(s: System, s': System) {
    s'.disk.log == s.disk.log || exists block :: s'.disk.log == s.disk.log + Record(block)
  }

  lemma WriteGrowsLog(h: Hasher, s: System, e: Event, s': System)
    requires WriteNext(h, s, e, s')
    ensures LogOnlyGrows(s, s')
  {
    hide Record, BlocksToStore, WriteMeta;
    if e.AppendRecord? {
      assert s'.disk.log == s.disk.log + Record(NextBlock(s.writers[e.w]));
    }
  }

  lemma ReadKeepsLog(h: Hasher, s: System, e: Event, s': System)
    requires ReadNext(h, s, e, s') || CacheNext(s, e, s')
    ensures s'.disk.log == s.disk.log
  {
  }

  lemma OthersKeepLog(s: System, e: Event, s': System)
    requires (CollectNext(s, e, s') && !e.SwapLog?) || TreeNext(s, e, s')
    ensures s'.disk.log == s.disk.log
  {
    hide NeededSet, RenameMeta, RemoveMeta, MkdirMeta, SnapshotMeta, RollbackMeta;
  }

  /** Only storing a block and swapping in a compacted log change the log. */
  lemma LogGrows(h: Hasher, s: System, e: Event, s': System)
    requires Next(h, s, e, s') && !e.SwapLog? && !e.Restart?
    ensures LogOnlyGrows(s, s')
  {
    hide WriteNext, CollectNext, TreeNext, ReadNext, CacheNext;
    if WriteNext(h, s, e, s') {
      WriteGrowsLog(h, s, e, s');
    } else if ReadNext(h, s, e, s') || CacheNext(s, e, s') {
      ReadKeepsLog(h, s, e, s');
    } else {
      OthersKeepLog(s, e, s');
    }
  }

  /** Nothing but a collection's log swap can pull a location from under a read. */
  lemma StillPoints(h: Hasher, s: System, e: Event, s': System, r: nat)
    requires Next(h, s, e, s') && Points(h, s, r) && !e.SwapLog? && !e.Restart?
    requires r in s'.readers && s'.readers[r] == s.readers[r]
    ensures Points(h, s', r)
  {
    hide Next, ReadExact, Record;
    LogGrows(h, s, e, s');
    if block :| s'.disk.log == s.disk.log + Record(block) {
      AppendReads(s.disk.log, block, s.readers[r].loc);
    }
  }

  lemma LookUpPoints(h: Hasher, s: System, s': System, r: nat)
    requires r in s.readers && s.readers[r].Missed?
    requires Safe(h, s) && ReadNext(h, s, LookUp(r), s') && !s.collection.Swapped?
    requires s.readers[r].k in s.disk.index
    ensures Points(h, s', r)
  {
    assert Intact(h, s.disk, s.readers[r].k);
  }

  lemma {:induction false} PointsThroughout(h: Hasher, ss: seq<System>, es: seq<Event>, r: nat)
    requires Behaviour(h, ss, es) && Points(h, ss[0], r)
    requires forall e | e in es :: !e.SwapLog? && !e.Restart?
    requires forall s | s in ss :: r in s.readers && s.readers[r] == ss[0].readers[r]
    ensures Points(h, ss[|ss| - 1], r)
    decreases |es|
  {
    hide Next, Points;
    if es != [] {
      var n := |es| - 1;
      BehaviourPrefix(h, ss, es);
      PointsThroughout(h, ss[..n + 1], es[..n], r);
      assert es[n] in es && ss[n] in ss && ss[n + 1] in ss;
      StillPoints(h, ss[n], es[n], ss[n + 1], r);
    }
  }

  /**
   * A read that finds its block in the index is answered with its bytes, whatever writes, removals, snapshots
   * and other reads come between its steps, unless a collection swaps the log in between.
   */
  lemma UndisturbedReadSucceeds(h: Hasher, s: System, ss: seq<System>, es: seq<Event>, s': System, r: nat)
    requires r in s.readers && s.readers[r].Missed? && s.readers[r].k in s.disk.index
    requires Safe(h, s) && !s.collection.Swapped? && ss != [] && ReadNext(h, s, LookUp(r), ss[0])
    requires Behaviour(h, ss, es) && forall e | e in es :: !e.SwapLog? && !e.Restart?
    requires r in ss[0].readers && forall t | t in ss :: r in t.readers && t.readers[r] == ss[0].readers[r]
    requires r in s'.readers && ReadNext(h, ss[|ss| - 1], ReadLog(r), s')
    ensures s'.readers[r].Loaded? && s'.readers[r].k == s.readers[r].k && h(s'.readers[r].bytes) == s.readers[r].k
  {
    hide Next, Safe;
    LookUpPoints(h, s, ss[0], r);
    PointsThroughout(h, ss, es, r);
    assert ss[0] in ss && ss[|ss| - 1] in ss;
  }

  // ---- what can always go on ----

  lemma BehaviourCons(h: Hasher, s: System, e: Event, ss: seq<System>, es: seq<Event>)
    requires Behaviour(h, ss, es) && Next(h, s, e, ss[0])
    ensures Behaviour(h, [s] + ss, [e] + es) && ([s] + ss)[|ss|] == ss[|ss| - 1]
  {
    hide Next;
    var ss', es' := [s] + ss, [e] + es;
    forall i | 0 <= i < |es'| ensures Next(h, ss'[i], es'[i], ss'[i + 1]) {
      if i > 0 {
        assert ss'[i] == ss[i - 1] && es'[i] == es[i - 1] && ss'[i + 1] == ss[i];
      }
    }
  }

  /** A step of a write that no other step has to come before. */
  lemma WriterCanMove(h: Hasher, s: System, w: nat) returns (e: Event, s': System)
    requires w in s.writers && s.writers[w].done <= |BlocksToStore(s.writers[w].data)|
    requires s.writers[w].stage.Ready? ==> s.writers[w].done < |BlocksToStore(s.writers[w].data)|
    requires !s.writers[w].stage.Ready? ==> s.writers[w].done < |BlocksToStore(s.writers[w].data)|
    ensures WriteNext(h, s, e, s') && !e.FinishWrite? && !e.AbandonWrite?
    ensures s'.meta == s.meta && s'.collection == s.collection && w in s'.writers
    ensures s'.writers == s.writers[w := s'.writers[w]]
    ensures s'.writers[w].p == s.writers[w].p && s'.writers[w].data == s.writers[w].data
    ensures s'.writers[w].done <= |BlocksToStore(s.writers[w].data)|
    ensures !s'.writers[w].stage.Ready? ==> s'.writers[w].done < |BlocksToStore(s.writers[w].data)|
    ensures StepsLeft(s'.writers[w]) < StepsLeft(s.writers[w])
  {
    hide BlocksToStore, Record;
    var writer := s.writers[w];
    var block := NextBlock(writer);
    match writer.stage
    case Ready =>
      e := CheckIndex(w);
      s' := s.(writers := s.writers[w :=
        if h(block) in s.disk.index then writer.(done := writer.done + 1) else writer.(stage := Missing)]);
    case Missing =>
      e := AppendRecord(w);
      s' := s.(disk := s.disk.(log := s.disk.log + Record(block)),
               writers := s.writers[w := writer.(stage := Logged(Loc(|s.disk.log| + 4, |block|)))]);
    case Logged(loc) =>
      e := InsertIndex(w);
      s' := s.(disk := s.disk.(index := s.disk.index[h(block) := loc]),
               writers := s.writers[w := writer.(stage := Indexed)]);
    case Indexed =>
      e := CacheWritten(w);
      s' := s.(cache := s.cache[h(block) := block],
               writers := s.writers[w := writer.(done := writer.done + 1, stage := Ready)]);
  }

  /** At most how many steps are left before the commit. */
  function StepsLeft(writer: Writer): int {
    4 * (|BlocksToStore(writer.data)| - writer.done)
    - match writer.stage case Ready => 0 case Missing => 1 case Logged(_) => 2 case Indexed => 3
  }

  /** A write under way can always go on to its commit, whatever else is under way. */
  lemma {:induction false} WriteCanFinish(h: Hasher, s: System, w: nat) returns (ss: seq<System>, es: seq<Event>)
    requires w in s.writers && s.writers[w].done <= |BlocksToStore(s.writers[w].data)|
    requires !s.writers[w].stage.Ready? ==> s.writers[w].done < |BlocksToStore(s.writers[w].data)|
    ensures Behaviour(h, ss, es) && ss[0] == s && es != [] && es[|es| - 1] == FinishWrite(w)
    ensures var last, writer := ss[|ss| - 1], s.writers[w];
            && last.meta == WriteMeta(s.meta, writer.p, MakeFile(h, writer.data)).meta
            && last.writers == s.writers - {w} && last.collection == s.collection
    decreases StepsLeft(s.writers[w])
  {
    hide BlocksToStore, WriteMeta, MakeFile;
    var writer := s.writers[w];
    if writer.stage.Ready? && writer.done == |BlocksToStore(writer.data)| {
      var s' := s.(meta := WriteMeta(s.meta, writer.p, MakeFile(h, writer.data)).meta, writers := s.writers - {w});
      assert WriteNext(h, s, FinishWrite(w), s');
      ss, es := [s, s'], [FinishWrite(w)];
    } else {
      var e, s' := WriterCanMove(h, s, w);
      hide WriteNext;
      var rest, more := WriteCanFinish(h, s', w);
      BehaviourCons(h, s, e, rest, more);
      ss, es := [s] + rest, [e] + more;
      assert s'.writers - {w} == s.writers - {w};
    }
  }

  /** Whenever no collection is under way, a write can begin, and come to show its data. */
  lemma WriteCanBegin(h: Hasher, s: System, w: nat, p: Path, data: ByteSeq) returns (ss: seq<System>, es: seq<Event>)
    requires w !in s.writers && p != [] && s.collection.Inactive?
    ensures Behaviour(h, ss, es) && ss[0] == s && es != [] && es[0] == BeginWrite(w, p, data)
    ensures ss[|ss| - 1].meta == WriteMeta(s.meta, p, MakeFile(h, data)).meta && ss[|ss| - 1].writers == s.writers
  {
    hide BlocksToStore, WriteMeta, MakeFile;
    var s' := s.(writers := s.writers[w := Writer(p, data, 0, Ready)]);
    assert WriteNext(h, s, BeginWrite(w, p, data), s');
    hide WriteNext;
    var rest, more := WriteCanFinish(h, s', w);
    BehaviourCons(h, s, BeginWrite(w, p, data), rest, more);
    ss, es := [s] + rest, [BeginWrite(w, p, data)] + more;
    assert s'.writers - {w} == s.writers;
  }

  lemma CollectStep(h: Hasher, s: System, e: Event, ss: seq<System>, es: seq<Event>)
    requires Behaviour(h, ss, es) && CollectNext(s, e, ss[0])
    ensures Behaviour(h, [s] + ss, [e] + es) && ([s] + ss)[|ss|] == ss[|ss| - 1]
  {
    hide CollectNext;
    BehaviourCons(h, s, e, ss, es);
  }

  /** A marked collection can always go on to its end. */
  lemma CollectionCanFinish(h: Hasher, s: System, live: set<Digest>, image: Disk)
    returns (ss: seq<System>, es: seq<Event>)
    requires s.collection == Marked(live) && Compacted(s.disk, live, image)
    ensures Behaviour(h, ss, es) && ss[0] == s
    ensures var last := ss[|ss| - 1];
            && last.collection.Inactive? && last.meta == s.meta && last.writers == s.writers
            && last.disk.log == image.log && last.disk.index.Keys == s.disk.index.Keys * live
  {
    CompactedKeys(s.disk, live, image);
    hide Compacted, Behaviour;
    var dropped := s.disk.index.Keys - live;
    var s1 := s.(disk := s.disk.(log := image.log), collection := Swapped(live, image.index));
    var s2 := s1.(disk := s1.disk.(index := (s.disk.index + image.index) - dropped), collection := Evicting(dropped));
    var s3 := s2.(cache := s.cache - dropped, collection := Inactive);
    BehaviourNone(h, s3);
    CollectStep(h, s2, EvictDropped, [s3], []);
    CollectStep(h, s1, ApplyIndex, [s2, s3], [EvictDropped]);
    CollectStep(h, s, SwapLog(image), [s1, s2, s3], [ApplyIndex, EvictDropped]);
    ss, es := [s] + [s1, s2, s3], [SwapLog(image)] + [ApplyIndex, EvictDropped];
    assert [s1] + [s2, s3] == [s1, s2, s3] && [ApplyIndex] + [EvictDropped] == [ApplyIndex, EvictDropped];
    assert [s2] + [s3] == [s2, s3] && [EvictDropped] + [] == [EvictDropped];
  }

  lemma BehaviourNone(h: Hasher, s: System)
    ensures Behaviour(h, [s], [])
  {
  }

  /** Whenever nothing is being written and no collection is under way, one can run, and keeps just what is needed. */
  lemma CollectionCanRun(h: Hasher, s: System) returns (ss: seq<System>, es: seq<Event>)
    requires Safe(h, s) && s.collection.Inactive? && s.writers == map[]
    ensures Behaviour(h, ss, es) && ss[0] == s && es != [] && es[0] == BeginCollection
    ensures var last := ss[|ss| - 1];
            && last.collection.Inactive? && last.meta == s.meta && last.writers == map[]
            && Ordered(s.meta.table) && last.disk.index.Keys == s.disk.index.Keys * NeededSet(s.meta)
  {
    assert Ordered(s.meta.table) && Sound(h, s.disk);
    hide Safe, NeededSet, Compacted, Sound, LiveDamage, Behaviour, Ordered;
    var live := NeededSet(s.meta);
    SoundIsUndamaged(h, s.disk, live);
    var image := CompactionExists(s.disk, live);
    var s1 := s.(collection := Started);
    var s2 := s1.(collection := Marked(live));
    var rest, more := CollectionCanFinish(h, s2, live, image);
    CollectStep(h, s1, MarkLive, rest, more);
    CollectStep(h, s, BeginCollection, [s1] + rest, [MarkLive] + more);
    ss, es := [s] + ([s1] + rest), [BeginCollection] + ([MarkLive] + more);
  }

  lemma CompactedKeys(d: Disk, live: set<Digest>, image: Disk)
    requires Compacted(d, live, image)
    ensures image.index.Keys == d.index.Keys * live
  {
  }

  /** A request that takes no gate can always run, and outside a swap window so can a restart. */
  lemma UngatedCanRun(h: Hasher, s: System, e: Event) returns (s': System)
    requires e.MkdirNow? || e.RemoveNow? || e.RenameNow? || e.SnapshotNow? || e.RollbackNow? || e.Restart?
    requires e.Restart? ==> !s.collection.Swapped?
    ensures Next(h, s, e, s')
    ensures Step(h, Shown(s), if e.Restart? then Reopen else CallOf(e), Shown(s'))
  {
    hide MkdirMeta, RemoveMeta, RenameMeta, SnapshotMeta, RollbackMeta, StoredBlocks;
    s' := match e
      case MkdirNow(p) => s.(meta := MkdirMeta(s.meta, p).meta)
      case RemoveNow(p) => s.(meta := RemoveMeta(s.meta, p).meta)
      case RenameNow(from, to) => s.(meta := RenameMeta(s.meta, from, to).meta)
      case SnapshotNow(name) => s.(meta := SnapshotMeta(s.meta, name))
      case RollbackNow(name) => s.(meta := RollbackMeta(s.meta, name).meta)
      case _ => Quiescent(ReopenMeta(s.meta), s.disk);
    hide WriteNext, CollectNext, ReadNext, CacheNext;
  }
}
