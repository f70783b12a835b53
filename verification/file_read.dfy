/**
 * Whole-file reads under concurrent requests. A read takes no gate: it takes the root, walks down the path one
 * inode at a time, opens the file's inode and fetches its blocks one after the other, and every other request may
 * come between any two of these steps and within each block fetch.
 */
module FileReads {
  import opened Prelude
  import opened Bytes
  import opened Digests
  import opened Paths
  import opened Inodes
  import opened Metadata
  import opened BlockLogs
  import opened Contents
  import opened Volumes
  import opened Marking
  import opened Gate

  /** How far a file read has come. */
  datatype Progress =
    | Walking(id: nat, rest: Path)
    | Fetching(left: seq<Digest>, out: ByteSeq)
    | Awaiting(left: seq<Digest>, out: ByteSeq, slot: nat)  // block read `slot` fetches the first one left
    | Finished(answer: Result<ByteSeq>)

  datatype State = State(sys: System, files: map<nat, Progress>)

  datatype Move =
    | Start(f: nat, p: Path)
    | Walk(f: nat)
    | Open(f: nat)
    | Ask(f: nat, slot: nat)
    | Take(f: nat)
    | Other(e: Event)

  /** One component further down, by the inode the table has now. */
  function Walked(t: Table, id: nat, rest: Path): Progress
    requires rest != []
  {
    if id !in t then Finished(Err(Dangling))
    else
      match t[id]
      case File(_, _, _) => Finished(Err(NotADirectory))
      case Dir(entries) =>
        if rest[0] in entries then Walking(entries[rest[0]], rest[1..]) else Finished(Err(NoSuchComponent))
  }

  function Opened(t: Table, id: nat): Progress {
    if id !in t then Finished(Err(Dangling))
    else
      match t[id]
      case Dir(_) => Finished(Err(IsADirectory))
      case File(_, blocks, inline) => if blocks == [] then Finished(Ok(inline)) else Fetching(blocks, [])
  }

  /** One block's answer: the first error is the file's. */
  function Taken(left: seq<Digest>, out: ByteSeq, answer: Result<ByteSeq>): Progress
    requires left != []
  {
    match answer
    case Err(e) => Finished(Err(e))
    case Ok(b) => if |left| == 1 then Finished(Ok(out + b)) else Fetching(left[1..], out + b)
  }

  ghost predicate Moves(h: Hasher, s: State, m: Move, s': State) {
    match m
    case Start(f, p) =>
      f !in s.files && s' == s.(files := s.files[f := Walking(s.sys.meta.sb.root, p)])
    case Walk(f) =>
      f in s.files && s.files[f].Walking? && s.files[f].rest != [] &&
      s' == s.(files := s.files[f := Walked(s.sys.meta.table, s.files[f].id, s.files[f].rest)])
    case Open(f) =>
      f in s.files && s.files[f].Walking? && s.files[f].rest == [] &&
      s' == s.(files := s.files[f := Opened(s.sys.meta.table, s.files[f].id)])
    case Ask(f, slot) =>
      f in s.files && s.files[f].Fetching? && s.files[f].left != [] &&
      ReadNext(h, s.sys, BeginRead(slot, s.files[f].left[0]), s'.sys) &&
      s'.files == s.files[f := Awaiting(s.files[f].left, s.files[f].out, slot)]
    case Take(f) =>
      f in s.files && s.files[f].Awaiting? && s.files[f].left != [] &&
      s.files[f].slot in s.sys.readers && s.sys.readers[s.files[f].slot].Answered? &&
      s' == s.(files := s.files[f :=
        Taken(s.files[f].left, s.files[f].out, s.sys.readers[s.files[f].slot].answer)])
    case Other(e) =>
      Next(h, s.sys, e, s'.sys) && s'.files == if e.Restart? then map[] else s.files
  }

  ghost predicate Races(h: Hasher, ss: seq<State>, ms: seq<Move>) {
    |ss| == |ms| + 1 && forall i | 0 <= i < |ms| :: Moves(h, ss[i], ms[i], ss[i + 1])
  }

  lemma RacesPrefix(h: Hasher, ss: seq<State>, ms: seq<Move>)
    requires Races(h, ss, ms) && ms != []
    ensures var n := |ms| - 1; Races(h, ss[..n + 1], ms[..n]) && Moves(h, ss[n], ms[n], ss[n + 1])
  {
    hide Moves;
    var n := |ms| - 1;
    forall i | 0 <= i < n ensures Moves(h, ss[..n + 1][i], ms[..n][i], ss[..n + 1][i + 1]) {
      assert Moves(h, ss[i], ms[i], ss[i + 1]);
    }
  }

  // ---- what does not change under a read ----

  /** Inodes handed out so far stay as they are, and ids are only handed out upwards. */
  ghost predicate Kept(m: Meta, m': Meta) {
    Agree(m.table, m'.table, m.sb.next) && m.sb.next <= m'.sb.next
  }

  lemma CallKeeps(h: Hasher, v: Vol, op: Op, v': Vol)
    requires VolInv(h, v) && Step(h, v, op, v') && !op.Reopen?
    ensures Kept(v.meta, v'.meta)
  {
    hide Step;
    StepPreserves(h, v, op, v');
  }

  lemma WriteKeepsInodes(h: Hasher, s: System, e: Event, s': System)
    requires Safe(h, s) && WriteNext(h, s, e, s')
    ensures Kept(s.meta, s'.meta)
  {
    hide Sound, VolInv, WritersOk, Truthful, CollectionOk, WriteMeta, MakeFile, Step, Written, BlocksToStore, Record;
    if e.FinishWrite? {
      FinishIsWrite(h, s, e.w, s');
      CallKeeps(h, Shown(s), Write(s.writers[e.w].p, s.writers[e.w].data), Shown(s'));
    }
  }

  /** No request but a restart touches an inode that has been handed out. */
  lemma NextKeeps(h: Hasher, s: System, e: Event, s': System)
    requires Safe(h, s) && Next(h, s, e, s') && !e.Restart?
    ensures Kept(s.meta, s'.meta)
  {
    hide Sound, VolInv, WritersOk, Truthful, CollectionOk, WriteNext, CollectNext, TreeNext, ReadNext, CacheNext, Step;
    if WriteNext(h, s, e, s') {
      WriteKeepsInodes(h, s, e, s');
    } else if TreeNext(s, e, s') {
      UngatedCall(s, e, s');
      UngatedIsCall(h, s, e, s');
      CallKeeps(h, Shown(s), CallOf(e), Shown(s'));
    } else {
      ReadKeepsMeta(h, s, e, s');
    }
  }

  lemma UngatedCall(s: System, e: Event, s': System)
    requires TreeNext(s, e, s')
    ensures e.MkdirNow? || e.RemoveNow? || e.RenameNow? || e.SnapshotNow? || e.RollbackNow?
    ensures !CallOf(e).Reopen?
  {
  }

  /** The ways fetching a block can fail. */
  predicate IsBlockFault(e: Error) {
    e.BlockNotFound? || e.ShortRead? || e.IntegrityFailure?
  }

  predicate Plausible(reader: Reader) {
    reader.Answered? && reader.answer.Err? ==> IsBlockFault(reader.answer.error)
  }

  lemma WriteKeepsReaders(h: Hasher, s: System, e: Event, s': System)
    requires WriteNext(h, s, e, s')
    ensures s'.readers == s.readers
  {
    hide WriteMeta, MakeFile, BlocksToStore, Record, AtBlock, NextBlock;
  }

  lemma OthersKeepReaders(s: System, e: Event, s': System)
    requires CollectNext(s, e, s') || TreeNext(s, e, s')
    ensures s'.readers == s.readers
  {
    hide MkdirMeta, RemoveMeta, RenameMeta, SnapshotMeta, RollbackMeta, NeededSet, Compacted;
  }

  /** A block read is for the address it was begun for, and fails only as block reads do. */
  lemma ReaderKept(h: Hasher, s: System, e: Event, s': System, r: nat)
    requires Next(h, s, e, s') && !e.Restart? && r in s.readers && Plausible(s.readers[r])
    ensures r in s'.readers && s'.readers[r].k == s.readers[r].k && Plausible(s'.readers[r])
  {
    hide WriteNext, CollectNext, TreeNext, ReadExact;
    if WriteNext(h, s, e, s') {
      WriteKeepsReaders(h, s, e, s');
    } else if CollectNext(s, e, s') || TreeNext(s, e, s') {
      OthersKeepReaders(s, e, s');
    }
  }

  // ---- what a read's answer means ----

  /** The right answer, or the fault of a block read in place of a document's bytes. */
  predicate Explained(shown: Result<Node>, answer: Result<ByteSeq>) {
    answer == AnswerTo(shown) || (AnswerTo(shown).Ok? && answer.Err? && IsBlockFault(answer.error))
  }

  /** The bytes so far, with those of the blocks left as they were when the read started, are what the path showed. */
  ghost predicate Pending(start: System, p: Path, left: seq<Digest>, out: ByteSeq) {
    var whole := Gather(Shown(start).blocks, left);
    left != [] && whole.Ok? && Live(Shown(start), p) == Ok(Document(out + whole.value))
  }

  /** A read started in `start` is still after what its path showed then. */
  ghost predicate Follows(start: System, p: Path, sys: System, read: Progress) {
    match read
    case Walking(id, rest) =>
      && id < start.meta.sb.next
      && Resolve(start.meta.table, start.meta.sb.root, p) == Resolve(start.meta.table, id, rest)
    case Fetching(left, out) => Pending(start, p, left, out)
    case Awaiting(left, out, slot) =>
      && Pending(start, p, left, out)
      && slot in sys.readers && sys.readers[slot].k == left[0] && Plausible(sys.readers[slot])
    case Finished(answer) => Explained(Live(Shown(start), p), answer)
  }

  /** If it is finished, it has the right answer. */
  ghost predicate Exact(start: System, p: Path, read: Progress) {
    read.Finished? ==> read.answer == AnswerTo(Live(Shown(start), p))
  }

  lemma SameInode(start: System, sys: System, id: nat)
    requires MetaInv(start.meta) && Kept(start.meta, sys.meta) && id < start.meta.sb.next
    ensures id in start.meta.table && id in sys.meta.table && sys.meta.table[id] == start.meta.table[id]
  {
  }

  lemma WalkFollows(start: System, p: Path, sys: System, id: nat, rest: Path)
    requires MetaInv(start.meta) && Kept(start.meta, sys.meta) && rest != []
    requires Follows(start, p, sys, Walking(id, rest))
    ensures Follows(start, p, sys, Walked(sys.meta.table, id, rest))
    ensures Exact(start, p, Walked(sys.meta.table, id, rest))
  {
    hide StoredBlocks;
    SameInode(start, sys, id);
  }

  /** What a live file's inode refers to is all there when the read starts. */
  lemma LiveFileGathers(h: Hasher, start: System, p: Path, id: nat)
    requires VolInv(h, Shown(start)) && Resolve(start.meta.table, start.meta.sb.root, p) == Ok(id)
    requires id in start.meta.table && start.meta.table[id].File?
    ensures GoodFile(Shown(start).blocks, start.meta.table[id])
  {
    hide GoodFile;
    PathReaches(start.meta.table, start.meta.sb.root, p);
    assert start.meta.sb.root in Roots(start.meta);
    assert Reachable(start.meta, id);
  }

  lemma OpenFollows(h: Hasher, start: System, p: Path, sys: System, id: nat)
    requires VolInv(h, Shown(start)) && Kept(start.meta, sys.meta)
    requires Follows(start, p, sys, Walking(id, []))
    ensures Follows(start, p, sys, Opened(sys.meta.table, id)) && Exact(start, p, Opened(sys.meta.table, id))
  {
    SameInode(start, sys, id);
    hide VolInv, Kept, StoredBlocks;
    var inode := start.meta.table[id];
    if inode.File? {
      LiveFileGathers(h, start, p, id);
      var whole := Gather(Shown(start).blocks, inode.blocks);
      assert whole.Ok? ==> [] + whole.value == whole.value;
    }
  }

  /** A block answered for an address is the one the file was made of. */
  lemma AnsweredBlock(h: Hasher, blocks: Blocks, sys: System, left: seq<Digest>, slot: nat)
    requires Addressed(h, blocks) && Truthful(h, sys.cache, sys.readers)
    requires left != [] && Gather(blocks, left).Ok?
    requires slot in sys.readers && sys.readers[slot].Answered? && sys.readers[slot].k == left[0]
    ensures left[0] in blocks
    ensures sys.readers[slot].answer.Ok? ==> sys.readers[slot].answer.value == blocks[left[0]]
  {
    var answer := sys.readers[slot].answer;
    assert answer.Ok? ==> h(answer.value) == left[0] == h(blocks[left[0]]);
  }

  lemma TakeFollows(h: Hasher, start: System, p: Path, sys: System, left: seq<Digest>, out: ByteSeq, slot: nat)
    requires VolInv(h, Shown(start)) && Truthful(h, sys.cache, sys.readers)
    requires left != [] && Follows(start, p, sys, Awaiting(left, out, slot)) && sys.readers[slot].Answered?
    ensures Follows(start, p, sys, Taken(left, out, sys.readers[slot].answer))
    ensures sys.readers[slot].answer.Ok? ==> Exact(start, p, Taken(left, out, sys.readers[slot].answer))
  {
    hide MetaInv, FilesGood, StoredBlocks, Live, Truthful, Addressed;
    var blocks := Shown(start).blocks;
    var answer := sys.readers[slot].answer;
    AnsweredBlock(h, blocks, sys, left, slot);
    hide VolInv, Shown;
    if answer.Ok? {
      var tail := Gather(blocks, left[1..]);
      assert out + (answer.value + tail.value) == (out + answer.value) + tail.value;
      if |left| == 1 {
        assert left[1..] == [] && (out + answer.value) + [] == out + answer.value;
      }
    }
  }

  // ---- any race ----

  lemma MoveSafe(h: Hasher, s: State, m: Move, s': State)
    requires Safe(h, s.sys) && Moves(h, s, m, s') && m != Other(Restart)
    ensures Safe(h, s'.sys) && Kept(s.sys.meta, s'.sys.meta)
  {
    hide Safe, Next, WriteNext, CollectNext, TreeNext, ReadNext, CacheNext;
    match m
    case Other(e) =>
      NextGood(h, s.sys, e, s'.sys);
      NextKeeps(h, s.sys, e, s'.sys);
    case Ask(f, slot) =>
      ReaderGood(h, s.sys, BeginRead(slot, s.files[f].left[0]), s'.sys);
      ReadKeepsMeta(h, s.sys, BeginRead(slot, s.files[f].left[0]), s'.sys);
    case _ =>
  }

  lemma KeptTransitive(m: Meta, m1: Meta, m2: Meta)
    requires Sane(m) && Kept(m, m1) && Kept(m1, m2)
    ensures Kept(m, m2)
  {
  }

  /** Every step of every request, its own included, leaves a read after what its path showed. */
  lemma MoveFollows(h: Hasher, start: System, p: Path, s: State, m: Move, s': State, f: nat)
    requires Safe(h, start) && Safe(h, s.sys) && Kept(start.meta, s.sys.meta)
    requires f in s.files && Follows(start, p, s.sys, s.files[f])
    requires Moves(h, s, m, s') && m != Other(Restart)
    ensures f in s'.files && Follows(start, p, s'.sys, s'.files[f])
  {
    hide Next, ReadNext, Resolve, Live, Pending, Explained, Sound, FilesGood, Opened, Walked, Taken, Kept;
    match m
    case Walk(g) =>
      if g == f {
        WalkFollows(start, p, s.sys, s.files[f].id, s.files[f].rest);
      }
    case Open(g) =>
      if g == f {
        OpenFollows(h, start, p, s.sys, s.files[f].id);
      }
    case Take(g) =>
      if g == f {
        TakeFollows(h, start, p, s.sys, s.files[f].left, s.files[f].out, s.files[f].slot);
      }
    case Ask(g, slot) => AskFollows(h, start, p, s, g, slot, s', f);
    case Other(e) =>
      if s.files[f].Awaiting? {
        ReaderKept(h, s.sys, e, s'.sys, s.files[f].slot);
      }
    case Start(_, _) =>
  }

  lemma AskFollows(h: Hasher, start: System, p: Path, s: State, g: nat, slot: nat, s': State, f: nat)
    requires f in s.files && Follows(start, p, s.sys, s.files[f]) && Moves(h, s, Ask(g, slot), s')
    ensures f in s'.files && Follows(start, p, s'.sys, s'.files[f])
  {
    hide Resolve, Live, Gather, Explained, Shown;
  }

  lemma {:induction false} ReadFollows(h: Hasher, ss: seq<State>, ms: seq<Move>, f: nat, p: Path)
    requires Races(h, ss, ms) && Safe(h, ss[0].sys) && ms != [] && ms[0] == Start(f, p)
    requires forall m | m in ms :: m != Other(Restart)
    ensures var start, s := ss[0].sys, ss[|ss| - 1];
            && Safe(h, s.sys) && Kept(start.meta, s.sys.meta)
            && f in s.files && Follows(start, p, s.sys, s.files[f])
    decreases |ms|
  {
    hide Safe, Next, ReadNext, Follows, Kept;
    var n := |ms| - 1;
    RacesPrefix(h, ss, ms);
    assert ms[n] in ms && ms[0] in ms;
    if n == 0 {
      StartFollows(h, ss[0], f, p, ss[1]);
    } else {
      assert forall m | m in ms[..n] :: m in ms;
      ReadFollows(h, ss[..n + 1], ms[..n], f, p);
      MoveFollows(h, ss[0].sys, p, ss[n], ms[n], ss[n + 1], f);
      MoveSafe(h, ss[n], ms[n], ss[n + 1]);
      SafeIsSane(h, ss[0].sys);
      KeptTransitive(ss[0].sys.meta, ss[n].sys.meta, ss[n + 1].sys.meta);
    }
  }

  lemma SafeIsSane(h: Hasher, s: System)
    requires Safe(h, s)
    ensures MetaInv(s.meta) && Sane(s.meta)
  {
    hide WritersOk, CollectionOk, Truthful, Sound, FilesGood;
  }

  lemma StartFollows(h: Hasher, s: State, f: nat, p: Path, s': State)
    requires Safe(h, s.sys) && Moves(h, s, Start(f, p), s')
    ensures s'.sys == s.sys && Kept(s.sys.meta, s'.sys.meta)
    ensures f in s'.files && s'.files[f].Walking? && Follows(s.sys, p, s'.sys, s'.files[f])
  {
    SafeIsSane(h, s.sys);
    hide Safe, Resolve;
  }

  /**
   * A read of a whole file, whatever it races with, answers what its path showed at the moment the read started:
   * those bytes, that error, or, in place of a document's bytes, the fault of a block read. It never mixes two
   * versions of a file, and never answers bytes for what was no file.
   */
  lemma FileReadsAreTruthful(h: Hasher, ss: seq<State>, ms: seq<Move>, f: nat, p: Path)
    requires Races(h, ss, ms) && Safe(h, ss[0].sys) && ms != [] && ms[0] == Start(f, p)
    requires forall m | m in ms :: m != Other(Restart)
    requires f in ss[|ss| - 1].files && ss[|ss| - 1].files[f].Finished?
    ensures var shown, answer := Live(Shown(ss[0].sys), p), ss[|ss| - 1].files[f].answer;
            match answer
            case Ok(bytes) => shown == Ok(Document(bytes))
            case Err(e) => shown == Err(e) || (shown == Ok(Folder) && e == IsADirectory)
                           || (shown.Ok? && shown.value.Document? && IsBlockFault(e))
  {
    hide Races, Safe, Live;
    ReadFollows(h, ss, ms, f, p);
  }

  // ---- races without a log swap ----

  /** A block read that will succeed. */
  ghost predicate OnCourse(h: Hasher, s: System, k: Digest, r: nat) {
    && r in s.readers && s.readers[r].k == k
    && match s.readers[r]
       case Located(_, _) => Points(h, s, r)
       case Loaded(_, bytes) => h(bytes) == k
       case Answered(_, answer) => answer.Ok?
       case _ => true
  }

  /** The log is under the index that fits it, which has every block it had when the read started. */
  ghost predicate Settled(start: System, s: System) {
    !s.collection.Swapped? && start.disk.index.Keys <= s.disk.index.Keys
  }

  lemma WriteGrowsIndex(h: Hasher, s: System, e: Event, s': System)
    requires WriteNext(h, s, e, s')
    ensures s'.collection == s.collection && s.disk.index.Keys <= s'.disk.index.Keys
  {
    hide WriteMeta, MakeFile, BlocksToStore, Record, AtBlock, NextBlock;
  }

  lemma CollectKeepsDisk(s: System, e: Event, s': System)
    requires CollectNext(s, e, s') && !e.SwapLog? && !s.collection.Swapped?
    ensures s'.disk == s.disk && !s'.collection.Swapped?
  {
    hide NeededSet, Compacted;
  }

  lemma OthersKeepDisk(h: Hasher, s: System, e: Event, s': System)
    requires TreeNext(s, e, s') || ReadNext(h, s, e, s') || CacheNext(s, e, s')
    ensures s'.disk == s.disk && s'.collection == s.collection
  {
    hide MkdirMeta, RemoveMeta, RenameMeta, SnapshotMeta, RollbackMeta, ReadExact;
  }

  lemma StaysSettled(h: Hasher, start: System, s: System, e: Event, s': System)
    requires Settled(start, s) && Next(h, s, e, s') && !e.SwapLog? && !e.Restart?
    ensures Settled(start, s')
  {
    hide WriteNext, CollectNext, TreeNext, ReadNext, CacheNext;
    if WriteNext(h, s, e, s') {
      WriteGrowsIndex(h, s, e, s');
    } else if CollectNext(s, e, s') {
      CollectKeepsDisk(s, e, s');
    } else {
      OthersKeepDisk(h, s, e, s');
    }
  }

  lemma OwnStepOnCourse(h: Hasher, s: System, e: Event, s': System, k: Digest, r: nat)
    requires Safe(h, s) && ReadNext(h, s, e, s')
    requires !s.collection.Swapped? && k in s.disk.index && OnCourse(h, s, k, r)
    ensures s'.readers[r] != s.readers[r] ==> OnCourse(h, s', k, r)
  {
    hide Safe, Points;
    if s'.readers[r] != s.readers[r] {
      if e == LookUp(r) {
        LookUpPoints(h, s, s', r);
      } else if e == ReadLog(r) {
        PointsReads(h, s, r);
      }
    }
  }

  lemma PointsReads(h: Hasher, s: System, r: nat)
    requires Points(h, s, r)
    ensures var b := ReadExact(s.disk.log, s.readers[r].loc); b.Some? && h(b.value) == s.readers[r].k
  {
  }

  lemma CourseKept(h: Hasher, s: System, e: Event, s': System, k: Digest, r: nat)
    requires Safe(h, s) && Next(h, s, e, s') && !e.SwapLog? && !e.Restart?
    requires !s.collection.Swapped? && k in s.disk.index && OnCourse(h, s, k, r)
    ensures OnCourse(h, s', k, r)
  {
    hide WriteNext, CollectNext, TreeNext, ReadNext, Safe, Points, ReadExact;
    if WriteNext(h, s, e, s') {
      WriteKeepsReaders(h, s, e, s');
    } else if CollectNext(s, e, s') || TreeNext(s, e, s') {
      OthersKeepReaders(s, e, s');
    } else if ReadNext(h, s, e, s') {
      ReadKeepsOthers(h, s, e, s', r);
      OwnStepOnCourse(h, s, e, s', k, r);
    }
    if s.readers[r].Located? && s'.readers[r] == s.readers[r] {
      StillPoints(h, s, e, s', r);
    }
  }

  lemma ReadKeepsOthers(h: Hasher, s: System, e: Event, s': System, r: nat)
    requires ReadNext(h, s, e, s') && r in s.readers
    ensures r in s'.readers
  {
  }

  /** A finished read has the right answer, and a block read it waits for will succeed. */
  ghost predicate Smooth(h: Hasher, start: System, p: Path, s: System, read: Progress) {
    && Settled(start, s) && Exact(start, p, read)
    && (read.Awaiting? && read.left != [] ==> OnCourse(h, s, read.left[0], read.slot))
  }

  /** The blocks a document was made of when its read started are still indexed. */
  lemma PendingIndexed(start: System, p: Path, s: System, left: seq<Digest>, out: ByteSeq)
    requires Pending(start, p, left, out) && Settled(start, s) && !start.collection.Swapped?
    ensures left != [] && left[0] in s.disk.index && !s.collection.Swapped?
  {
  }

  lemma AskSmooth(h: Hasher, start: System, p: Path, s: State, g: nat, slot: nat, s': State, f: nat)
    requires f in s.files && Smooth(h, start, p, s.sys, s.files[f]) && Moves(h, s, Ask(g, slot), s')
    requires s.files[f].Awaiting? ==> s.files[f].slot in s.sys.readers
    ensures f in s'.files && Smooth(h, start, p, s'.sys, s'.files[f])
  {
    hide Live, Shown, ReadExact;
  }

  lemma MoveSmooth(h: Hasher, start: System, p: Path, s: State, m: Move, s': State, f: nat)
    requires Safe(h, start) && Safe(h, s.sys) && Kept(start.meta, s.sys.meta) && !start.collection.Swapped?
    requires f in s.files && Follows(start, p, s.sys, s.files[f]) && Smooth(h, start, p, s.sys, s.files[f])
    requires Moves(h, s, m, s') && m != Other(Restart) && !(m.Other? && m.e.SwapLog?)
    ensures f in s'.files && Smooth(h, start, p, s'.sys, s'.files[f])
  {
    hide Next, ReadNext, Resolve, Live, Pending, Explained, Sound, FilesGood, Kept, Settled, Points;
    match m
    case Walk(g) =>
      if g == f {
        WalkFollows(start, p, s.sys, s.files[f].id, s.files[f].rest);
      }
    case Open(g) =>
      if g == f {
        OpenFollows(h, start, p, s.sys, s.files[f].id);
      }
    case Take(g) =>
      if g == f {
        TakeFollows(h, start, p, s.sys, s.files[f].left, s.files[f].out, s.files[f].slot);
      }
    case Ask(g, slot) => AskSmooth(h, start, p, s, g, slot, s', f);
    case Other(e) =>
      StaysSettled(h, start, s.sys, e, s'.sys);
      if s.files[f].Awaiting? {
        PendingIndexed(start, p, s.sys, s.files[f].left, s.files[f].out);
        CourseKept(h, s.sys, e, s'.sys, s.files[f].left[0], s.files[f].slot);
      }
    case Start(_, _) =>
  }

  lemma {:induction false} ReadIsSmooth(h: Hasher, ss: seq<State>, ms: seq<Move>, f: nat, p: Path)
    requires Races(h, ss, ms) && Safe(h, ss[0].sys) && ms != [] && ms[0] == Start(f, p)
    requires forall m | m in ms :: m != Other(Restart) && !(m.Other? && m.e.SwapLog?)
    requires !ss[0].sys.collection.Swapped?
    ensures var s := ss[|ss| - 1]; f in s.files && Smooth(h, ss[0].sys, p, s.sys, s.files[f])
    decreases |ms|
  {
    hide Safe, Next, ReadNext, Follows, Kept, OnCourse, Live, Shown;
    var n := |ms| - 1;
    RacesPrefix(h, ss, ms);
    assert ms[n] in ms && ms[0] in ms;
    if n == 0 {
      StartFollows(h, ss[0], f, p, ss[1]);
    } else {
      assert forall m | m in ms[..n] :: m in ms;
      ReadFollows(h, ss[..n + 1], ms[..n], f, p);
      ReadIsSmooth(h, ss[..n + 1], ms[..n], f, p);
      MoveSmooth(h, ss[0].sys, p, ss[n], ms[n], ss[n + 1], f);
    }
  }

  /**
   * Unless a collection swaps the log in the meantime, a read answers exactly what it would have answered at once
   * when it started, whatever writes, removals, renames, rollbacks, markings and other reads it races with.
   */
  lemma FileReadsAreAtomic(h: Hasher, ss: seq<State>, ms: seq<Move>, f: nat, p: Path)
    requires Races(h, ss, ms) && Safe(h, ss[0].sys) && ms != [] && ms[0] == Start(f, p)
    requires forall m | m in ms :: m != Other(Restart) && !(m.Other? && m.e.SwapLog?)
    requires !ss[0].sys.collection.Swapped?
    requires f in ss[|ss| - 1].files && ss[|ss| - 1].files[f].Finished?
    ensures ss[|ss| - 1].files[f].answer == AnswerTo(Live(Shown(ss[0].sys), p))
  {
    hide Races, Safe, Live;
    ReadIsSmooth(h, ss, ms, f, p);
  }

  // ---- a read can always go on ----

  lemma RacesCons(h: Hasher, s: State, m: Move, ss: seq<State>, ms: seq<Move>)
    requires Races(h, ss, ms) && Moves(h, s, m, ss[0])
    ensures Races(h, [s] + ss, [m] + ms) && ([s] + ss)[|ss|] == ss[|ss| - 1]
  {
    hide Moves;
    var ss', ms' := [s] + ss, [m] + ms;
    forall i | 0 <= i < |ms'| ensures Moves(h, ss'[i], ms'[i], ss'[i + 1]) {
      if i > 0 {
        assert ss'[i] == ss[i - 1] && ms'[i] == ms[i - 1] && ss'[i + 1] == ss[i];
      }
    }
  }

  lemma {:induction false} FreshSlot(taken: set<nat>) returns (slot: nat)
    ensures forall r | r in taken :: r < slot
    decreases taken
  {
    if taken == {} {
      slot := 0;
    } else {
      var r :| r in taken;
      var above := FreshSlot(taken - {r});
      slot := if above <= r then r + 1 else above;
      assert forall x | x in taken && x != r :: x in taken - {r};
    }
  }

  /** The read can take a step: its block read, if any, has begun, and there are blocks left to fetch. */
  ghost predicate InOrder(s: State, f: nat) {
    && f in s.files && !s.sys.collection.Swapped?
    && match s.files[f]
       case Fetching(left, _) => left != []
       case Awaiting(left, _, slot) => left != [] && slot in s.sys.readers
       case _ => true
  }

  function ReaderStepsLeft(reader: Reader): nat {
    match reader
    case Looking(_) => 5
    case Missed(_) => 4
    case Located(_, _) => 3
    case Loaded(_, _) => 2
    case Verified(_, _) => 1
    case Answered(_, _) => 0
  }

  /** At most how many steps a read has left before its next block, or component, or its end. */
  ghost function MovesLeft(s: State, f: nat): (nat, nat, nat)
    requires InOrder(s, f)
  {
    match s.files[f]
    case Walking(_, rest) => (2, |rest| + 1, 0)
    case Fetching(left, _) => (1, |left|, 7)
    case Awaiting(left, _, slot) => (1, |left|, ReaderStepsLeft(s.sys.readers[slot]))
    case Finished(_) => (0, 0, 0)
  }

  ghost predicate Less(a: (nat, nat, nat), b: (nat, nat, nat)) {
    a.0 < b.0 || (a.0 == b.0 && (a.1 < b.1 || (a.1 == b.1 && a.2 < b.2)))
  }

  predicate Harmless(m: Move) {
    m.Other? ==> !m.e.Restart? && !m.e.SwapLog?
  }

  /** A block read under way can take its next step. */
  lemma BlockReadCanMove(h: Hasher, s: System, r: nat) returns (e: Event, s': System)
    requires r in s.readers && !s.readers[r].Answered? && !s.collection.Swapped?
    ensures ReadNext(h, s, e, s') || CacheNext(s, e, s')
    ensures !e.Restart? && !e.SwapLog?
    ensures !s'.collection.Swapped? && r in s'.readers
    ensures ReaderStepsLeft(s'.readers[r]) < ReaderStepsLeft(s.readers[r])
  {
    if s.readers[r].Verified? {
      var k, b := s.readers[r].k, s.readers[r].bytes;
      e := CacheRead(r);
      s' := s.(cache := s.cache[k := b], readers := s.readers[r := Answered(k, Ok(b))]);
      hide ReadNext;
    } else {
      e, s' := BlockReadCanGoOn(h, s, r);
      hide ReadNext, CacheNext;
    }
  }

  lemma BlockReadCanGoOn(h: Hasher, s: System, r: nat) returns (e: Event, s': System)
    requires r in s.readers && !s.readers[r].Answered? && !s.readers[r].Verified? && !s.collection.Swapped?
    ensures ReadNext(h, s, e, s') && !e.Restart? && !e.SwapLog?
    ensures !s'.collection.Swapped? && r in s'.readers
    ensures ReaderStepsLeft(s'.readers[r]) < ReaderStepsLeft(s.readers[r])
  {
    hide ReadExact;
    match s.readers[r]
    case Looking(k) =>
      e := ProbeCache(r);
      s' := s.(readers := s.readers[r := if k in s.cache then Answered(k, Ok(s.cache[k])) else Missed(k)]);
    case Missed(k) =>
      e := LookUp(r);
      s' := s.(readers := s.readers[r :=
        if k in s.disk.index then Located(k, s.disk.index[k]) else Answered(k, Err(BlockNotFound))]);
    case Located(k, loc) =>
      e := ReadLog(r);
      s' := s.(readers := s.readers[r :=
        match ReadExact(s.disk.log, loc) case None => Answered(k, Err(ShortRead)) case Some(b) => Loaded(k, b)]);
    case Loaded(k, b) =>
      e := VerifyHash(r);
      s' := s.(readers := s.readers[r := if h(b) == k then Verified(k, b) else Answered(k, Err(IntegrityFailure))]);
  }

  /** The next step of a file read. */
  lemma ReadCanMove(h: Hasher, s: State, f: nat) returns (m: Move, s': State)
    requires InOrder(s, f) && !s.files[f].Finished?
    ensures Moves(h, s, m, s') && Harmless(m) && InOrder(s', f) && Less(MovesLeft(s', f), MovesLeft(s, f))
  {
    hide Next, CollectNext, WriteNext, TreeNext;
    match s.files[f]
    case Walking(id, rest) =>
      if rest != [] {
        m, s' := Walk(f), s.(files := s.files[f := Walked(s.sys.meta.table, id, rest)]);
      } else {
        m, s' := Open(f), s.(files := s.files[f := Opened(s.sys.meta.table, id)]);
      }
    case Fetching(left, out) =>
      var slot := FreshSlot(s.sys.readers.Keys);
      assert slot !in s.sys.readers;
      m := Ask(f, slot);
      s' := State(s.sys.(readers := s.sys.readers[slot := Looking(left[0])]), s.files[f := Awaiting(left, out, slot)]);
    case Awaiting(left, out, slot) =>
      if s.sys.readers[slot].Answered? {
        m, s' := Take(f), s.(files := s.files[f := Taken(left, out, s.sys.readers[slot].answer)]);
      } else {
        var e, sys' := BlockReadCanMove(h, s.sys, slot);
        hide ReadNext, CacheNext;
        IsNext(h, s.sys, e, sys');
        m, s' := Other(e), State(sys', s.files);
      }
  }

  lemma IsNext(h: Hasher, s: System, e: Event, s': System)
    requires ReadNext(h, s, e, s') || CacheNext(s, e, s')
    ensures Next(h, s, e, s')
  {
    hide ReadNext, CacheNext, CollectNext, WriteNext, TreeNext;
  }

  lemma {:induction false} ReadCanFinish(h: Hasher, s: State, f: nat) returns (ss: seq<State>, ms: seq<Move>)
    requires InOrder(s, f)
    ensures Races(h, ss, ms) && ss[0] == s && forall m | m in ms :: Harmless(m)
    ensures f in ss[|ss| - 1].files && ss[|ss| - 1].files[f].Finished?
    decreases MovesLeft(s, f).0, MovesLeft(s, f).1, MovesLeft(s, f).2
  {
    hide Moves;
    if s.files[f].Finished? {
      ss, ms := [s], [];
    } else {
      var m, s' := ReadCanMove(h, s, f);
      var rest, more := ReadCanFinish(h, s', f);
      RacesCons(h, s, m, rest, more);
      ss, ms := [s] + rest, [m] + more;
    }
  }

  /** Outside a swap window a read can begin at any moment, and come to answer what its path shows. */
  lemma ReadCanAnswer(h: Hasher, s: State, f: nat, p: Path) returns (ss: seq<State>, ms: seq<Move>)
    requires Safe(h, s.sys) && f !in s.files && !s.sys.collection.Swapped?
    ensures Races(h, ss, ms) && ss[0] == s && ms != [] && ms[0] == Start(f, p)
    ensures var last := ss[|ss| - 1];
            f in last.files && last.files[f] == Finished(AnswerTo(Live(Shown(s.sys), p)))
  {
    hide Safe, Live, Shown, Races;
    var s' := s.(files := s.files[f := Walking(s.sys.meta.sb.root, p)]);
    var rest, more := ReadCanFinish(h, s', f);
    assert Moves(h, s, Start(f, p), s');
    hide Moves;
    RacesCons(h, s, Start(f, p), rest, more);
    ss, ms := [s] + rest, [Start(f, p)] + more;
    FileReadsAreAtomic(h, ss, ms, f, p);
  }
}
