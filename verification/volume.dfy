/** File contents: inline bytes, or a list of content-addressed blocks. */
module Contents {
  import opened Prelude
  import opened Bytes
  import opened Digests
  import opened Inodes
  import opened BlockLogs

  const INLINE_MAX: nat := 4096

  type Blocks = map<Digest, ByteSeq>

  /** Every stored block sits under its own address. */
  ghost predicate Addressed(h: Hasher, blocks: Blocks) {
    forall k | k in blocks :: h(blocks[k]) == k
  }

  /** The blocks of a file read one after the other; the first missing one is the error. */
  function Gather(blocks: Blocks, hs: seq<Digest>): Result<ByteSeq> {
    if hs == [] then Ok([])
    else if hs[0] !in blocks then Err(BlockNotFound)
    else
      match Gather(blocks, hs[1..])
      case Err(e) => Err(e)
      case Ok(rest) => Ok(blocks[hs[0]] + rest)
  }

  function ReadContent(blocks: Blocks, f: Inode): Result<ByteSeq>
    requires f.File?
  {
    if f.blocks == [] then Ok(f.inline) else Gather(blocks, f.blocks)
  }

  /** A file is readable, as long as it says it is, and never both inline and in blocks. */
  ghost predicate GoodFile(blocks: Blocks, f: Inode)
    requires f.File?
  {
    && ReadContent(blocks, f).Ok? && |ReadContent(blocks, f).value| == f.size
    && (f.blocks == [] || f.inline == [])
    && forall k | k in f.blocks :: k in blocks
  }

  /** Data cut into pieces of at most `BLOCK_SIZE` bytes. */
  function Chunks(data: ByteSeq): (cs: seq<ByteSeq>)
    ensures forall c | c in cs :: 0 < |c| <= BLOCK_SIZE
    decreases |data|
  {
    if data == [] then []
    else if |data| <= BLOCK_SIZE then [data]
    else [data[..BLOCK_SIZE]] + Chunks(data[BLOCK_SIZE..])
  }

  function HashAll(h: Hasher, cs: seq<ByteSeq>): (hs: seq<Digest>)
    ensures |hs| == |cs| && forall i | 0 <= i < |cs| :: hs[i] == h(cs[i])
  {
    if cs == [] then [] else [h(cs[0])] + HashAll(h, cs[1..])
  }

  function StoreAll(h: Hasher, blocks: Blocks, cs: seq<ByteSeq>): Blocks
    decreases |cs|
  {
    if cs == [] then blocks else StoreAll(h, blocks[h(cs[0]) := cs[0]], cs[1..])
  }

  predicate IsInline(data: ByteSeq) {
    |data| <= INLINE_MAX
  }

  /** The inode a write of `data` makes. */
  function MakeFile(h: Hasher, data: ByteSeq): (f: Inode)
    ensures f.File?
  {
    if IsInline(data) then File(|data|, [], data) else File(|data|, HashAll(h, Chunks(data)), [])
  }

  /** The blocks stored once a write of `data` has put its chunks. */
  function WithData(h: Hasher, blocks: Blocks, data: ByteSeq): Blocks {
    if IsInline(data) then blocks else StoreAll(h, blocks, Chunks(data))
  }

  // ---- chunking ----

  /** Pieces are full blocks except possibly the last one. */
  lemma {:induction false} ChunkSizes(data: ByteSeq, i: nat)
    requires i < |Chunks(data)|
    ensures i < |Chunks(data)| - 1 ==> |Chunks(data)[i]| == BLOCK_SIZE
    decreases i
  {
    if |data| > BLOCK_SIZE && i > 0 {
      ChunkSizes(data[BLOCK_SIZE..], i - 1);
    }
  }

  lemma SliceOfRest(data: ByteSeq, n: nat, a: nat, b: nat)
    requires n <= |data| && a <= b <= |data| - n
    ensures data[n..][a..b] == data[n + a..n + b]
  {
  }

  /** Where the `i`th stretch of 65536 bytes ends. */
  function StretchEnd(data: ByteSeq, i: nat): (n: nat)
    ensures n <= |data|
  {
    if 65536 * (i + 1) < |data| then 65536 * (i + 1) else |data|
  }

  lemma LaterStretch(data: ByteSeq, i: nat)
    requires |data| > 65536 && 65536 * i <= |data| - 65536
    ensures var rest := data[65536..];
            && StretchEnd(data, i + 1) == StretchEnd(rest, i) + 65536
            && rest[65536 * i..StretchEnd(rest, i)] == data[65536 * (i + 1)..StretchEnd(data, i + 1)]
  {
    SliceOfRest(data, 65536, 65536 * i, StretchEnd(data[65536..], i));
  }

  /** The pieces are the successive stretches of 65536 bytes, the last one as long as what is left. */
  lemma {:induction false} ChunkAt(data: ByteSeq, i: nat)
    ensures |Chunks(data)| == (|data| + 65535) / 65536
    ensures i < |Chunks(data)| ==>
              65536 * i <= |data| && Chunks(data)[i] == data[65536 * i..StretchEnd(data, i)]
    decreases |data|
  {
    if |data| > BLOCK_SIZE {
      ChunksCons(data);
      var rest := data[BLOCK_SIZE..];
      ChunkAt(rest, if i == 0 then 0 else i - 1);
      hide Chunks, StretchEnd;
      var cs, more := Chunks(data), Chunks(rest);
      assert |rest| == |data| - 65536;
      if 0 < i < |cs| {
        assert cs[i] == more[i - 1];
        LaterStretch(data, i - 1);
      } else if i == 0 {
        FirstStretch(data);
      }
    } else if data != [] {
      assert Chunks(data) == [data] && data[0..|data|] == data;
    }
  }

  lemma FirstStretch(data: ByteSeq)
    requires |data| > 65536
    ensures data[0..StretchEnd(data, 0)] == data[..65536]
  {
  }

  /** Up to 4096 bytes go into the inode; more go into blocks of 64 KiB, named in order by their addresses. */
  lemma FileForm(h: Hasher, data: ByteSeq)
    ensures var f := MakeFile(h, data);
            && f.size == |data|
            && (|data| <= 4096 ==> f.inline == data && f.blocks == [])
            && (|data| > 4096 ==> f.inline == [] && |f.blocks| == (|data| + 65535) / 65536)
    ensures |data| > 4096 ==>
              forall i: nat | i < |MakeFile(h, data).blocks| ::
                65536 * i <= |data| && MakeFile(h, data).blocks[i] == h(data[65536 * i..StretchEnd(data, i)])
  {
    ChunkAt(data, 0);
    if |data| > 4096 {
      hide Chunks, StretchEnd;
      forall i: nat | i < |MakeFile(h, data).blocks|
        ensures 65536 * i <= |data| && MakeFile(h, data).blocks[i] == h(data[65536 * i..StretchEnd(data, i)])
      {
        ChunkAt(data, i);
      }
    }
  }

  /** Reading one block more. */
  lemma GatherCons(h: Hasher, blocks: Blocks, c: ByteSeq, cs: seq<ByteSeq>, rest: ByteSeq)
    requires h(c) in blocks && blocks[h(c)] == c && Gather(blocks, HashAll(h, cs)) == Ok(rest)
    ensures Gather(blocks, HashAll(h, [c] + cs)) == Ok(c + rest)
  {
    assert ([c] + cs)[1..] == cs;
    assert HashAll(h, [c] + cs) == [h(c)] + HashAll(h, cs);
    assert HashAll(h, [c] + cs)[1..] == HashAll(h, cs);
  }

  lemma ChunksCons(data: ByteSeq)
    requires data != []
    ensures var n := if |data| <= BLOCK_SIZE then |data| else BLOCK_SIZE;
            Chunks(data) == [data[..n]] + Chunks(data[n..])
  {
    if |data| <= BLOCK_SIZE {
      assert data[..|data|] == data && data[|data|..] == [];
    }
  }

  lemma {:induction false} GatherChunks(h: Hasher, blocks: Blocks, data: ByteSeq)
    requires forall c | c in Chunks(data) :: h(c) in blocks && blocks[h(c)] == c
    ensures Gather(blocks, HashAll(h, Chunks(data))) == Ok(data)
    decreases |data|
  {
    if data != [] {
      var n := if |data| <= BLOCK_SIZE then |data| else BLOCK_SIZE;
      ChunksCons(data);
      hide Chunks, Gather, HashAll;
      var first, rest := data[..n], data[n..];
      assert first in Chunks(data);
      assert forall c | c in Chunks(rest) :: c in Chunks(data);
      GatherChunks(h, blocks, rest);
      GatherCons(h, blocks, first, Chunks(rest), rest);
      assert data == first + rest;
    }
  }

  /** Storing pieces keeps what was stored and makes every piece readable. */
  lemma {:induction false} StoreAllHolds(h: Hasher, blocks: Blocks, cs: seq<ByteSeq>)
    requires Addressed(h, blocks)
    ensures var b := StoreAll(h, blocks, cs);
            && Addressed(h, b)
            && (forall k | k in blocks :: k in b && b[k] == blocks[k])
            && (forall c | c in cs :: h(c) in b && b[h(c)] == c)
            && (forall k | k in b :: k in blocks || exists c :: c in cs && h(c) == k)
    decreases |cs|
  {
    if cs != [] {
      var next := blocks[h(cs[0]) := cs[0]];
      StoreAllHolds(h, next, cs[1..]);
      var b := StoreAll(h, blocks, cs);
      forall k | k in blocks ensures k in b && b[k] == blocks[k] {
        assert k in next;
      }
      forall c | c in cs ensures h(c) in b && b[h(c)] == c {
        assert h(cs[0]) in next;
        if c != cs[0] {
          assert c in cs[1..];
        }
      }
      forall k | k in b ensures k in blocks || exists c :: c in cs && h(c) == k {
        if k !in next {
          var c :| c in cs[1..] && h(c) == k;
          assert c in cs;
        } else if k !in blocks {
          assert cs[0] in cs;
        }
      }
    }
  }

  /**
   * The round trip, for every length: what a write stores reads back as the data, whichever of the blocks
   * were stored already, and the inode is a good file.
   */
  lemma WriteReadRoundTrip(h: Hasher, blocks: Blocks, data: ByteSeq)
    requires Addressed(h, blocks)
    ensures var b := WithData(h, blocks, data);
            && Addressed(h, b)
            && ReadContent(b, MakeFile(h, data)) == Ok(data)
            && GoodFile(b, MakeFile(h, data))
            && forall k | k in blocks :: k in b && b[k] == blocks[k]
  {
    if !IsInline(data) {
      StoreAllHolds(h, blocks, Chunks(data));
      ChunksRead(h, WithData(h, blocks, data), data);
    }
  }

  lemma ChunksRead(h: Hasher, b: Blocks, data: ByteSeq)
    requires data != [] && forall c | c in Chunks(data) :: h(c) in b && b[h(c)] == c
    ensures var hs := HashAll(h, Chunks(data));
            hs != [] && Gather(b, hs) == Ok(data) && forall k | k in hs :: k in b
  {
    GatherChunks(h, b, data);
    var cs := Chunks(data);
    var hs := HashAll(h, cs);
    forall k | k in hs ensures k in b {
      var i :| 0 <= i < |hs| && hs[i] == k;
      assert cs[i] in cs;
    }
  }

  /** Storing pieces that are all stored already changes nothing. */
  lemma {:induction false} StoreAllPresent(h: Hasher, blocks: Blocks, cs: seq<ByteSeq>)
    requires Addressed(h, blocks) && forall c | c in cs :: h(c) in blocks
    ensures StoreAll(h, blocks, cs) == blocks
    decreases |cs|
  {
    if cs != [] {
      assert cs[0] in cs && h(blocks[h(cs[0])]) == h(cs[0]);
      assert blocks[h(cs[0]) := cs[0]] == blocks;
      StoreAllPresent(h, blocks, cs[1..]);
    }
  }

  /** A read only depends on the file's own blocks. */
  lemma {:induction false} GatherAgrees(b: Blocks, b': Blocks, hs: seq<Digest>)
    requires forall k | k in hs :: k in b && k in b' && b'[k] == b[k]
    ensures Gather(b', hs) == Gather(b, hs)
    decreases |hs|
  {
    if hs != [] {
      assert hs[0] in hs;
      GatherAgrees(b, b', hs[1..]);
    }
  }

  lemma GoodFileKept(h: Hasher, b: Blocks, b': Blocks, f: Inode)
    requires f.File? && GoodFile(b, f) && Addressed(h, b) && Addressed(h, b')
    requires forall k | k in f.blocks :: k in b'
    ensures GoodFile(b', f) && ReadContent(b', f) == ReadContent(b, f)
  {
    GatherAgrees(b, b', f.blocks);
  }
}

/** The whole engine as a value: metadata and stored blocks; its operations; and what every run keeps. */
module Volumes {
  import opened Prelude
  import opened Bytes
  import opened Digests
  import opened Paths
  import opened Inodes
  import opened Metadata
  import opened Contents

  datatype Vol = Vol(meta: Meta, blocks: Blocks)

  /** What a path shows: a directory, or a file and its bytes. */
  datatype Node = Folder | Document(bytes: ByteSeq)

  function NodeOf(t: Table, blocks: Blocks, at: Result<nat>): Result<Node> {
    match at
    case Err(e) => Err(e)
    case Ok(id) =>
      if id !in t then Err(Dangling)
      else if t[id].Dir? then Ok(Folder)
      else
        match ReadContent(blocks, t[id])
        case Err(e) => Err(e)
        case Ok(bytes) => Ok(Document(bytes))
  }

  /** What `p` shows under a root, live or pinned by a snapshot. */
  function View(v: Vol, root: nat, p: Path): Result<Node> {
    NodeOf(v.meta.table, v.blocks, Resolve(v.meta.table, root, p))
  }

  function Live(v: Vol, p: Path): Result<Node> {
    View(v, v.meta.sb.root, p)
  }

  /** What a read of a whole file answers, given what its path shows. */
  function AnswerTo(shown: Result<Node>): Result<ByteSeq> {
    match shown
    case Err(e) => Err(e)
    case Ok(Folder) => Err(IsADirectory)
    case Ok(Document(bytes)) => Ok(bytes)
  }

  /** The addresses of the blocks some live or pinned file needs. */
  ghost predicate Needed(m: Meta, k: Digest)
    requires Ordered(m.table)
  {
    exists x :: Reachable(m, x) && x in m.table && m.table[x].File? && k in m.table[x].blocks
  }

  ghost predicate FilesGood(v: Vol)
    requires Ordered(v.meta.table)
  {
    forall x | Reachable(v.meta, x) && x in v.meta.table && v.meta.table[x].File? :: GoodFile(v.blocks, v.meta.table[x])
  }

  ghost predicate VolInv(h: Hasher, v: Vol) {
    MetaInv(v.meta) && Addressed(h, v.blocks) && FilesGood(v)
  }

  // ---- one step of a sequential run ----

  datatype Op =
    | Write(p: Path, data: ByteSeq)
    | Mkdir(p: Path)
    | Remove(p: Path)
    | Rename(from: Path, to: Path)
    | Snapshot(name: string)
    | Rollback(name: string)
    | Gc
    | Reopen

  ghost predicate Collected(v: Vol, v': Vol)
    requires Ordered(v.meta.table)
  {
    && v'.meta == v.meta
    && (forall k | k in v'.blocks :: k in v.blocks && v'.blocks[k] == v.blocks[k])
    && (forall k | k in v.blocks :: k in v'.blocks <==> Needed(v.meta, k))
  }

  /** The metadata is the same, and every block that some live or pinned file needs is still stored. */
  ghost predicate KeepsNeeded(v: Vol, v': Vol)
    requires Ordered(v.meta.table)
  {
    && v'.meta == v.meta
    && forall k | Needed(v.meta, k) && k in v.blocks :: k in v'.blocks
  }

  /** What one call makes of the volume, whether it succeeds or fails. */
  ghost predicate Step(h: Hasher, v: Vol, op: Op, v': Vol) {
    match op
    case Write(p, data) => v' == Written(h, v, p, data).0
    case Mkdir(p) => v' == v.(meta := MkdirMeta(v.meta, p).meta)
    case Remove(p) => v' == v.(meta := RemoveMeta(v.meta, p).meta)
    case Rename(from, to) => v' == v.(meta := RenameMeta(v.meta, from, to).meta)
    case Snapshot(name) => v' == v.(meta := SnapshotMeta(v.meta, name))
    case Rollback(name) => v' == v.(meta := RollbackMeta(v.meta, name).meta)
    case Gc => Ordered(v.meta.table) && Collected(v, v')
    case Reopen => v' == v.(meta := ReopenMeta(v.meta))
  }

  function Written(h: Hasher, v: Vol, p: Path, data: ByteSeq): (Vol, Result<()>) {
    if p == [] then (v, Err(RootPath))
    else
      var o := WriteMeta(v.meta, p, MakeFile(h, data));
      (Vol(o.meta, WithData(h, v.blocks, data)), o.result)
  }

  lemma InitialVol(h: Hasher)
    ensures VolInv(h, Vol(Initial(), map[]))
  {
    InitialInv();
    var m := Initial();
    forall x | Reachable(m, x) ensures x == 0 {
      var r :| r in Roots(m) && x in Reach(m.table, r);
      ReachBound(m.table, r, x);
    }
  }

  /** Files reachable afterwards were good before; so they are good as long as their blocks are kept. */
  lemma FilesStayGood(h: Hasher, v: Vol, v': Vol, placed: Option<nat>)
    requires VolInv(h, v) && MetaInv(v'.meta) && Addressed(h, v'.blocks)
    requires NoOtherFiles(v.meta, v'.meta, placed)
    requires forall k | k in v.blocks :: k in v'.blocks
    requires placed.Some? ==> placed.value in v'.meta.table && v'.meta.table[placed.value].File?
                              && GoodFile(v'.blocks, v'.meta.table[placed.value])
    ensures VolInv(h, v')
  {
    forall x | Reachable(v'.meta, x) && x in v'.meta.table && v'.meta.table[x].File?
      ensures GoodFile(v'.blocks, v'.meta.table[x])
    {
      if placed != Some(x) {
        GoodFileKept(h, v.blocks, v'.blocks, v'.meta.table[x]);
      }
    }
  }

  lemma WriteKeeps(h: Hasher, v: Vol, p: Path, data: ByteSeq)
    requires VolInv(h, v)
    ensures VolInv(h, Written(h, v, p, data).0)
  {
    if p != [] {
      var f := MakeFile(h, data);
      var v' := Written(h, v, p, data).0;
      WriteReadRoundTrip(h, v.blocks, data);
      PlaceInv(v.meta, p, f);
      PlaceFiles(v.meta, p, f);
      PlacedInode(v.meta, p, f);
      FilesStayGood(h, v, v', Some(v.meta.sb.next));
    }
  }

  lemma PlacedInode(m: Meta, p: Path, inode: Inode)
    requires MetaInv(m) && p != [] && inode.File?
    ensures var t := Place(m, p, inode).meta.table; m.sb.next in t && t[m.sb.next] == inode
  {
    PlaceExtends(m, inode);
    RebuildKeeps(m.table[m.sb.next := inode], m.sb.next + 1, m.sb.root, p, Some(m.sb.next));
  }

  /** As long as every needed block stays stored, every file in the live tree and in every snapshot reads the same. */
  lemma NeededKept(h: Hasher, v: Vol, v': Vol)
    requires VolInv(h, v) && KeepsNeeded(v, v') && Addressed(h, v'.blocks)
    ensures VolInv(h, v')
    ensures forall x | Reachable(v.meta, x) && x in v.meta.table && v.meta.table[x].File? ::
              ReadContent(v'.blocks, v.meta.table[x]) == ReadContent(v.blocks, v.meta.table[x])
  {
    forall x | Reachable(v.meta, x) && x in v.meta.table && v.meta.table[x].File?
      ensures GoodFile(v'.blocks, v.meta.table[x])
      ensures ReadContent(v'.blocks, v.meta.table[x]) == ReadContent(v.blocks, v.meta.table[x])
    {
      forall k | k in v.meta.table[x].blocks ensures k in v'.blocks {
        assert Needed(v.meta, k);
      }
      GoodFileKept(h, v.blocks, v'.blocks, v.meta.table[x]);
    }
  }

  /** A collection keeps the content of every file in the live tree and in every snapshot. */
  lemma GcKeeps(h: Hasher, v: Vol, v': Vol)
    requires VolInv(h, v) && Collected(v, v')
    ensures VolInv(h, v')
    ensures forall x | Reachable(v.meta, x) && x in v.meta.table && v.meta.table[x].File? ::
              ReadContent(v'.blocks, v.meta.table[x]) == ReadContent(v.blocks, v.meta.table[x])
  {
    NeededKept(h, v, v');
  }

  /** Every call, successful or not, keeps the engine's invariant. */
  lemma StepKeeps(h: Hasher, v: Vol, op: Op, v': Vol)
    requires VolInv(h, v) && Step(h, v, op, v')
    ensures VolInv(h, v')
  {
    match op
    case Write(p, data) => WriteKeeps(h, v, p, data);
    case Mkdir(p) =>
      if p != [] {
        PlaceInv(v.meta, p, Dir(map[]));
        PlaceFiles(v.meta, p, Dir(map[]));
        FilesStayGood(h, v, v', None);
      }
    case Remove(p) =>
      RemoveInv(v.meta, p);
      RemoveFiles(v.meta, p);
      FilesStayGood(h, v, v', None);
    case Rename(from, to) =>
      RenameInv(v.meta, from, to);
      RenameFiles(v.meta, from, to);
      FilesStayGood(h, v, v', None);
    case Snapshot(name) =>
      SnapshotInv(v.meta, name);
      SnapshotFiles(v.meta, name);
      FilesStayGood(h, v, v', None);
    case Rollback(name) =>
      RollbackInv(v.meta, name);
      RollbackFiles(v.meta, name);
      FilesStayGood(h, v, v', None);
    case Gc => GcKeeps(h, v, v');
    case Reopen =>
      ReopenInv(v.meta);
      ReopenFiles(v.meta);
      FilesStayGood(h, v, v', None);
  }

  // ---- what is visible, path by path ----

  /** Nothing reachable is overwritten and no needed block goes away. */
  ghost predicate Preserves(v: Vol, v': Vol)
    requires Ordered(v.meta.table)
  {
    && Agree(v.meta.table, v'.meta.table, v.meta.sb.next)
    && forall k | Needed(v.meta, k) :: k in v'.blocks
  }

  lemma StepPreserves(h: Hasher, v: Vol, op: Op, v': Vol)
    requires VolInv(h, v) && Step(h, v, op, v')
    ensures Preserves(v, v')
    ensures !op.Reopen? ==> v.meta.sb.next <= v'.meta.sb.next
  {
    forall k | Needed(v.meta, k) ensures k in v.blocks {
      var x :| Reachable(v.meta, x) && x in v.meta.table && v.meta.table[x].File? && k in v.meta.table[x].blocks;
    }
    match op
    case Write(p, data) =>
      if p != [] {
        WriteReadRoundTrip(h, v.blocks, data);
        PlaceInv(v.meta, p, MakeFile(h, data));
      }
    case Mkdir(p) =>
      if p != [] {
        PlaceInv(v.meta, p, Dir(map[]));
      }
    case Remove(p) => RemoveInv(v.meta, p);
    case Rename(from, to) => RenameInv(v.meta, from, to);
    case _ =>
  }

  /** What a path showed under a live or pinned root is still what its inode shows. */
  lemma NodeKept(h: Hasher, v: Vol, v': Vol, root: nat, p: Path)
    requires VolInv(h, v) && Addressed(h, v'.blocks) && Preserves(v, v') && root in Roots(v.meta)
    ensures NodeOf(v'.meta.table, v'.blocks, Resolve(v.meta.table, root, p)) == View(v, root, p)
  {
    var at := Resolve(v.meta.table, root, p);
    if at.Ok? {
      ResolveBound(v.meta.table, root, p);
      PathReaches(v.meta.table, root, p);
      var x := at.value;
      assert Reachable(v.meta, x);
      if x in v.meta.table && v.meta.table[x].File? {
        forall k | k in v.meta.table[x].blocks ensures k in v'.blocks {
          assert Needed(v.meta, k);
        }
        GoodFileKept(h, v.blocks, v'.blocks, v.meta.table[x]);
      }
    }
  }

  /** What a path showed under a live or pinned root it still shows under that root. */
  lemma PreservedView(h: Hasher, v: Vol, v': Vol, root: nat, p: Path)
    requires VolInv(h, v) && Addressed(h, v'.blocks) && Preserves(v, v') && root in Roots(v.meta)
    ensures View(v', root, p) == View(v, root, p)
  {
    NodeKept(h, v, v', root, p);
    ResolveFrozen(v.meta.table, v'.meta.table, v.meta.sb.next, root, p);
  }

  /** No call changes what any path shows under the old live root or under any snapshot's root. */
  lemma PinnedView(h: Hasher, v: Vol, op: Op, v': Vol, root: nat, p: Path)
    requires VolInv(h, v) && Step(h, v, op, v') && root in Roots(v.meta)
    ensures View(v', root, p) == View(v, root, p)
  {
    hide Step, View;
    StepKeeps(h, v, op, v');
    StepPreserves(h, v, op, v');
    PreservedView(h, v, v', root, p);
  }

  /** What `q` shows after something with no content below it was placed at `p`. */
  function Overlaid(p: Path, here: Node, q: Path, before: Result<Node>): Result<Node> {
    if q == p then Ok(here)
    else if p <= q then Err(if here.Folder? then NoSuchComponent else NotADirectory)
    else if q <= p then Ok(Folder)
    else before
  }

  /**
   * A successful write shows the data at its path, directories on the way there, nothing below it, and
   * every other path, its kind and its bytes, exactly as before.
   */
  lemma WriteShows(h: Hasher, v: Vol, p: Path, data: ByteSeq, q: Path)
    requires VolInv(h, v) && Written(h, v, p, data).1.Ok?
    ensures Live(Written(h, v, p, data).0, q) == Overlaid(p, Document(data), q, Live(v, q))
  {
    var v' := Written(h, v, p, data).0;
    StepKeeps(h, v, Write(p, data), v');
    StepPreserves(h, v, Write(p, data), v');
    WriteReadRoundTrip(h, v.blocks, data);
    PlaceResolves(v.meta, p, MakeFile(h, data), q);
    assert v.meta.sb.root in Roots(v.meta);
    NodeKept(h, v, v', v.meta.sb.root, q);
  }

  /** A successful mkdir shows an empty directory at its path, whatever was there before. */
  lemma MkdirShows(h: Hasher, v: Vol, p: Path, q: Path)
    requires VolInv(h, v) && p != [] && MkdirMeta(v.meta, p).result.Ok?
    ensures Live(v.(meta := MkdirMeta(v.meta, p).meta), q) == Overlaid(p, Folder, q, Live(v, q))
  {
    var v' := v.(meta := MkdirMeta(v.meta, p).meta);
    StepPreserves(h, v, Mkdir(p), v');
    PlaceResolves(v.meta, p, Dir(map[]), q);
    assert v.meta.sb.root in Roots(v.meta);
    NodeKept(h, v, v', v.meta.sb.root, q);
  }

  /** A successful removal hides the path and everything below it, and nothing else. */
  lemma RemoveShows(h: Hasher, v: Vol, p: Path, q: Path)
    requires VolInv(h, v) && RemoveMeta(v.meta, p).result.Ok?
    ensures Live(v.(meta := RemoveMeta(v.meta, p).meta), q) ==
            if p <= q then Err(NoSuchComponent) else Live(v, q)
  {
    var v' := v.(meta := RemoveMeta(v.meta, p).meta);
    StepPreserves(h, v, Remove(p), v');
    RemoveResolves(v.meta, p, q);
    RemoveOutcome(v.meta, p);
    assert v.meta.sb.root in Roots(v.meta);
    NodeKept(h, v, v', v.meta.sb.root, q);
    if q < p {
      PrefixIsFolder(v, p, q);
    }
  }

  lemma PrefixIsFolder(v: Vol, p: Path, q: Path)
    requires At(v.meta, p).Ok? && q < p
    ensures Live(v, q) == Ok(Folder)
  {
    assert p == q + p[|q|..];
    ResolveConcat(v.meta.table, v.meta.sb.root, q, p[|q|..]);
  }

  /**
   * What every path shows after a successful rename, bytes and all, also when one path is a prefix of the
   * other: nothing at or below the old path, folders on the way to either, what was below the old path below
   * the new one, and everything else as before.
   */
  lemma RenameShows(h: Hasher, v: Vol, from: Path, to: Path, q: Path)
    requires VolInv(h, v) && RenameMeta(v.meta, from, to).result.Ok?
    ensures Live(v.(meta := RenameMeta(v.meta, from, to).meta), q) ==
            if from <= q then Err(NoSuchComponent)
            else if q <= from then Ok(Folder)
            else if to <= q then Live(v, from + q[|to|..])
            else if q <= to then Ok(Folder)
            else Live(v, q)
  {
    var v' := v.(meta := RenameMeta(v.meta, from, to).meta);
    StepPreserves(h, v, Rename(from, to), v');
    RenameResolves(v.meta, from, to, q);
    RenameChainsAreFolders(v.meta, from, to, q);
    assert v.meta.sb.root in Roots(v.meta);
    NodeKept(h, v, v', v.meta.sb.root, q);
    if to <= q {
      NodeKept(h, v, v', v.meta.sb.root, from + q[|to|..]);
    }
  }

  /** A rollback fails exactly when there is no such snapshot; else every path shows what it showed under its root. */
  lemma RollbackShows(v: Vol, name: string, q: Path)
    ensures var o := RollbackMeta(v.meta, name);
            && o.result == (if name in v.meta.snaps then Ok(()) else Err(NoSuchSnapshot))
            && Live(v.(meta := o.meta), q)
               == if name in v.meta.snaps then View(v, v.meta.snaps[name].root, q) else Live(v, q)
  {
    hide Resolve, NodeOf;
  }

  lemma RenameChainsAreFolders(m: Meta, from: Path, to: Path, q: Path)
    requires Sane(m) && RenameMeta(m, from, to).result.Ok?
    ensures !(from <= q) && (q <= from || (q <= to && !(to <= q))) ==> IsDirAt(RenameMeta(m, from, to).meta, q)
  {
    RenameKeeps(m, from, to);
    RenamePlace(m, from, to, q);
    RenameResolves(m, from, to, q);
    var (r1, r2) := RenameSteps(m, from, to);
    assert forall id: nat | m.sb.next <= id < r2.next :: id in r2.table && r2.table[id].Dir?;
  }

  ghost predicate Failed(h: Hasher, v: Vol, op: Op) {
    match op
    case Write(p, data) => Written(h, v, p, data).1.Err?
    case Mkdir(p) => MkdirMeta(v.meta, p).result.Err?
    case Remove(p) => RemoveMeta(v.meta, p).result.Err?
    case Rename(from, to) => RenameMeta(v.meta, from, to).result.Err?
    case Rollback(name) => RollbackMeta(v.meta, name).result.Err?
    case _ => false
  }

  lemma FailureKeepsRoots(h: Hasher, v: Vol, op: Op, v': Vol)
    requires Step(h, v, op, v') && Failed(h, v, op)
    ensures v'.meta.sb.root == v.meta.sb.root && v'.meta.snaps == v.meta.snaps
    ensures v'.meta.committed == v.meta.committed
  {
    hide Rebuild, Resolve;
  }

  /** A call that fails changes nothing anyone can see: neither the live tree nor any snapshot. */
  lemma FailureIsInvisible(h: Hasher, v: Vol, op: Op, v': Vol, q: Path)
    requires VolInv(h, v) && Step(h, v, op, v') && Failed(h, v, op)
    ensures Live(v', q) == Live(v, q)
    ensures v'.meta.snaps == v.meta.snaps && v'.meta.committed == v.meta.committed
    ensures forall s | s in v.meta.snaps :: View(v', v.meta.snaps[s].root, q) == View(v, v.meta.snaps[s].root, q)
  {
    hide Step, Failed, VolInv, View;
    FailureKeepsRoots(h, v, op, v');
    PinnedView(h, v, op, v', v.meta.sb.root, q);
    forall s | s in v.meta.snaps ensures View(v', v.meta.snaps[s].root, q) == View(v, v.meta.snaps[s].root, q) {
      PinnedView(h, v, op, v', v.meta.snaps[s].root, q);
    }
  }

  // ---- whole runs ----

  ghost predicate Run(h: Hasher, vs: seq<Vol>, ops: seq<Op>) {
    |vs| == |ops| + 1 && forall i | 0 <= i < |ops| :: Step(h, vs[i], ops[i], vs[i + 1])
  }

  ghost function Last(vs: seq<Vol>): Vol
    requires vs != []
  {
    vs[|vs| - 1]
  }

  lemma RunTail(h: Hasher, vs: seq<Vol>, ops: seq<Op>)
    requires Run(h, vs, ops) && ops != []
    ensures Step(h, vs[0], ops[0], vs[1]) && Run(h, vs[1..], ops[1..]) && Last(vs[1..]) == Last(vs)
  {
    forall i | 0 <= i < |ops| - 1 ensures Step(h, vs[1..][i], ops[1..][i], vs[1..][i + 1]) {
      assert Step(h, vs[i + 1], ops[i + 1], vs[i + 2]);
    }
  }

  lemma {:induction false} RunKeeps(h: Hasher, vs: seq<Vol>, ops: seq<Op>)
    requires Run(h, vs, ops) && VolInv(h, vs[0])
    ensures VolInv(h, Last(vs))
    decreases |ops|
  {
    if ops != [] {
      RunTail(h, vs, ops);
      StepKeeps(h, vs[0], ops[0], vs[1]);
      RunKeeps(h, vs[1..], ops[1..]);
    }
  }

  /** The call commits a new root. */
  ghost predicate Commits(h: Hasher, v: Vol, op: Op) {
    !Failed(h, v, op) && (op.Write? || (op.Mkdir? && op.p != []) || op.Remove? || op.Rename? || op.Rollback?)
  }

  /** The transaction number counts commits, and every commit is on disk when the call returns. */
  lemma StepCounts(h: Hasher, v: Vol, op: Op, v': Vol)
    requires VolInv(h, v) && Step(h, v, op, v')
    ensures v'.meta.sb.txg == v.meta.sb.txg + if Commits(h, v, op) then 1 else 0
    ensures Commits(h, v, op) ==> v'.meta.committed == v'.meta.sb
    ensures !Commits(h, v, op) ==> v'.meta.committed == v.meta.committed
  {
    hide Rebuild, Resolve, MakeFile, GoodRoot, FilesGood;
  }

  /** How many calls of a run commit. */
  ghost function CommitsIn(h: Hasher, vs: seq<Vol>, ops: seq<Op>): nat
    requires |vs| == |ops| + 1
    decreases |ops|
  {
    if ops == [] then 0 else (if Commits(h, vs[0], ops[0]) then 1 else 0) + CommitsIn(h, vs[1..], ops[1..])
  }

  /** So over a run, restarts included, the transaction number rises by exactly the number of commits. */
  lemma {:induction false} RunCounts(h: Hasher, vs: seq<Vol>, ops: seq<Op>)
    requires Run(h, vs, ops) && VolInv(h, vs[0])
    ensures Last(vs).meta.sb.txg == vs[0].meta.sb.txg + CommitsIn(h, vs, ops)
    decreases |ops|
  {
    hide VolInv, Step, Commits;
    if ops != [] {
      RunTail(h, vs, ops);
      StepCounts(h, vs[0], ops[0], vs[1]);
      StepKeeps(h, vs[0], ops[0], vs[1]);
      RunCounts(h, vs[1..], ops[1..]);
    }
  }

  predicate Retakes(op: Op, name: string) {
    op == Snapshot(name)
  }

  lemma SnapshotKept(h: Hasher, v: Vol, op: Op, v': Vol, name: string)
    requires Step(h, v, op, v') && name in v.meta.snaps && !Retakes(op, name)
    ensures name in v'.meta.snaps && v'.meta.snaps[name] == v.meta.snaps[name]
  {
  }

  lemma {:induction false} SnapshotPinned(h: Hasher, vs: seq<Vol>, ops: seq<Op>, name: string, p: Path)
    requires Run(h, vs, ops) && VolInv(h, vs[0]) && name in vs[0].meta.snaps
    requires forall op | op in ops :: !Retakes(op, name)
    ensures var s := vs[0].meta.snaps[name];
            && name in Last(vs).meta.snaps && Last(vs).meta.snaps[name] == s
            && View(Last(vs), s.root, p) == View(vs[0], s.root, p)
    decreases |ops|
  {
    if ops != [] {
      RunTail(h, vs, ops);
      assert ops[0] in ops;
      StepKeeps(h, vs[0], ops[0], vs[1]);
      PinnedView(h, vs[0], ops[0], vs[1], vs[0].meta.snaps[name].root, p);
      SnapshotKept(h, vs[0], ops[0], vs[1], name);
      SnapshotPinned(h, vs[1..], ops[1..], name, p);
    }
  }

  /**
   * Snapshots are permanent: after any run of writes, mkdirs, removes, renames, rollbacks, collections,
   * restarts and other snapshots, rolling back to `name` makes every path show, byte for byte, what it
   * showed when `name` was last taken.
   */
  lemma SnapshotsArePermanent(h: Hasher, v: Vol, name: string, vs: seq<Vol>, ops: seq<Op>, v': Vol, p: Path)
    requires VolInv(h, v)
    requires Run(h, vs, ops) && Step(h, v, Snapshot(name), vs[0])
    requires forall op | op in ops :: !Retakes(op, name)
    requires Step(h, Last(vs), Rollback(name), v')
    ensures Live(v', p) == Live(v, p)
  {
    StepKeeps(h, v, Snapshot(name), vs[0]);
    SnapshotPinned(h, vs, ops, name, p);
  }

  /** The call neither addresses the file at `p` nor one of the directories it is in, nor replaces the tree. */
  predicate Spares(op: Op, p: Path) {
    match op
    case Write(q, _) => !(q <= p)
    case Mkdir(q) => !(q <= p) || q == []
    case Remove(q) => !(q <= p)
    case Rename(from, to) => !(from <= p) && !(to <= p)
    case Rollback(_) => false
    case _ => true
  }

  lemma StepSpares(h: Hasher, v: Vol, op: Op, v': Vol, p: Path, bytes: ByteSeq)
    requires VolInv(h, v) && Step(h, v, op, v') && Spares(op, p) && Live(v, p) == Ok(Document(bytes))
    ensures Live(v', p) == Ok(Document(bytes))
  {
    PinnedView(h, v, op, v', v.meta.sb.root, p);
    match op
    case Write(q, data) =>
      if Written(h, v, q, data).1.Ok? {
        WriteShows(h, v, q, data, p);
        FileBlocks(v, p, bytes, q);
        PlaceOutcome(v.meta, q, MakeFile(h, data));
      }
    case Mkdir(q) =>
      if q != [] && MkdirMeta(v.meta, q).result.Ok? {
        MkdirShows(h, v, q, p);
        FileBlocks(v, p, bytes, q);
        PlaceOutcome(v.meta, q, Dir(map[]));
      }
    case Remove(q) =>
      if RemoveMeta(v.meta, q).result.Ok? {
        RemoveShows(h, v, q, p);
      }
    case Rename(from, to) =>
      if RenameMeta(v.meta, from, to).result.Ok? {
        RenameSpares(h, v, from, to, p, bytes);
      }
    case _ =>
  }

  lemma RenameSpares(h: Hasher, v: Vol, from: Path, to: Path, p: Path, bytes: ByteSeq)
    requires VolInv(h, v) && RenameMeta(v.meta, from, to).result.Ok?
    requires !(from <= p) && !(to <= p) && Live(v, p) == Ok(Document(bytes))
    ensures Live(v.(meta := RenameMeta(v.meta, from, to).meta), p) == Ok(Document(bytes))
  {
    RenameOutcome(v.meta, from, to);
    RenameShows(h, v, from, to, p);
    FileBlocks(v, p, bytes, from);
    FileBlocks(v, p, bytes, to);
    ResolvedNotBlocked(v.meta.table, v.meta.sb.root, from);
  }

  /** No path continues below a file. */
  lemma FileBlocks(v: Vol, p: Path, bytes: ByteSeq, q: Path)
    requires Live(v, p) == Ok(Document(bytes)) && !(q <= p)
    ensures p <= q ==> Blocked(v.meta.table, v.meta.sb.root, q)
  {
    if p <= q {
      assert q[..|p|] == p;
      assert IsFileAt(v.meta.table, v.meta.sb.root, q[..|p|]);
    }
  }

  lemma {:induction false} RunSpares(h: Hasher, vs: seq<Vol>, ops: seq<Op>, p: Path, bytes: ByteSeq)
    requires Run(h, vs, ops) && VolInv(h, vs[0]) && Live(vs[0], p) == Ok(Document(bytes))
    requires forall op | op in ops :: Spares(op, p)
    ensures Live(Last(vs), p) == Ok(Document(bytes))
    decreases |ops|
  {
    if ops != [] {
      RunTail(h, vs, ops);
      assert ops[0] in ops;
      StepKeeps(h, vs[0], ops[0], vs[1]);
      StepSpares(h, vs[0], ops[0], vs[1], p, bytes);
      RunSpares(h, vs[1..], ops[1..], p, bytes);
    }
  }

  /**
   * The round trip, at any distance: data of any length written at a path is what the path shows after any
   * run of calls, collections and restarts included, that leave the file and its ancestors alone.
   */
  lemma WrittenDataPersists(h: Hasher, v: Vol, p: Path, data: ByteSeq, vs: seq<Vol>, ops: seq<Op>)
    requires VolInv(h, v) && Written(h, v, p, data).1.Ok?
    requires Run(h, vs, ops) && vs[0] == Written(h, v, p, data).0
    requires forall op | op in ops :: Spares(op, p)
    ensures Live(Last(vs), p) == Ok(Document(data))
  {
    StepKeeps(h, v, Write(p, data), vs[0]);
    WriteShows(h, v, p, data, p);
    RunSpares(h, vs, ops, p, data);
  }
}
