/** The filesystem object: superblock, inode table and cache, snapshots, and the block store underneath. */
module Filesystems {
  import opened Prelude
  import opened Bytes
  import opened Digests
  import opened Sums
  import opened Paths
  import opened LinkedMaps
  import opened BlockLogs
  import opened BlockStores
  import opened Inodes
  import opened Metadata
  import opened Contents
  import opened Volumes
  import opened Marking

  const INODE_CACHE_ENTRIES: nat := 65536

  /** Everything that survives a restart. */
  datatype Image = Image(disk: Disk, inodes: Table, root: Option<SuperBlock>, snapshots: map<string, SuperBlock>)

  /** The metadata an open finds, or creates on a volume that never had a root. */
  function Opened(image: Image): Meta {
    match image.root
    case Some(sb) => Meta(image.inodes, sb, sb, image.snapshots)
    case None =>
      var sb := SuperBlock(0, 1, 0);
      Meta(image.inodes[0 := Dir(map[])], sb, sb, image.snapshots)
  }

  ghost predicate Mountable(h: Hasher, image: Image) {
    && Sound(h, image.disk)
    && VolInv(h, Vol(Opened(image), StoredBlocks(image.disk)))
  }

  /** A blank disk opens into a volume that shows an empty folder and nothing else. */
  lemma BlankIsMountable(h: Hasher)
    ensures var image := Image(Disk([], map[]), map[], None, map[]);
            && Mountable(h, image)
            && forall p :: Live(Vol(Opened(image), StoredBlocks(image.disk)), p)
                           == if p == [] then Ok(Folder) else Err(NoSuchComponent)
  {
    InitialVol(h);
    assert StoredBlocks(Disk([], map[])) == map[];
  }

  datatype GcReport = GcReport(keptBlocks: nat, droppedBlocks: nat, bytesReclaimed: nat)

  datatype FsInfo = FsInfo(
    txg: nat, files: nat, dirs: nat, uniqueBlocks: nat, logicalBytes: nat,
    physicalReferenced: nat, physicalTotal: nat, reclaimableBytes: nat)

  lemma SoundIsUndamaged(h: Hasher, d: Disk, live: set<Digest>)
    requires Sound(h, d)
    ensures !LiveDamage(d, live)
    ensures StoredBlocks(d).Keys == d.index.Keys
  {
    forall k | k in d.index ensures ReadBlock(d, k).Some? {
      assert Intact(h, d, k);
    }
  }

  /** The first chunk of what is left, and what storing it leaves to do. */
  lemma NextChunk(h: Hasher, blocks: Blocks, hs: seq<Digest>, rest: ByteSeq, chunk: ByteSeq)
    requires rest != [] && chunk == if |rest| <= BLOCK_SIZE then rest else rest[..BLOCK_SIZE]
    ensures 0 < |chunk| <= BLOCK_SIZE
    ensures hs + HashAll(h, Chunks(rest)) == hs + [h(chunk)] + HashAll(h, Chunks(rest[|chunk|..]))
    ensures StoreAll(h, blocks, Chunks(rest)) == StoreAll(h, blocks[h(chunk) := chunk], Chunks(rest[|chunk|..]))
  {
    ChunksCons(rest);
    hide Chunks;
    var more := Chunks(rest[|chunk|..]);
    assert ([chunk] + more)[1..] == more;
    assert HashAll(h, [chunk] + more) == [h(chunk)] + HashAll(h, more);
  }

  /** `out`, then whatever the rest of a read yields. */
  function After(out: ByteSeq, r: Result<ByteSeq>): Result<ByteSeq> {
    match r
    case Err(e) => Err(e)
    case Ok(rest) => Ok(out + rest)
  }

  lemma GatherFrom(blocks: Blocks, out: ByteSeq, hs: seq<Digest>)
    ensures After([], Gather(blocks, hs)) == Gather(blocks, hs)
    ensures hs != [] && hs[0] in blocks ==>
              After(out, Gather(blocks, hs)) == After(out + blocks[hs[0]], Gather(blocks, hs[1..]))
  {
    if Gather(blocks, hs).Ok? {
      assert [] + Gather(blocks, hs).value == Gather(blocks, hs).value;
    }
    if hs != [] && hs[0] in blocks && Gather(blocks, hs[1..]).Ok? {
      var rest := Gather(blocks, hs[1..]).value;
      assert out + (blocks[hs[0]] + rest) == out + blocks[hs[0]] + rest;
    }
  }

  lemma FetchedIsStored(h: Hasher, d: Disk, k: Digest)
    requires Sound(h, d)
    ensures Fetched(h, d, k) == if k in StoredBlocks(d) then Ok(StoredBlocks(d)[k]) else Err(BlockNotFound)
  {
    if k in d.index {
      assert Intact(h, d, k);
    }
  }

  class Filesystem {
    const hash: Hasher
    const store: BlockStore
    var inodes: Table
    var sb: SuperBlock
    var superTree: SuperBlock
    var snapshots: map<string, SuperBlock>
    var inodeCache: seq<(nat, Inode)>

    ghost function Abs(): Meta
      reads this
    {
      Meta(inodes, sb, superTree, snapshots)
    }

    ghost function Volume(): Vol
      reads this, store
    {
      Vol(Abs(), StoredBlocks(store.OnDisk()))
    }

    ghost function Persistent(): Image
      reads this, store
    {
      Image(store.OnDisk(), inodes, Some(superTree), snapshots)
    }

    /** Cached inodes never go stale. */
    ghost predicate Coherent()
      reads this
    {
      && |inodeCache| <= INODE_CACHE_ENTRIES
      && forall e | e in inodeCache :: e.0 in inodes && inodes[e.0] == e.1
    }

    ghost predicate Valid()
      reads this, store, store.cache
    {
      && store.Valid() && store.hash == hash && Coherent()
      && VolInv(hash, Volume())
    }

    /** Open a volume over an opened block store: load the root, or make an empty one if there is none. */
    constructor Open(blocks: BlockStore, image: Image)
      ensures store == blocks && hash == blocks.hash && inodeCache == []
      ensures Abs() == Opened(image)
    {
      hash := blocks.hash;
      store := blocks;
      snapshots := image.snapshots;
      inodeCache := [];
      if image.root.Some? {
        inodes, sb, superTree := image.inodes, image.root.value, image.root.value;
      } else {
        inodes := image.inodes[0 := Dir(map[])];
        sb := SuperBlock(0, 1, 0);
        superTree := SuperBlock(0, 1, 0);
      }
    }

    /** The state an open leaves: the volume found on disk, and empty caches. */
    ghost predicate OpenedFrom(image: Image)
      reads this, store, store.cache
    {
      && store.Honest() && store.hash == hash && store.OnDisk() == image.disk && store.Cached() == []
      && inodeCache == [] && Abs() == Opened(image)
    }

    lemma OpenedIsValid(image: Image)
      requires OpenedFrom(image) && Mountable(hash, image)
      ensures Valid()
    {
    }

    /** Restarting loses exactly what a crash loses: opening what is persistent gives the reopened volume. */
    lemma RestartIsReopen()
      requires Valid()
      ensures Mountable(hash, Persistent())
      ensures Step(hash, Volume(), Reopen, Vol(Opened(Persistent()), StoredBlocks(Persistent().disk)))
    {
      StepKeeps(hash, Volume(), Reopen, Vol(Opened(Persistent()), StoredBlocks(Persistent().disk)));
    }

    // ---- inodes ----

    method ReadInode(id: nat) returns (r: Result<Inode>)
      requires Coherent()
      modifies `inodeCache
      ensures Coherent()
      ensures r == if id in inodes then Ok(inodes[id]) else Err(Dangling)
    {
      LookupFinds(inodeCache, id);
      WithoutMembers(inodeCache, id);
      var hit := Lookup(inodeCache, id);
      if hit.Some? {
        WithoutShrinks(inodeCache, id);
        inodeCache := Without(inodeCache, id) + [(id, hit.value)];
        return hit.ToResult(Dangling);
      }
      if id !in inodes {
        return Err(Dangling);
      }
      Remember(id, inodes[id]);
      return Ok(inodes[id]);
    }

    method PutInode(id: nat, inode: Inode)
      requires Coherent()
      modifies `inodes, `inodeCache
      ensures Coherent() && inodes == old(inodes)[id := inode]
    {
      WithoutMembers(inodeCache, id);
      inodes := inodes[id := inode];
      inodeCache := Without(inodeCache, id);
      Remember(id, inode);
    }

    /** Make `id` the most recently used cache entry, evicting the least recently used one when full. */
    method Remember(id: nat, inode: Inode)
      requires Coherent() && id in inodes && inodes[id] == inode
      modifies `inodeCache
      ensures Coherent()
    {
      WithoutMembers(inodeCache, id);
      inodeCache := Without(inodeCache, id) + [(id, inode)];
      if |inodeCache| > INODE_CACHE_ENTRIES {
        inodeCache := inodeCache[1..];
      }
    }

    method Alloc() returns (id: nat)
      modifies `sb
      ensures id == old(sb).next && sb == old(sb).(next := old(sb).next + 1)
    {
      id := sb.next;
      sb := sb.(next := sb.next + 1);
    }

    method CommitRoot(root: nat)
      modifies `sb, `superTree
      ensures Abs() == Commit(old(Abs()), root)
    {
      sb := SuperBlock(root, sb.next, sb.txg + 1);
      superTree := sb;
    }

    method ResolveId(p: Path) returns (r: Result<nat>)
      requires Coherent()
      modifies `inodeCache
      ensures Coherent() && r == At(Abs(), p)
    {
      var id := sb.root;
      var i := 0;
      assert p[0..] == p;
      while i < |p|
        invariant 0 <= i <= |p| && Coherent()
        invariant Resolve(inodes, id, p[i..]) == At(Abs(), p)
      {
        assert p[i..][1..] == p[i + 1..];
        var inode := ReadInode(id);
        if inode.Err? {
          return Err(inode.error);
        }
        if inode.value.File? {
          return Err(NotADirectory);
        }
        if p[i] !in inode.value.entries {
          return Err(NoSuchComponent);
        }
        id := inode.value.entries[p[i]];
        i := i + 1;
      }
      return Ok(id);
    }

    method RebuildChain(dir: nat, p: Path, leaf: Option<nat>) returns (r: Result<nat>)
      requires Coherent() && p != []
      modifies `inodes, `inodeCache, `sb
      ensures Coherent()
      ensures Rebuilt(inodes, sb.next, r) == Rebuild(old(inodes), old(sb).next, dir, p, leaf)
      ensures sb == old(sb).(next := sb.next)
      decreases |p|
    {
      var inode := ReadInode(dir);
      if inode.Err? {
        return Err(inode.error);
      }
      if inode.value.File? {
        return Err(TraversesFile);
      }
      var entries: map<Name, nat> := inode.value.entries;
      var name := p[0];
      if |p| == 1 {
        match leaf {
          case Some(id) => entries := entries[name := id];
          case None =>
            if name !in entries {
              return Err(NoSuchEntry);
            }
            entries := entries - {name};
        }
      } else {
        var child: nat;
        if name in entries {
          child := entries[name];
        } else {
          child := Alloc();
          PutInode(child, Dir(map[]));
        }
        var newChild := RebuildChain(child, p[1..], leaf);
        if newChild.Err? {
          return newChild;
        }
        entries := entries[name := newChild.value];
      }
      var newId := Alloc();
      PutInode(newId, Dir(entries));
      return Ok(newId);
    }

    /** Rebuild from the live root and, if that succeeds, commit the new root. */
    method RebuildAndCommit(p: Path, leaf: Option<nat>) returns (r: Result<()>)
      requires Coherent() && p != []
      modifies `inodes, `inodeCache, `sb, `superTree
      ensures Coherent()
      ensures Outcome(Abs(), r) == Publish(old(Abs()), Rebuild(old(inodes), old(sb).next, old(sb).root, p, leaf))
    {
      var newRoot := RebuildChain(sb.root, p, leaf);
      if newRoot.Err? {
        return Err(newRoot.error);
      }
      CommitRoot(newRoot.value);
      return Ok(());
    }

    // ---- files and directories ----

    /** Split data into blocks and store each. */
    method PutChunks(data: ByteSeq) returns (hs: seq<Digest>)
      requires store.Valid() && store.hash == hash
      modifies store, store.cache
      ensures store.Valid()
      ensures hs == HashAll(hash, Chunks(data))
      ensures StoredBlocks(store.OnDisk()) == StoreAll(hash, old(StoredBlocks(store.OnDisk())), Chunks(data))
      ensures IsTiled(old(store.OnDisk())) ==> IsTiled(store.OnDisk())
    {
      hs := [];
      var rest := data;
      while rest != []
        invariant store.Valid() && (IsTiled(old(store.OnDisk())) ==> IsTiled(store.OnDisk()))
        invariant hs + HashAll(hash, Chunks(rest)) == HashAll(hash, Chunks(data))
        invariant StoreAll(hash, StoredBlocks(store.OnDisk()), Chunks(rest))
                  == StoreAll(hash, old(StoredBlocks(store.OnDisk())), Chunks(data))
        decreases |rest|
      {
        var chunk := if |rest| <= BLOCK_SIZE then rest else rest[..BLOCK_SIZE];
        NextChunk(hash, StoredBlocks(store.OnDisk()), hs, rest, chunk);
        var k := store.Put(chunk);
        hs := hs + [k];
        rest := rest[|chunk|..];
      }
    }

    /** Create or overwrite a file, making missing parents. */
    method WriteFile(path: string, data: ByteSeq) returns (r: Result<()>)
      requires Valid()
      modifies this, store, store.cache
      ensures Valid()
      ensures (Volume(), r) == Written(hash, old(Volume()), Split(path), data)
      ensures IsTiled(old(store.OnDisk())) ==> IsTiled(store.OnDisk())
    {
      ghost var v := Volume();
      var comps := Split(path);
      if comps == [] {
        return Err(RootPath);
      }
      var file := StoreData(data);
      r := PlaceInode(comps, file);
      StepKeeps(hash, v, Write(comps, data), Volume());
    }

    /** Store the data, inline or in blocks; the inode to place says which. */
    method StoreData(data: ByteSeq) returns (file: Inode)
      requires store.Valid() && store.hash == hash
      modifies store, store.cache
      ensures store.Valid() && file == MakeFile(hash, data)
      ensures StoredBlocks(store.OnDisk()) == WithData(hash, old(StoredBlocks(store.OnDisk())), data)
      ensures IsTiled(old(store.OnDisk())) ==> IsTiled(store.OnDisk())
    {
      if |data| <= INLINE_MAX {
        return File(|data|, [], data);
      }
      var blocks := PutChunks(data);
      return File(|data|, blocks, []);
    }

    /** Give an inode an id and publish a tree that has it at `comps`. */
    method PlaceInode(comps: Path, inode: Inode) returns (r: Result<()>)
      requires Coherent() && comps != []
      modifies `inodes, `inodeCache, `sb, `superTree
      ensures Coherent()
      ensures Outcome(Abs(), r) == Place(old(Abs()), comps, inode)
    {
      var id := Alloc();
      PutInode(id, inode);
      r := RebuildAndCommit(comps, Some(id));
    }

    /** Read a file back, every block verified. */
    method ReadFile(path: string) returns (r: Result<ByteSeq>)
      requires Valid()
      modifies `inodeCache, store.cache
      ensures Valid()
      ensures r == AnswerTo(Live(Volume(), Split(path)))
    {
      var id := ResolveId(Split(path));
      if id.Err? {
        return Err(id.error);
      }
      var inode := ReadInode(id.value);
      if inode.Err? {
        return Err(inode.error);
      }
      if inode.value.Dir? {
        return Err(IsADirectory);
      }
      if inode.value.blocks == [] {
        return Ok(inode.value.inline);
      }
      r := ReadBlocks(inode.value.blocks);
    }

    method ReadBlocks(hs: seq<Digest>) returns (r: Result<ByteSeq>)
      requires store.Valid() && store.hash == hash
      modifies store.cache
      ensures store.Valid()
      ensures r == Gather(StoredBlocks(store.OnDisk()), hs)
    {
      ghost var blocks := StoredBlocks(store.OnDisk());
      var out := [];
      var rest := hs;
      GatherFrom(blocks, out, rest);
      while rest != []
        invariant store.Valid()
        invariant Gather(blocks, hs) == After(out, Gather(blocks, rest))
        decreases |rest|
      {
        GatherFrom(blocks, out, rest);
        FetchedIsStored(hash, store.OnDisk(), rest[0]);
        var bytes := store.Get(rest[0]);
        if bytes.Err? {
          return bytes;
        }
        out := out + bytes.value;
        rest := rest[1..];
      }
      return After(out, Ok([]));
    }

    method MakeDir(path: string) returns (r: Result<()>)
      requires Valid()
      modifies this
      ensures Valid()
      ensures Outcome(Abs(), r) == MkdirMeta(old(Abs()), Split(path))
    {
      ghost var v := Volume();
      var comps := Split(path);
      if comps == [] {
        return Ok(());
      }
      r := PlaceInode(comps, Dir(map[]));
      StepKeeps(hash, v, Mkdir(comps), Volume());
    }

    method RemoveEntry(path: string) returns (r: Result<()>)
      requires Valid()
      modifies this
      ensures Valid()
      ensures Outcome(Abs(), r) == RemoveMeta(old(Abs()), Split(path))
    {
      ghost var v := Volume();
      var comps := Split(path);
      if comps == [] {
        return Err(RootPath);
      }
      r := RebuildAndCommit(comps, None);
      StepKeeps(hash, v, Remove(comps), Volume());
    }

    method RenameEntry(from: string, to: string) returns (r: Result<()>)
      requires Valid()
      modifies this
      ensures Valid()
      ensures Outcome(Abs(), r) == RenameMeta(old(Abs()), Split(from), Split(to))
    {
      ghost var v := Volume();
      var fromComps := Split(from);
      var toComps := Split(to);
      if fromComps == [] || toComps == [] {
        return Err(RootPath);
      }
      r := LinkThenCut(fromComps, toComps);
      StepKeeps(hash, v, Rename(fromComps, toComps), Volume());
    }

    /** Two rebuilds, one commit: link the inode in at its new path, then cut the old entry. */
    method LinkThenCut(from: Path, to: Path) returns (r: Result<()>)
      requires Coherent() && from != [] && to != []
      modifies `inodes, `inodeCache, `sb, `superTree
      ensures Coherent()
      ensures Outcome(Abs(), r) == RenameMeta(old(Abs()), from, to)
    {
      var id := ResolveId(from);
      if id.Err? {
        return Err(id.error);
      }
      var root := RebuildChain(sb.root, to, Some(id.value));
      if root.Err? {
        return Err(root.error);
      }
      root := RebuildChain(root.value, from, None);
      if root.Err? {
        return Err(root.error);
      }
      CommitRoot(root.value);
      return Ok(());
    }

    // ---- snapshots ----

    method TakeSnapshot(name: string)
      requires Valid()
      modifies `snapshots
      ensures Valid()
      ensures Abs() == SnapshotMeta(old(Abs()), name) && snapshots == old(snapshots)[name := sb]
    {
      ghost var v := Volume();
      snapshots := snapshots[name := sb];
      StepKeeps(hash, v, Snapshot(name), Volume());
    }

    method RollbackTo(name: string) returns (r: Result<()>)
      requires Valid()
      modifies `sb, `superTree
      ensures Valid()
      ensures Outcome(Abs(), r) == RollbackMeta(old(Abs()), name)
    {
      ghost var v := Volume();
      if name !in snapshots {
        return Err(NoSuchSnapshot);
      }
      var snap := snapshots[name];
      sb := sb.(root := snap.root);
      sb := sb.(next := if sb.next < snap.next then snap.next else sb.next);
      CommitRoot(sb.root);
      StepKeeps(hash, v, Rollback(name), Volume());
      return Ok(());
    }

    // ---- integrity, accounting, collection ----

    /** In every state the engine itself can reach, scrubbing finds nothing. */
    method ScrubAll() returns (checked: nat, bad: set<Digest>)
      requires Valid()
      ensures checked == |Volume().blocks| && bad == {}
    {
      SoundIsUndamaged(hash, store.OnDisk(), {});
      checked, bad := store.Scrub();
      assert StoredBlocks(store.OnDisk()).Keys == store.index.Keys;
    }

    method WalkBlocks(id: nat, visited: set<nat>, live: set<Digest>)
      returns (r: Result<()>, visited': set<nat>, live': set<Digest>)
      requires Coherent() && Ordered(inodes) && Covers(inodes, sb.next) && id < sb.next
      requires Marked(inodes, visited, live) && ClosedUpTo(inodes, visited, id)
      modifies `inodeCache
      ensures Coherent() && r.Ok?
      ensures visited' == visited + Reach(inodes, id)
      ensures Marked(inodes, visited', live')
      decreases id
    {
      visited', live' := visited, live;
      if id in visited {
        return Ok(()), visited', live';
      }
      visited' := visited' + {id};
      var inode := ReadInode(id);
      if inode.Err? {
        return Err(Dangling), visited', live';
      }
      match inode.value {
        case File(_, blocks, _) =>
          MarkFile(inodes, visited, live, id);
          live' := live' + set k | k in blocks;
        case Dir(entries) =>
          MarkDir(inodes, visited, live, id);
          visited', live' := WalkChildren(id, entries, visited', live', visited);
      }
      return Ok(()), visited', live';
    }

    method WalkChildren(id: nat, entries: map<Name, nat>, start: set<nat>, live: set<Digest>, ghost before: set<nat>)
      returns (visited: set<nat>, live': set<Digest>)
      requires Coherent() && Ordered(inodes) && Covers(inodes, sb.next) && id < sb.next
      requires id in inodes && inodes[id] == Dir(entries) && start == before + {id}
      requires Marked(inodes, start, live) && ClosedUpTo(inodes, before, id) && id !in before
      modifies `inodeCache
      ensures Coherent()
      ensures visited == before + Reach(inodes, id)
      ensures Marked(inodes, visited, live')
      decreases id, 0
    {
      visited, live' := start, live;
      var todo := entries.Keys;
      while todo != {}
        invariant todo <= entries.Keys && Coherent()
        invariant visited == start + ChildReach(inodes, id, entries.Keys - todo)
        invariant forall v | v in visited && v < id :: Reach(inodes, v) <= visited
        invariant Marked(inodes, visited, live')
      {
        var n :| n in todo;
        VisitedSubtree(inodes, visited, entries[n], id);
        assert ClosedUpTo(inodes, visited, entries[n]);
        ChildReachGrows(inodes, id, entries.Keys - todo, n);
        assert entries.Keys - (todo - {n}) == entries.Keys - todo + {n};
        var r;
        r, visited, live' := WalkBlocks(entries[n], visited, live');
        todo := todo - {n};
      }
      assert entries.Keys - todo == entries.Keys;
      AllChildren(inodes, id);
    }

    /** The mark phase over the live root and every snapshot root collects exactly the needed blocks. */
    method CollectLiveBlocks() returns (live: set<Digest>)
      requires Valid()
      modifies `inodeCache
      ensures Valid()
      ensures live == NeededSet(Abs())
    {
      var roots := {sb.root} + set s | s in snapshots :: snapshots[s].root;
      assert Sane(Abs()) && roots == Roots(Abs()) && forall r | r in roots :: r < sb.next;
      ghost var visited;
      live, visited := MarkFrom(roots);
      MarkedIsNeeded(Abs(), visited, live);
    }

    /** Walk the tree below each root, with one visited set shared by all of them. */
    method MarkFrom(roots: set<nat>) returns (live: set<Digest>, ghost seen: set<nat>)
      requires Coherent() && Ordered(inodes) && Covers(inodes, sb.next) && forall r | r in roots :: r < sb.next
      modifies `inodeCache
      ensures Coherent() && Marked(inodes, seen, live)
      ensures forall x :: x in seen <==> exists r :: r in roots && x in Reach(inodes, r)
    {
      hide Marked, Reach;
      live := {};
      var visited: set<nat> := {};
      var todo := roots;
      NothingMarked(inodes);
      while todo != {}
        invariant todo <= roots && Coherent()
        invariant Marked(inodes, visited, live)
        invariant forall x :: x in visited <==> exists r :: r in roots - todo && x in Reach(inodes, r)
      {
        var root :| root in todo;
        RootsAreClosed(inodes, roots - todo, visited);
        var r;
        ghost var before := visited;
        r, visited, live := WalkBlocks(root, visited, live);
        VisitedRoots(inodes, roots - todo, root, before, visited);
        assert roots - (todo - {root}) == roots - todo + {root};
        todo := todo - {root};
      }
      assert roots - todo == roots;
      seen := visited;
    }

    /**
     * Collect garbage: only blocks that no live or pinned file needs go away, nothing visible changes, and
     * the report is exact.
     */
    method CollectGarbage() returns (r: Result<GcReport>)
      requires Valid()
      modifies `inodeCache, store, store.cache
      ensures Valid() && r.Ok?
      ensures Step(hash, old(Volume()), Gc, Volume())
      ensures store.index.Keys == old(store.index).Keys * NeededSet(Abs())
      ensures forall k | k in store.index :: store.index[k].len == old(store.index)[k].len
      ensures r.value.keptBlocks == |store.index|
      ensures r.value.droppedBlocks == |old(store.index).Keys - NeededSet(Abs())|
      ensures r.value.bytesReclaimed == Total(Lens(old(store.index)), old(store.index).Keys - NeededSet(Abs()))
      ensures exists order :: Tiled(store.OnDisk(), order)
    {
      ghost var v := Volume();
      var live := CollectLiveBlocks();
      r := CompactTo(live);
      CompactedIsCollected(hash, v, Volume(), live);
      StepKeeps(hash, v, Gc, Volume());
    }

    method CompactTo(live: set<Digest>) returns (r: Result<GcReport>)
      requires store.Valid() && store.hash == hash
      modifies store, store.cache
      ensures store.Valid() && r.Ok?
      ensures StoredBlocks(store.OnDisk())
              == map k | k in old(StoredBlocks(store.OnDisk())) && k in live :: old(StoredBlocks(store.OnDisk()))[k]
      ensures store.index.Keys == old(store.index).Keys * live
      ensures forall k | k in store.index :: store.index[k].len == old(store.index)[k].len
      ensures r.value == GcReport(|store.index|, |old(store.index).Keys - live|,
                                  Total(Lens(old(store.index)), old(store.index).Keys - live))
      ensures IsTiled(store.OnDisk())
    {
      ghost var d := store.OnDisk();
      SoundIsUndamaged(hash, d, live);
      var stats := store.Compact(live);
      assert stats.Ok?;
      CompactedContents(hash, d, live, store.OnDisk());
      CompactedLens(d, live, store.OnDisk());
      assert |store.index| == |store.index.Keys|;
      return Ok(GcReport(stats.value.keptBlocks, stats.value.droppedBlocks, stats.value.bytesReclaimed));
    }

    /** Tally the tree below `id`; in a tree every inode is met exactly once. */
    method Walk(id: nat, acc: Tally, ghost before: set<nat>) returns (acc': Tally)
      requires Coherent() && Ordered(inodes) && Covers(inodes, sb.next) && id < sb.next
      requires TreeShaped(inodes, id) && before !! Reach(inodes, id) && Counts(inodes, before, acc)
      modifies `inodeCache
      ensures Coherent()
      ensures Counts(inodes, before + Reach(inodes, id), acc')
      decreases id
    {
      var inode := ReadInode(id);
      acc' := acc;
      if inode.Ok? {
        CountOne(inodes, before, acc, id);
        acc' := WithInode(acc, inode.value);
        if inode.value.Dir? {
          acc' := WalkEntries(id, inode.value.entries, acc', before + {id});
        }
        assert before + Reach(inodes, id) == before + {id} + Reach(inodes, id);
        assert inode.value.File? ==> before + {id} == before + Reach(inodes, id);
      }
    }

    method WalkEntries(id: nat, entries: map<Name, nat>, acc: Tally, ghost before: set<nat>) returns (acc': Tally)
      requires Coherent() && Ordered(inodes) && Covers(inodes, sb.next) && id < sb.next
      requires id in inodes && inodes[id] == Dir(entries) && TreeShaped(inodes, id)
      requires id in before && (before - {id}) !! Reach(inodes, id) && Counts(inodes, before, acc)
      modifies `inodeCache
      ensures Coherent()
      ensures Counts(inodes, before + Reach(inodes, id), acc')
      decreases id, 0
    {
      acc' := acc;
      var todo := entries.Keys;
      ghost var done: set<Name> := {};
      assert before + ChildReach(inodes, id, done) == before;
      while todo != {}
        invariant Coherent() && todo !! done && todo + done == entries.Keys
        invariant Counts(inodes, before + ChildReach(inodes, id, done), acc')
      {
        var n :| n in todo;
        NextEntry(inodes, id, before, done, n);
        acc' := Walk(entries[n], acc', before + ChildReach(inodes, id, done));
        todo, done := todo - {n}, done + {n};
      }
      assert done == entries.Keys;
      AllChildren(inodes, id);
      assert before + ChildReach(inodes, id, done) == before + Reach(inodes, id);
    }

    /** Every live file and directory is counted once; reclaimable bytes are those the live tree does not use. */
    method Info() returns (info: FsInfo)
      requires Valid()
      modifies `inodeCache
      ensures Valid()
      ensures info.txg == sb.txg && info.uniqueBlocks == |store.index|
      ensures info.files == |FileIds(inodes, Reach(inodes, sb.root))|
      ensures info.dirs == |DirIds(inodes, Reach(inodes, sb.root))|
      ensures info.logicalBytes == Total(Sizes(inodes), FileIds(inodes, Reach(inodes, sb.root)))
      ensures info.physicalTotal == Physical(store.index)
      ensures RootNeeded(Abs()) <= store.index.Keys
      ensures info.physicalReferenced == Total(Lens(store.index), RootNeeded(Abs()))
      ensures info.reclaimableBytes == Reclaimable(Abs(), store.index)
    {
      var tally := CountLive();
      LiveIsIndexed(hash, Volume(), tally.live);
      SoundIsUndamaged(hash, store.OnDisk(), {});
      var referenced := SumLens(tally.live);
      var physical := store.PhysicalBytes();
      TotalMonotone(Lens(store.index), tally.live, store.index.Keys);
      return FsInfo(sb.txg, tally.files, tally.dirs, |store.index|, tally.logical, referenced, physical,
                    if physical < referenced then 0 else physical - referenced);
    }

    /** One walk over the live tree. */
    method CountLive() returns (tally: Tally)
      requires Valid()
      modifies `inodeCache
      ensures Valid() && Counts(inodes, Reach(inodes, sb.root), tally)
    {
      CountNothing(inodes);
      tally := Walk(sb.root, Tally(0, 0, 0, {}), {});
      assert {} + Reach(inodes, sb.root) == Reach(inodes, sb.root);
    }

    method SumLens(ks: set<Digest>) returns (total: nat)
      requires ks <= store.index.Keys
      ensures total == Total(Lens(store.index), ks)
    {
      total := 0;
      var todo := ks;
      while todo != {}
        invariant todo <= ks
        invariant total + Total(Lens(store.index), todo) == Total(Lens(store.index), ks)
      {
        var k :| k in todo;
        TotalSplit(Lens(store.index), todo, k);
        var len := store.LenFor(k);
        total := total + len;
        todo := todo - {k};
      }
    }

    /** Whether the share of reclaimable bytes exceeds the tolerance. */
    method WorthCollecting(maxUnused: real) returns (yes: bool)
      requires Valid()
      modifies `inodeCache
      ensures Valid()
      ensures RootNeeded(Abs()) <= store.index.Keys
      ensures yes <==> ExceedsTolerance(Abs(), store.index, maxUnused)
    {
      hide OverTolerance, MoreThan, FileIds, DirIds, Sizes, Physical, Reclaimable, RootNeeded, VolInv, Lens;
      var info := Info();
      OverToleranceIff(info.reclaimableBytes, info.physicalTotal, maxUnused);
      return OverTolerance(info.reclaimableBytes, info.physicalTotal, maxUnused);
    }

    /** Collect only if it is worth it. */
    method MaybeCollect(maxUnused: real) returns (r: Option<Result<GcReport>>)
      requires Valid()
      modifies `inodeCache, store, store.cache
      ensures Valid()
      ensures RootNeeded(Abs()) <= old(store.index).Keys
      ensures r.Some? <==> ExceedsTolerance(Abs(), old(store.index), maxUnused)
      ensures r.None? ==> Volume() == old(Volume())
      ensures r.Some? ==> r.value.Ok? && Step(hash, old(Volume()), Gc, Volume())
    {
      var yes := WorthCollecting(maxUnused);
      if !yes {
        return None;
      }
      var report := CollectGarbage();
      return Some(report);
    }
  }

  /** Something is stored, and more than that share of it is reclaimable. */
  ghost predicate ExceedsTolerance(m: Meta, index: Index, maxUnused: real)
    requires Ordered(m.table) && RootNeeded(m) <= index.Keys
  {
    Physical(index) > 0 && MoreThan(Reclaimable(m, index), maxUnused, Physical(index))
  }

  /** `part` is more than that share of the whole. */
  predicate MoreThan(part: int, share: real, whole: nat) {
    part as real > share * (whole as real)
  }

  /** Straight after a collection another one drops nothing, and without snapshots none is worth it. */
  lemma CollectionIsIdempotent(m: Meta, index: Index, index': Index, maxUnused: real)
    requires Ordered(m.table) && NeededSet(m) <= index.Keys
    requires index'.Keys == index.Keys * NeededSet(m)
    requires forall k | k in index' :: index'[k].len == index[k].len
    ensures index'.Keys - NeededSet(m) == {}
    ensures RootNeeded(m) <= index'.Keys
    ensures m.snaps == map[] && maxUnused >= 0.0 ==> !ExceedsTolerance(m, index', maxUnused)
  {
    hide MoreThan, Total, Lens, RootNeeded, NeededSet;
    CollectionAccounting(m, index, index');
    NothingReclaimable(Physical(index'), maxUnused);
  }

  /** Open the store, then the volume over it; `OpenedIsValid` says when the result is a valid volume. */
  method Mount(h: Hasher, image: Image, cacheBytes: nat) returns (fs: Filesystem)
    ensures fresh(fs) && fresh(fs.store) && fresh(fs.store.cache)
    ensures fs.hash == h && fs.OpenedFrom(image)
  {
    var blocks := new BlockStore(h, image.disk, cacheBytes);
    fs := new Filesystem.Open(blocks, image);
  }

  /** The orphaned fraction of the stored bytes, of which an empty store has none, is above the tolerance. */
  predicate OverTolerance(reclaimable: int, total: int, maxUnused: real) {
    if total == 0 then false
    else
      var unused := reclaimable as real / total as real;
      unused > maxUnused
  }

  lemma OverToleranceIff(reclaimable: int, total: nat, maxUnused: real)
    ensures OverTolerance(reclaimable, total, maxUnused) <==> total > 0 && MoreThan(reclaimable, maxUnused, total)
  {
    if total > 0 {
      QuotientAbove(reclaimable as real, total as real, maxUnused);
    }
  }

  lemma QuotientAbove(a: real, b: real, c: real)
    requires b > 0.0
    ensures a / b > c <==> a > c * b
  {
    var q := a / b;
    assert q * b == a;
    assert (q - c) * b == a - c * b;
  }

  lemma NothingReclaimable(total: nat, maxUnused: real)
    ensures maxUnused >= 0.0 ==> !MoreThan(0, maxUnused, total)
  {
  }

  lemma CompactedLens(d: Disk, live: set<Digest>, d': Disk)
    requires Compacted(d, live, d')
    ensures forall k | k in d'.index :: d'.index[k].len == d.index[k].len
  {
    forall k | k in d'.index ensures d'.index[k].len == d.index[k].len {
      assert ReadBlock(d', k).Some?;
      assert |ReadBlock(d', k).value| == d'.index[k].len;
      assert |ReadBlock(d, k).value| == d.index[k].len;
    }
  }

  lemma CompactedIsCollected(h: Hasher, v: Vol, v': Vol, live: set<Digest>)
    requires Ordered(v.meta.table) && v'.meta == v.meta && live == NeededSet(v.meta)
    requires v'.blocks == map k | k in v.blocks && k in live :: v.blocks[k]
    ensures Collected(v, v')
  {
    forall k | k in v.blocks ensures k in v'.blocks <==> Needed(v.meta, k) {
      NeededSetIsNeeded(v.meta, k);
    }
  }

  /** What is counted as a live file or directory is what some path leads to. */
  lemma CountedByPath(t: Table, root: nat, x: nat)
    requires Ordered(t)
    ensures x in FileIds(t, Reach(t, root)) <==> x in t && t[x].File? && exists p :: Resolve(t, root, p) == Ok(x)
    ensures x in DirIds(t, Reach(t, root)) <==> x in t && t[x].Dir? && exists p :: Resolve(t, root, p) == Ok(x)
  {
    ReachIff(t, root, x);
  }

  /** And the size it is counted with is the length of the bytes shown there. */
  lemma CountedSize(h: Hasher, v: Vol, p: Path)
    requires VolInv(h, v)
    ensures match Live(v, p)
            case Ok(Document(bytes)) =>
              var at := Resolve(v.meta.table, v.meta.sb.root, p);
              at.Ok? && at.value in Sizes(v.meta.table) && Sizes(v.meta.table)[at.value] == |bytes|
            case _ => true
  {
    var at := Resolve(v.meta.table, v.meta.sb.root, p);
    if at.Ok? {
      PathReaches(v.meta.table, v.meta.sb.root, p);
      assert v.meta.sb.root in Roots(v.meta);
      assert Reachable(v.meta, at.value);
    }
  }

  lemma CountNothing(t: Table)
    ensures Counts(t, {}, Tally(0, 0, 0, {}))
  {
    assert FileIds(t, {}) == {} && DirIds(t, {}) == {};
  }

  lemma LiveIsIndexed(h: Hasher, v: Vol, live: set<Digest>)
    requires VolInv(h, v) && Marked(v.meta.table, Reach(v.meta.table, v.meta.sb.root), live)
    ensures live == RootNeeded(v.meta) && live <= v.blocks.Keys
  {
    forall k | k in live ensures k in RootNeeded(v.meta) && k in v.blocks {
      var x :| x in Reach(v.meta.table, v.meta.sb.root) && x in v.meta.table
               && v.meta.table[x].File? && k in v.meta.table[x].blocks;
      assert v.meta.sb.root in Roots(v.meta);
      assert Reachable(v.meta, x);
    }
    forall k | k in RootNeeded(v.meta) ensures k in live {
      var x :| x in Reach(v.meta.table, v.meta.sb.root) && x in v.meta.table
               && v.meta.table[x].File? && k in v.meta.table[x].blocks;
    }
  }
}
