/** The finder's file index: a primary tree of entries and two secondary trees of prefix-encoded links. */
module Stores {
  import opened Prelude
  import opened Bytes
  import opened Ranking

  predicate NulFree(t: Text) {
    forall i | 0 <= i < |t| :: t[i] != 0
  }

  /** Paths, names and queries: text without NUL. */
  type Name = t: Text | NulFree(t) witness []

  /** A path's hash, as its eight big-endian bytes. */
  type Key = k: ByteSeq | |k| == 8 witness [0, 0, 0, 0, 0, 0, 0, 0]

  /** Unicode lowercasing and the path hash, both left abstract. */
  datatype World = World(low: Name -> Name, hash: Name -> Key)

  datatype FileEntry = FileEntry(
    path: Name, fileName: Name, extension: Name, parent: Name,
    size: nat, modified: int, depth: nat, freq: nat, lastOpen: int)

  type Tree = map<ByteSeq, Key>
  type Index = map<Key, FileEntry>

  datatype State = State(index: Index, byParent: Tree, byName: Tree)

  // ---- links ----

  function Prefix(tag: Name): ByteSeq {
    tag + [0]
  }

  function LinkKey(tag: Name, k: Key): ByteSeq {
    Prefix(tag) + k
  }

  function Linked(tree: Tree, tag: Name, k: Key): Tree {
    tree[LinkKey(tag, k) := k]
  }

  function Unlinked(tree: Tree, tag: Name, k: Key): Tree {
    tree - {LinkKey(tag, k)}
  }

  lemma LinkKeyInjective(l1: Name, k1: Key, l2: Name, k2: Key)
    requires LinkKey(l1, k1) == LinkKey(l2, k2)
    ensures l1 == l2 && k1 == k2
  {
    var key := LinkKey(l1, k1);
    assert k1 == key[|key| - 8..] == k2;
    assert l1 == key[..|key| - 9] == l2;
  }

  /** The encoding is prefix-free: a link lies under a tag's prefix only if it is that tag's. */
  lemma PrefixFree(tag: Name, other: Name, k: Key)
    ensures Prefix(tag) <= LinkKey(other, k) <==> tag == other
  {
    var key := LinkKey(other, k);
    assert key[..|other| + 1] == Prefix(other);
    assert other == key[..|other|] && key[|other|] == 0;
    if Prefix(tag) <= key {
      assert tag == Prefix(tag)[..|tag|] == key[..|tag|] && key[|tag|] == 0;
    }
  }

  /** A link tree agrees with a labelling: one link per labelled key, under its tag, and nothing else. */
  ghost predicate LinksAgree(tree: Tree, tags: map<Key, Name>) {
    && (forall k | k in tags :: LinkKey(tags[k], k) in tree)
    && (forall l | l in tree :: tree[l] in tags && l == LinkKey(tags[tree[l]], tree[l]))
  }

  lemma LinkValue(tree: Tree, tags: map<Key, Name>, k: Key)
    requires LinksAgree(tree, tags) && k in tags
    ensures LinkKey(tags[k], k) in tree && tree[LinkKey(tags[k], k)] == k
  {
    var l := LinkKey(tags[k], k);
    LinkKeyInjective(tags[k], k, tags[tree[l]], tree[l]);
  }

  lemma UnlinkAgrees(tree: Tree, tags: map<Key, Name>, k: Key)
    requires LinksAgree(tree, tags) && k in tags
    ensures LinksAgree(Unlinked(tree, tags[k], k), tags - {k})
  {
    var tree', gone := Unlinked(tree, tags[k], k), LinkKey(tags[k], k);
    LinkValue(tree, tags, k);
    forall j | j in tags && j != k ensures LinkKey(tags[j], j) in tree' {
      if LinkKey(tags[j], j) == gone {
        LinkKeyInjective(tags[j], j, tags[k], k);
      }
    }
    forall l | l in tree' ensures tree'[l] in tags - {k} && l == LinkKey(tags[tree'[l]], tree'[l]) {
      assert l in tree;
    }
  }

  lemma LinkAgrees(tree: Tree, tags: map<Key, Name>, tag: Name, k: Key)
    requires LinksAgree(tree, tags) && (k in tags ==> tags[k] == tag)
    ensures LinksAgree(Linked(tree, tag, k), tags[k := tag])
  {
  }

  /** Linking a key under a second tag leaves a stale link behind. */
  lemma StaleLink(tree: Tree, tags: map<Key, Name>, tag: Name, k: Key)
    requires LinksAgree(tree, tags) && k in tags && tags[k] != tag
    ensures !LinksAgree(Linked(tree, tag, k), tags[k := tag])
  {
    var l := LinkKey(tags[k], k);
    LinkValue(tree, tags, k);
    if l == LinkKey(tag, k) {
      LinkKeyInjective(tags[k], k, tag, k);
    }
    var tree' := Linked(tree, tag, k);
    assert l in tree' && tree'[l] == k;
  }

  // ---- the operations on the stored state ----

  function Parents(w: World, index: Index): (m: map<Key, Name>)
    ensures m.Keys == index.Keys
  {
    map k | k in index :: w.low(index[k].parent)
  }

  function Names(w: World, index: Index): (m: map<Key, Name>)
    ensures m.Keys == index.Keys
  {
    map k | k in index :: w.low(index[k].fileName)
  }

  ghost predicate Filed(w: World, index: Index) {
    forall k | k in index :: w.hash(index[k].path) == k
  }

  /** Every entry is filed under its path's hash, and both secondary trees agree with the primary. */
  ghost predicate Consistent(w: World, s: State) {
    && Filed(w, s.index)
    && LinksAgree(s.byParent, Parents(w, s.index))
    && LinksAgree(s.byName, Names(w, s.index))
  }

  function Upserted(w: World, s: State, e: FileEntry): State {
    var k := w.hash(e.path);
    var byParent :=
      if k in s.index && s.index[k].parent != e.parent
      then Unlinked(s.byParent, w.low(s.index[k].parent), k) else s.byParent;
    State(s.index[k := e], Linked(byParent, w.low(e.parent), k), Linked(s.byName, w.low(e.fileName), k))
  }

  /** The entry with the statistics of the one it replaces. */
  function WithStats(w: World, s: State, e: FileEntry): FileEntry {
    var k := w.hash(e.path);
    if k in s.index then e.(freq := s.index[k].freq, lastOpen := s.index[k].lastOpen) else e
  }

  function Removed(w: World, s: State, path: Name): State {
    var k := w.hash(path);
    if k !in s.index then s else
      State(
        s.index - {k},
        Unlinked(s.byParent, w.low(s.index[k].parent), k),
        Unlinked(s.byName, w.low(s.index[k].fileName), k))
  }

  function Touched(w: World, s: State, path: Name, now: int): State {
    var k := w.hash(path);
    if k !in s.index then s else
      s.(index := s.index[k := s.index[k].(freq := s.index[k].freq + 1, lastOpen := now)])
  }

  ghost predicate SameName(w: World, s: State, e: FileEntry) {
    var k := w.hash(e.path);
    k in s.index ==> w.low(s.index[k].fileName) == w.low(e.fileName)
  }

  /** An upsert moves the parent link, but never removes an old name link. */
  lemma UpsertParents(w: World, s: State, e: FileEntry)
    requires Consistent(w, s)
    ensures LinksAgree(Upserted(w, s, e).byParent, Parents(w, Upserted(w, s, e).index))
  {
    hide LinksAgree, Linked, Unlinked;
    var k, tags := w.hash(e.path), Parents(w, s.index);
    var tag := w.low(e.parent);
    assert Parents(w, s.index[k := e]) == tags[k := tag];
    if k in s.index && s.index[k].parent != e.parent {
      UnlinkAgrees(s.byParent, tags, k);
      LinkAgrees(Unlinked(s.byParent, tags[k], k), tags - {k}, tag, k);
      assert (tags - {k})[k := tag] == tags[k := tag];
    } else {
      LinkAgrees(s.byParent, tags, tag, k);
    }
  }

  /** The trees still agree after an upsert exactly when it does not rename an indexed path. */
  lemma UpsertConsistentIff(w: World, s: State, e: FileEntry)
    requires Consistent(w, s)
    ensures Consistent(w, Upserted(w, s, e)) <==> SameName(w, s, e)
  {
    hide LinksAgree, Linked, Unlinked;
    var k, tags := w.hash(e.path), Names(w, s.index);
    var tag := w.low(e.fileName);
    UpsertParents(w, s, e);
    assert Names(w, s.index[k := e]) == tags[k := tag];
    if SameName(w, s, e) {
      LinkAgrees(s.byName, tags, tag, k);
    } else {
      StaleLink(s.byName, tags, tag, k);
    }
  }

  lemma RemoveConsistent(w: World, s: State, path: Name)
    requires Consistent(w, s)
    ensures Consistent(w, Removed(w, s, path))
  {
    hide LinksAgree, Unlinked, Parents, Names;
    var k := w.hash(path);
    if k in s.index {
      UnlinkAgrees(s.byParent, Parents(w, s.index), k);
      UnlinkAgrees(s.byName, Names(w, s.index), k);
      TagsWithout(w, s.index, k);
    }
  }

  lemma TagsWithout(w: World, index: Index, k: Key)
    ensures Parents(w, index - {k}) == Parents(w, index) - {k}
    ensures Names(w, index - {k}) == Names(w, index) - {k}
    ensures k in index ==> Parents(w, index)[k] == w.low(index[k].parent)
    ensures k in index ==> Names(w, index)[k] == w.low(index[k].fileName)
  {
  }

  lemma TouchConsistent(w: World, s: State, path: Name, now: int)
    requires Consistent(w, s)
    ensures Consistent(w, Touched(w, s, path, now))
  {
    hide LinksAgree;
    var s' := Touched(w, s, path, now);
    assert Parents(w, s'.index) == Parents(w, s.index);
    assert Names(w, s'.index) == Names(w, s.index);
  }

  // ---- runs ----

  datatype Op =
    | Put(entry: FileEntry)              // upsert
    | Reindex(entry: FileEntry)          // upsert_preserving_stats
    | Remove(path: Name)
    | TouchOpen(path: Name, now: int)
  {
    function Path(): Name {
      match this
      case Put(e) => e.path
      case Reindex(e) => e.path
      case Remove(p) => p
      case TouchOpen(p, _) => p
    }
  }

  function Step(w: World, s: State, op: Op): State {
    match op
    case Put(e) => Upserted(w, s, e)
    case Reindex(e) => Upserted(w, s, WithStats(w, s, e))
    case Remove(p) => Removed(w, s, p)
    case TouchOpen(p, now) => Touched(w, s, p, now)
  }

  function Run(w: World, ops: seq<Op>): State {
    if ops == [] then State(map[], map[], map[])
    else Step(w, Run(w, ops[..|ops| - 1]), ops[|ops| - 1])
  }

  /** The paths in use do not collide, and a path always comes with the same name, as the indexer derives it. */
  ghost predicate WellNamed(w: World, ops: seq<Op>, nameOf: Name -> Name) {
    && (forall i, j | 0 <= i < |ops| && 0 <= j < |ops| ::
          w.hash(ops[i].Path()) == w.hash(ops[j].Path()) ==> ops[i].Path() == ops[j].Path())
    && (forall i | 0 <= i < |ops| && (ops[i].Put? || ops[i].Reindex?) ::
          ops[i].entry.fileName == nameOf(ops[i].entry.path))
  }

  /** After a step, an entry is the one its operation carries, or keeps the path and name it had. */
  lemma StepEntry(w: World, s: State, op: Op, k: Key)
    requires k in Step(w, s, op).index
    ensures var e := Step(w, s, op).index[k];
            || (k in s.index && s.index[k].path == e.path && s.index[k].fileName == e.fileName)
            || ((op.Put? || op.Reindex?) && k == w.hash(e.path)
                && op.entry.path == e.path && op.entry.fileName == e.fileName)
  {
    hide Linked, Unlinked;
  }

  /** Every indexed entry was put there by some operation of the run, with its path's own name. */
  lemma {:induction false} RunEntries(w: World, ops: seq<Op>, nameOf: Name -> Name, k: Key)
    returns (i: nat)
    requires WellNamed(w, ops, nameOf) && k in Run(w, ops).index
    ensures i < |ops| && ops[i].Path() == Run(w, ops).index[k].path
    ensures w.hash(Run(w, ops).index[k].path) == k
    ensures Run(w, ops).index[k].fileName == nameOf(Run(w, ops).index[k].path)
    decreases |ops|
  {
    hide Step, Linked;
    var n := |ops| - 1;
    var before := Run(w, ops[..n]);
    PrefixWellNamed(w, ops, nameOf, n);
    StepEntry(w, before, ops[n], k);
    if k in before.index && before.index[k].path == Run(w, ops).index[k].path {
      i := RunEntries(w, ops[..n], nameOf, k);
    } else {
      i := n;
    }
  }

  lemma PrefixWellNamed(w: World, ops: seq<Op>, nameOf: Name -> Name, n: nat)
    requires WellNamed(w, ops, nameOf) && n <= |ops|
    ensures WellNamed(w, ops[..n], nameOf)
  {
  }

  lemma EmptyConsistent(w: World)
    ensures Consistent(w, Run(w, []))
  {
  }

  /** Over every run of the indexer and the opens, the secondary trees agree with the primary. */
  lemma {:induction false} RunConsistent(w: World, ops: seq<Op>, nameOf: Name -> Name)
    requires WellNamed(w, ops, nameOf)
    ensures Consistent(w, Run(w, ops))
    decreases |ops|
  {
    hide LinksAgree, Upserted, Removed, Touched;
    if ops == [] {
      EmptyConsistent(w);
    } else {
      var n := |ops| - 1;
      PrefixWellNamed(w, ops, nameOf, n);
      RunConsistent(w, ops[..n], nameOf);
      var s, op := Run(w, ops[..n]), ops[n];
      match op
      case Remove(p) => RemoveConsistent(w, s, p);
      case TouchOpen(p, now) => TouchConsistent(w, s, p, now);
      case Put(e) => UpsertInRun(w, ops, nameOf, e);
      case Reindex(e) => UpsertInRun(w, ops, nameOf, WithStats(w, s, e));
    }
  }

  lemma UpsertInRun(w: World, ops: seq<Op>, nameOf: Name -> Name, e: FileEntry)
    requires WellNamed(w, ops, nameOf) && ops != [] && Consistent(w, Run(w, ops[..|ops| - 1]))
    requires e.path == ops[|ops| - 1].Path() && e.fileName == nameOf(e.path)
    ensures Consistent(w, Upserted(w, Run(w, ops[..|ops| - 1]), e))
  {
    hide LinksAgree, Upserted;
    var s, k := Run(w, ops[..|ops| - 1]), w.hash(e.path);
    if k in s.index {
      SamePath(w, ops, nameOf, k);
    }
    UpsertConsistentIff(w, s, e);
  }

  /** The entry filed under the last operation's hash is the entry of its path. */
  lemma SamePath(w: World, ops: seq<Op>, nameOf: Name -> Name, k: Key)
    requires WellNamed(w, ops, nameOf) && ops != []
    requires var n := |ops| - 1; k == w.hash(ops[n].Path()) && k in Run(w, ops[..n]).index
    ensures var was := Run(w, ops[..|ops| - 1]).index[k];
            was.path == ops[|ops| - 1].Path() && was.fileName == nameOf(was.path)
  {
    var n := |ops| - 1;
    PrefixWellNamed(w, ops, nameOf, n);
    var i := RunEntries(w, ops[..n], nameOf, k);
    assert ops[i].Path() == ops[..n][i].Path();
  }

  // ---- how often a path was opened ----

  /** The path is indexed after the operations: put there since it was last removed. */
  function Indexed(ops: seq<Op>, path: Name): bool {
    if ops == [] then false
    else
      var op := ops[|ops| - 1];
      if op.Path() == path && !op.TouchOpen? then !op.Remove? else Indexed(ops[..|ops| - 1], path)
  }

  /** Opens since the path was last created, on top of the count it was created (or overwritten) with. */
  function Opens(ops: seq<Op>, path: Name): nat {
    if ops == [] then 0
    else
      var op, earlier := ops[|ops| - 1], ops[..|ops| - 1];
      if op.Path() != path then Opens(earlier, path)
      else match op
        case Put(e) => e.freq
        case Reindex(e) => if Indexed(earlier, path) then Opens(earlier, path) else e.freq
        case Remove(_) => 0
        case TouchOpen(_, _) => if Indexed(earlier, path) then Opens(earlier, path) + 1 else 0
  }

  /** What one operation does to the entry of one path. */
  lemma StepForPath(w: World, s: State, op: Op, path: Name)
    requires w.hash(op.Path()) == w.hash(path) ==> op.Path() == path
    ensures var k, index := w.hash(path), Step(w, s, op).index;
            if op.Path() != path then (k in index <==> k in s.index) && (k in index ==> index[k] == s.index[k])
            else match op
              case Put(e) => k in index && index[k] == e
              case Reindex(e) => k in index && index[k] == WithStats(w, s, e)
              case Remove(_) => k !in index
              case TouchOpen(_, now) =>
                && (k in index <==> k in s.index)
                && (k in index ==> index[k] == s.index[k].(freq := s.index[k].freq + 1, lastOpen := now))
  {
    hide Linked, Unlinked;
  }

  /** An entry's frequency is its opens since it was last created; re-indexing does not change it. */
  lemma {:induction false} FrequencyIsOpens(w: World, ops: seq<Op>, nameOf: Name -> Name, path: Name)
    requires WellNamed(w, ops, nameOf)
    requires forall i | 0 <= i < |ops| :: w.hash(ops[i].Path()) == w.hash(path) ==> ops[i].Path() == path
    ensures Indexed(ops, path) <==> w.hash(path) in Run(w, ops).index
    ensures Indexed(ops, path) ==> Run(w, ops).index[w.hash(path)].freq == Opens(ops, path)
    decreases |ops|
  {
    hide Step;
    if ops != [] {
      var n := |ops| - 1;
      PrefixWellNamed(w, ops, nameOf, n);
      hide WellNamed;
      FrequencyIsOpens(w, ops[..n], nameOf, path);
      StepForPath(w, Run(w, ops[..n]), ops[n], path);
    }
  }

  /** When the path was last opened since it was last created, or the time it was created (or overwritten) with. */
  function LastOpened(ops: seq<Op>, path: Name): int {
    if ops == [] then 0
    else
      var op, earlier := ops[|ops| - 1], ops[..|ops| - 1];
      if op.Path() != path then LastOpened(earlier, path)
      else match op
        case Put(e) => e.lastOpen
        case Reindex(e) => if Indexed(earlier, path) then LastOpened(earlier, path) else e.lastOpen
        case Remove(_) => 0
        case TouchOpen(_, now) => now
  }

  /** The entry the path was last indexed or re-indexed with. */
  function Described(ops: seq<Op>, path: Name): (e: FileEntry)
    requires Indexed(ops, path)
    ensures e.path == path
  {
    var op := ops[|ops| - 1];
    if op.Path() == path && !op.TouchOpen? then op.entry else Described(ops[..|ops| - 1], path)
  }

  /** An entry is the one last indexed or re-indexed, with the opens and the last opening of the path's history. */
  lemma {:induction false} EntryIsHistory(w: World, ops: seq<Op>, nameOf: Name -> Name, path: Name)
    requires WellNamed(w, ops, nameOf)
    requires forall i | 0 <= i < |ops| :: w.hash(ops[i].Path()) == w.hash(path) ==> ops[i].Path() == path
    requires Indexed(ops, path)
    ensures w.hash(path) in Run(w, ops).index
    ensures Run(w, ops).index[w.hash(path)]
            == Described(ops, path).(freq := Opens(ops, path), lastOpen := LastOpened(ops, path))
    decreases |ops|
  {
    hide Step;
    var n := |ops| - 1;
    PrefixWellNamed(w, ops, nameOf, n);
    StepForPath(w, Run(w, ops[..n]), ops[n], path);
    FrequencyIsOpens(w, ops, nameOf, path);
    FrequencyIsOpens(w, ops[..n], nameOf, path);
    if Indexed(ops[..n], path) {
      EntryIsHistory(w, ops[..n], nameOf, path);
    }
  }

  // ---- lookups ----

  ghost predicate DistinctPaths(r: seq<FileEntry>) {
    forall i, j | 0 <= i < j < |r| :: r[i].path != r[j].path
  }

  /** The listing holds exactly the indexed entries with this tag, each once. */
  ghost predicate Lists(w: World, index: Index, tags: map<Key, Name>, tag: Name, r: seq<FileEntry>)
    requires tags.Keys == index.Keys
  {
    && DistinctPaths(r)
    && (forall e | e in r :: w.hash(e.path) in index && index[w.hash(e.path)] == e && tags[w.hash(e.path)] == tag)
    && (forall k | k in index && tags[k] == tag :: index[k] in r)
  }

  class Store {
    const w: World
    var index: Index
    var byParent: Tree
    var byName: Tree

    ghost function Contents(): State
      reads this
    {
      State(index, byParent, byName)
    }

    constructor (w: World)
      ensures this.w == w && Contents() == Run(w, []) && Consistent(w, Contents())
    {
      this.w := w;
      index, byParent, byName := map[], map[], map[];
    }

    method Upsert(e: FileEntry)
      modifies this
      ensures Contents() == Upserted(w, old(Contents()), e)
      ensures old(Consistent(w, Contents())) ==> (Consistent(w, Contents()) <==> SameName(w, old(Contents()), e))
    {
      hide Consistent;
      ghost var s := Contents();
      var k := w.hash(e.path);
      if k in index {
        var was := index[k];
        if was.parent != e.parent {
          byParent := Unlinked(byParent, w.low(was.parent), k);
        }
      }
      index := index[k := e];
      byParent := Linked(byParent, w.low(e.parent), k);
      byName := Linked(byName, w.low(e.fileName), k);
      if Consistent(w, s) {
        UpsertConsistentIff(w, s, e);
      }
    }

    method UpsertPreservingStats(e: FileEntry)
      modifies this
      ensures Contents() == Upserted(w, old(Contents()), WithStats(w, old(Contents()), e))
      ensures old(Consistent(w, Contents())) ==> (Consistent(w, Contents()) <==> SameName(w, old(Contents()), e))
    {
      hide Consistent, Upserted;
      var k := w.hash(e.path);
      if k in index {
        Upsert(e.(freq := index[k].freq, lastOpen := index[k].lastOpen));
      } else {
        Upsert(e);
      }
    }

    method RemovePath(path: Name)
      modifies this
      ensures Contents() == Removed(w, old(Contents()), path)
      ensures old(Consistent(w, Contents())) ==> Consistent(w, Contents())
    {
      hide Consistent;
      ghost var s := Contents();
      var k := w.hash(path);
      if k in index {
        var was := index[k];
        index := index - {k};
        byParent := Unlinked(byParent, w.low(was.parent), k);
        byName := Unlinked(byName, w.low(was.fileName), k);
      }
      if Consistent(w, s) {
        RemoveConsistent(w, s, path);
      }
    }

    method RecordOpen(path: Name, now: int) returns (r: Option<FileEntry>)
      modifies `index
      ensures Contents() == Touched(w, old(Contents()), path, now)
      ensures r == if w.hash(path) in index then Some(index[w.hash(path)]) else None
      ensures old(Consistent(w, Contents())) ==> Consistent(w, Contents())
    {
      hide Consistent;
      if Consistent(w, Contents()) {
        TouchConsistent(w, Contents(), path, now);
      }
      var k := w.hash(path);
      if k in index {
        var e := index[k].(freq := index[k].freq + 1, lastOpen := now);
        index := index[k := e];
        return Some(e);
      }
      return None;
    }

    /** Every entry linked under a tag, in whatever order the tree is scanned. */
    method Scan(tree: Tree, tag: Name, ghost tags: map<Key, Name>) returns (r: seq<FileEntry>)
      requires tags.Keys == index.Keys && LinksAgree(tree, tags)
      requires Filed(w, index)
      ensures Lists(w, index, tags, tag, r)
    {
      hide LinkKey, Prefix, Consistent;
      r := [];
      var todo := tree.Keys;
      ghost var seen: set<Key> := {};
      while todo != {}
        invariant todo <= tree.Keys && seen <= index.Keys
        invariant DistinctPaths(r)
        invariant forall e | e in r :: w.hash(e.path) in seen && index[w.hash(e.path)] == e
        invariant forall k | k in seen :: index[k] in r && tags[k] == tag && LinkKey(tag, k) !in todo
        invariant forall l | l in tree && Prefix(tag) <= l :: l in todo || tree[l] in seen
      {
        var l :| l in todo;
        todo := todo - {l};
        if Prefix(tag) <= l {
          var k := tree[l];
          PrefixFree(tag, tags[k], k);
          if k in index {
            r := r + [index[k]];
            seen := seen + {k};
          }
        }
      }
      forall k | k in index && tags[k] == tag ensures index[k] in r {
        LinkValue(tree, tags, k);
        PrefixFree(tag, tag, k);
      }
    }

    /** Every indexed file of that name, whatever its case, each once. */
    method FilesNamed(name: Name) returns (r: seq<FileEntry>)
      requires Consistent(w, Contents())
      ensures Lists(w, index, Names(w, index), w.low(name), r)
      ensures forall e :: e in r <==>
                w.hash(e.path) in index && index[w.hash(e.path)] == e && w.low(e.fileName) == w.low(name)
    {
      hide LinksAgree;
      r := Scan(byName, w.low(name), Names(w, index));
    }

    /** Every indexed file of that directory, whatever its case, each once. */
    method FilesIn(parent: Name) returns (r: seq<FileEntry>)
      requires Consistent(w, Contents())
      ensures Lists(w, index, Parents(w, index), w.low(parent), r)
      ensures forall e :: e in r <==>
                w.hash(e.path) in index && index[w.hash(e.path)] == e && w.low(e.parent) == w.low(parent)
    {
      hide LinksAgree;
      r := Scan(byParent, w.low(parent), Parents(w, index));
    }

    method AllEntries() returns (r: seq<FileEntry>)
      requires Consistent(w, Contents())
      ensures DistinctPaths(r)
      ensures forall e :: e in r <==> w.hash(e.path) in index && index[w.hash(e.path)] == e
    {
      hide LinksAgree;
      r := [];
      var todo := index.Keys;
      while todo != {}
        invariant todo <= index.Keys && DistinctPaths(r)
        invariant forall e | e in r :: w.hash(e.path) in index.Keys - todo && index[w.hash(e.path)] == e
        invariant forall k | k in index && k !in todo :: index[k] in r
      {
        var k :| k in todo;
        r := r + [index[k]];
        todo := todo - {k};
      }
    }
  }
}
