/** Slash- or backslash-separated paths and the component lists they stand for. */
module Paths {

  type Name = string
  type Path = seq<Name>

  predicate IsSeparator(c: char) {
    c == '/' || c == '\\'
  }

  predicate IsComponent(n: Name) {
    n != [] && forall c | c in n :: !IsSeparator(c)
  }

  function Split(path: string): Path {
    Components(path, [])
  }

  /** The components of `path`, of which `current` has already been read of the first one. */
  function Components(path: string, current: Name): Path {
    if path == [] then
      if current == [] then [] else [current]
    else if IsSeparator(path[0]) then
      (if current == [] then [] else [current]) + Components(path[1..], [])
    else
      Components(path[1..], current + [path[0]])
  }

  function Join(p: Path): string {
    if p == [] then [] else "/" + p[0] + Join(p[1..])
  }

  lemma {:induction false} ComponentsAreNames(path: string, current: Name)
    requires forall c | c in current :: !IsSeparator(c)
    ensures forall n | n in Components(path, current) :: IsComponent(n)
    decreases |path|
  {
    if path != [] {
      if IsSeparator(path[0]) {
        ComponentsAreNames(path[1..], []);
      } else {
        ComponentsAreNames(path[1..], current + [path[0]]);
      }
    }
  }

  lemma {:induction false} ComponentsSkipName(name: Name, rest: string, current: Name)
    requires forall c | c in name :: !IsSeparator(c)
    ensures Components(name + rest, current) == Components(rest, current + name)
    decreases |name|
  {
    if name == [] {
      assert name + rest == rest && current + name == current;
    } else {
      assert (name + rest)[1..] == name[1..] + rest;
      assert current + [name[0]] + name[1..] == current + name;
      ComponentsSkipName(name[1..], rest, current + [name[0]]);
    }
  }

  lemma {:induction false} ComponentsConcat(a: string, c: char, b: string, current: Name)
    requires IsSeparator(c)
    ensures Components(a + [c] + b, current) == Components(a, current) + Components(b, [])
    decreases |a|
  {
    var path := a + [c] + b;
    if a == [] {
      assert path[1..] == b;
    } else {
      assert path[1..] == a[1..] + [c] + b;
      if IsSeparator(a[0]) {
        ComponentsConcat(a[1..], c, b, []);
      } else {
        ComponentsConcat(a[1..], c, b, current + [a[0]]);
      }
    }
  }

  /** Slash and backslash, wherever and however often they occur, separate and do nothing else. */
  lemma SplitAtSeparator(a: string, b: string)
    ensures Split(a + "/" + b) == Split(a) + Split(b)
    ensures Split(a + "\\" + b) == Split(a) + Split(b)
  {
    ComponentsConcat(a, '/', b, []);
    ComponentsConcat(a, '\\', b, []);
  }

  /** What holds neither of them is one component, and nothing is none. */
  lemma SplitName(n: string)
    requires '/' !in n && '\\' !in n
    ensures Split(n) == if n == [] then [] else [n]
  {
    ComponentsSkipName(n, [], []);
    assert n + [] == n && [] + n == n;
  }

  /** Every list of well-formed names is what some path splits into, and splitting recovers it. */
  lemma {:induction false} SplitJoin(p: Path)
    requires forall n | n in p :: IsComponent(n)
    ensures Split(Join(p)) == p
    decreases |p|
  {
    if p != [] {
      var rest := Join(p[1..]);
      assert IsComponent(p[0]);
      assert Join(p)[1..] == p[0] + rest;
      ComponentsSkipName(p[0], rest, []);
      assert [] + p[0] == p[0];
      SplitJoin(p[1..]);
      if p[1..] != [] {
        assert Components(rest, p[0]) == [p[0]] + Components(rest[1..], []);
        assert Components(rest, []) == Components(rest[1..], []);
      }
    }
  }
}

/** Immutable inodes, the path lookup over them, and the copy-on-write rebuild of a directory chain. */
module Inodes {
  import opened Prelude
  import opened Bytes
  import opened Digests
  import opened Paths

  datatype Inode =
    | File(size: nat, blocks: seq<Digest>, inline: ByteSeq)
    | Dir(entries: map<Name, nat>)

  datatype SuperBlock = SuperBlock(root: nat, next: nat, txg: nat)

  type Table = map<nat, Inode>

  /** Ids are a topological order: a directory only holds ids below its own. */
  ghost predicate Ordered(t: Table) {
    forall id, n | id in t && t[id].Dir? && n in t[id].entries :: t[id].entries[n] < id
  }

  ghost predicate Covers(t: Table, next: nat) {
    forall id: nat | id < next :: id in t
  }

  /** `t'` has every inode of `t` below `next` unchanged. */
  ghost predicate Agree(t: Table, t': Table, next: nat) {
    forall id: nat | id < next && id in t :: id in t' && t'[id] == t[id]
  }

  // ---- lookup ----

  function Resolve(t: Table, id: nat, p: Path): Result<nat>
    decreases |p|
  {
    if p == [] then Ok(id)
    else if id !in t then Err(Dangling)
    else
      match t[id]
      case File(_, _, _) => Err(NotADirectory)
      case Dir(entries) =>
        if p[0] in entries then Resolve(t, entries[p[0]], p[1..]) else Err(NoSuchComponent)
  }

  lemma {:induction false} ResolveBound(t: Table, id: nat, p: Path)
    requires Ordered(t)
    ensures Resolve(t, id, p).Ok? ==> Resolve(t, id, p).value <= id - (if p == [] then 0 else 1)
    decreases |p|
  {
    if p != [] && id in t && t[id].Dir? && p[0] in t[id].entries {
      ResolveBound(t, t[id].entries[p[0]], p[1..]);
    }
  }

  lemma {:induction false} ResolveConcat(t: Table, id: nat, p: Path, q: Path)
    ensures Resolve(t, id, p + q) ==
            if Resolve(t, id, p).Ok? then Resolve(t, Resolve(t, id, p).value, q) else Resolve(t, id, p)
    decreases |p|
  {
    if p == [] {
      assert p + q == q;
    } else {
      assert (p + q)[1..] == p[1..] + q;
      if id in t && t[id].Dir? && p[0] in t[id].entries {
        ResolveConcat(t, t[id].entries[p[0]], p[1..], q);
      }
    }
  }

  /** A lookup fails at the first directory entry that is missing, or the first file that is in the way. */
  ghost predicate FailsAt(t: Table, id: nat, p: Path, n: nat, e: Error)
    requires n < |p|
  {
    var at := Resolve(t, id, p[..n]);
    && at.Ok?
    && if at.value !in t then e == Dangling
       else if t[at.value].File? then e == NotADirectory
       else p[n] !in t[at.value].entries && e == NoSuchComponent
  }

  /** One name further is one directory entry further. */
  lemma ResolveStep(t: Table, id: nat, p: Path, n: Name)
    requires Resolve(t, id, p).Ok?
    ensures var d := Resolve(t, id, p).value;
            Resolve(t, id, p + [n]).Ok? <==> d in t && t[d].Dir? && n in t[d].entries
    ensures Resolve(t, id, p + [n]).Ok? ==> Resolve(t, id, p + [n]).value == t[Resolve(t, id, p).value].entries[n]
  {
    var d := Resolve(t, id, p).value;
    ResolveConcat(t, id, p, [n]);
    assert [n][1..] == [];
    assert d in t && t[d].Dir? && n in t[d].entries ==> Resolve(t, t[d].entries[n], []) == Ok(t[d].entries[n]);
  }

  /** A lookup fails exactly when it fails somewhere on the way, and for the reason found there. */
  lemma {:induction false} ResolveFails(t: Table, id: nat, p: Path, e: Error)
    ensures Resolve(t, id, p) == Err(e) <==> exists n :: 0 <= n < |p| && FailsAt(t, id, p, n, e)
    decreases |p|
  {
    if p != [] && id in t && t[id].Dir? && p[0] in t[id].entries {
      var child := t[id].entries[p[0]];
      ResolveFails(t, child, p[1..], e);
      forall n | 0 <= n < |p| - 1 ensures FailsAt(t, child, p[1..], n, e) <==> FailsAt(t, id, p, n + 1, e) {
        FailsBelow(t, id, p, n, e);
      }
      assert !FailsAt(t, id, p, 0, e);
      if n :| 0 <= n < |p| && FailsAt(t, id, p, n, e) {
        assert FailsAt(t, child, p[1..], n - 1, e);
      }
      if n :| 0 <= n < |p[1..]| && FailsAt(t, child, p[1..], n, e) {
        assert FailsAt(t, id, p, n + 1, e);
      }
    } else if p != [] {
      assert p[..0] == [];
      assert Resolve(t, id, p) == Err(e) <==> FailsAt(t, id, p, 0, e);
      forall n | 0 < n < |p| ensures !FailsAt(t, id, p, n, e) {
        assert p[..n][0] == p[0];
      }
    }
  }

  lemma FailsBelow(t: Table, id: nat, p: Path, n: nat, e: Error)
    requires n + 1 < |p| && id in t && t[id].Dir? && p[0] in t[id].entries
    ensures FailsAt(t, t[id].entries[p[0]], p[1..], n, e) <==> FailsAt(t, id, p, n + 1, e)
  {
    assert p[..n + 1][1..] == p[1..][..n];
  }

  /** What is reachable from an old id never changes, whatever is added above it. */
  lemma {:induction false} ResolveFrozen(t: Table, t': Table, next: nat, id: nat, p: Path)
    requires Ordered(t) && Covers(t, next) && Agree(t, t', next) && id < next
    ensures Resolve(t', id, p) == Resolve(t, id, p)
    decreases |p|
  {
    if p != [] && t[id].Dir? && p[0] in t[id].entries {
      ResolveFrozen(t, t', next, t[id].entries[p[0]], p[1..]);
    }
  }

  // ---- rebuild ----

  datatype Rebuilt = Rebuilt(table: Table, next: nat, root: Result<nat>)

  /**
   * Copy the directory chain along `p` from `dir`, putting `leaf` at its end (`None` removes what is
   * there), creating missing directories on the way down and allocating new ids from `next`. A failure
   * leaves behind the ids and inodes it has used so far.
   */
  function Rebuild(t: Table, next: nat, dir: nat, p: Path, leaf: Option<nat>): Rebuilt
    requires p != []
    decreases |p|
  {
    if dir !in t then Rebuilt(t, next, Err(Dangling))
    else if t[dir].File? then Rebuilt(t, next, Err(TraversesFile))
    else
      var entries := t[dir].entries;
      if |p| == 1 then
        match leaf
        case Some(id) => NewDir(t, next, entries[p[0] := id])
        case None =>
          if p[0] !in entries then Rebuilt(t, next, Err(NoSuchEntry))
          else NewDir(t, next, entries - {p[0]})
      else
        var (t1, n1, child) := Descend(t, next, dir, p[0]);
        var r := Rebuild(t1, n1, child, p[1..], leaf);
        if r.root.Err? then r
        else NewDir(r.table, r.next, entries[p[0] := r.root.value])
  }

  /** Step into the child called `name`, creating it when it is missing. */
  function Descend(t: Table, next: nat, dir: nat, name: Name): (Table, nat, nat)
    requires dir in t && t[dir].Dir?
  {
    if name in t[dir].entries then (t, next, t[dir].entries[name]) else (t[next := Dir(map[])], next + 1, next)
  }

  function NewDir(t: Table, next: nat, entries: map<Name, nat>): Rebuilt {
    Rebuilt(t[next := Dir(entries)], next + 1, Ok(next))
  }

  /** A leaf that a rebuild may attach: an id already handed out. */
  ghost predicate LeafBelow(leaf: Option<nat>, next: nat) {
    leaf.Some? ==> leaf.value < next
  }

  /** Inodes have only been added, at ids from `next` on. */
  ghost predicate Extends(t: Table, next: nat, t': Table, next': nat) {
    && next <= next' && Ordered(t') && Covers(t', next') && Agree(t, t', next)
    && forall id | id in t :: id in t'
  }

  /** Only directories have been added, at ids from `next` on. */
  ghost predicate Grown(t: Table, next: nat, t': Table, next': nat) {
    && Extends(t, next, t', next')
    && forall id: nat | next <= id < next' :: t'[id].Dir?
  }

  lemma AddDirGrows(t: Table, next: nat, entries: map<Name, nat>)
    requires Ordered(t) && Covers(t, next)
    requires forall n | n in entries :: entries[n] < next
    ensures Grown(t, next, NewDir(t, next, entries).table, next + 1)
  {
  }

  lemma GrownTransitive(t: Table, n: nat, t1: Table, n1: nat, t2: Table, n2: nat)
    requires Covers(t, n) && Grown(t, n, t1, n1) && Grown(t1, n1, t2, n2)
    ensures Grown(t, n, t2, n2)
  {
    forall id: nat | n <= id < n2 ensures t2[id].Dir? {
      if id < n1 {
        assert t1[id].Dir?;
      }
    }
  }

  lemma DescendGrows(t: Table, next: nat, dir: nat, name: Name)
    requires Ordered(t) && Covers(t, next) && dir < next && t[dir].Dir?
    ensures var (t1, n1, child) := Descend(t, next, dir, name);
            Grown(t, next, t1, n1) && child < n1
  {
    AddDirGrows(t, next, map[]);
  }

  /** A rebuild only ever adds directories above the ids in use, successful or not. */
  lemma {:induction false} RebuildKeeps(t: Table, next: nat, dir: nat, p: Path, leaf: Option<nat>)
    requires p != [] && Ordered(t) && Covers(t, next) && dir < next && LeafBelow(leaf, next)
    ensures var r := Rebuild(t, next, dir, p, leaf);
            && Grown(t, next, r.table, r.next)
            && (r.root.Ok? ==> r.root.value == r.next - 1 && next + |p| <= r.next)
    decreases |p|
  {
    if t[dir].Dir? {
      var entries := t[dir].entries;
      if |p| > 1 {
        RebuildKeepsBelow(t, next, dir, p, leaf);
      } else if leaf.Some? {
        AddDirGrows(t, next, entries[p[0] := leaf.value]);
      } else {
        AddDirGrows(t, next, entries - {p[0]});
      }
    }
  }

  lemma {:induction false} RebuildKeepsBelow(t: Table, next: nat, dir: nat, p: Path, leaf: Option<nat>)
    requires |p| > 1 && Ordered(t) && Covers(t, next) && dir < next && LeafBelow(leaf, next) && t[dir].Dir?
    ensures var r := Rebuild(t, next, dir, p, leaf);
            && Grown(t, next, r.table, r.next)
            && (r.root.Ok? ==> r.root.value == r.next - 1 && next + |p| <= r.next)
    decreases |p|, 0
  {
    var (t1, n1, child) := Descend(t, next, dir, p[0]);
    DescendGrows(t, next, dir, p[0]);
    RebuildKeeps(t1, n1, child, p[1..], leaf);
    var s := Rebuild(t1, n1, child, p[1..], leaf);
    GrownTransitive(t, next, t1, n1, s.table, s.next);
    if s.root.Ok? {
      AscendGrows(t, next, t[dir].entries, p[0], s);
    }
  }

  lemma AscendGrows(t: Table, next: nat, entries: map<Name, nat>, name: Name, s: Rebuilt)
    requires Covers(t, next) && Grown(t, next, s.table, s.next) && s.root.Ok? && s.root.value < s.next
    requires forall n | n in entries :: entries[n] < next
    ensures var r := NewDir(s.table, s.next, entries[name := s.root.value]);
            Grown(t, next, r.table, r.next) && Agree(s.table, r.table, s.next)
  {
    var entries' := entries[name := s.root.value];
    AddDirGrows(s.table, s.next, entries');
    GrownTransitive(t, next, s.table, s.next, NewDir(s.table, s.next, entries').table, s.next + 1);
  }

  /** Where a lookup of `rest` from the spliced leaf ends. */
  function FromLeaf(t: Table, leaf: Option<nat>, rest: Path): Result<nat> {
    match leaf
    case None => Err(NoSuchComponent)
    case Some(id) => Resolve(t, id, rest)
  }

  /**
   * The rebuilt tree, path by path: at and below `p` it is the leaf, every directory on the way to `p` is a
   * new inode, and every other lookup ends exactly where it ended before.
   */
  lemma {:induction false} RebuildResolves(t: Table, next: nat, dir: nat, p: Path, leaf: Option<nat>, q: Path)
    requires p != [] && Ordered(t) && Covers(t, next) && dir < next && LeafBelow(leaf, next)
    requires Rebuild(t, next, dir, p, leaf).root.Ok?
    ensures var r := Rebuild(t, next, dir, p, leaf);
            && r.next > |p|
            && Resolve(r.table, r.root.value, q) ==
               if p <= q then FromLeaf(t, leaf, q[|p|..])
               else if q <= p then Ok(r.next - 1 - |q|)
               else Resolve(t, dir, q)
    decreases |p|
  {
    var r := Rebuild(t, next, dir, p, leaf);
    RebuildKeeps(t, next, dir, p, leaf);
    var entries := t[dir].entries;
    if q == [] {
    } else if q[0] != p[0] {
      if q[0] in entries {
        ResolveFrozen(t, r.table, next, entries[q[0]], q[1..]);
      }
    } else if |p| == 1 {
      if leaf.Some? {
        ResolveFrozen(t, r.table, next, leaf.value, q[1..]);
      }
    } else {
      assert p <= q <==> p[1..] <= q[1..];
      assert q <= p <==> q[1..] <= p[1..];
      RebuildBelow(t, next, dir, p, leaf, q);
    }
  }

  lemma {:induction false} RebuildBelow(t: Table, next: nat, dir: nat, p: Path, leaf: Option<nat>, q: Path)
    requires |p| > 1 && q != [] && q[0] == p[0]
    requires Ordered(t) && Covers(t, next) && dir < next && LeafBelow(leaf, next)
    requires Rebuild(t, next, dir, p, leaf).root.Ok?
    ensures var r := Rebuild(t, next, dir, p, leaf);
            && r.next > |p|
            && Resolve(r.table, r.root.value, q) ==
               if p[1..] <= q[1..] then FromLeaf(t, leaf, q[1..][|p| - 1..])
               else if q[1..] <= p[1..] then Ok(r.next - 1 - |q|)
               else Resolve(t, dir, q)
    decreases |p|, 0
  {
    var r := Rebuild(t, next, dir, p, leaf);
    var (t1, n1, child) := Descend(t, next, dir, p[0]);
    RebuildThrough(t, next, dir, p, leaf, q);
    DescendGrows(t, next, dir, p[0]);
    RebuildResolves(t1, n1, child, p[1..], leaf, q[1..]);
    if p[1..] <= q[1..] && leaf.Some? {
      ResolveFrozen(t, t1, next, leaf.value, q[1..][|p| - 1..]);
    }
  }

  /** Below its first component, a lookup in the rebuilt tree is the same lookup in the rebuilt child. */
  lemma RebuildThrough(t: Table, next: nat, dir: nat, p: Path, leaf: Option<nat>, q: Path)
    requires |p| > 1 && q != [] && q[0] == p[0]
    requires Ordered(t) && Covers(t, next) && dir < next && LeafBelow(leaf, next)
    requires Rebuild(t, next, dir, p, leaf).root.Ok?
    ensures var r := Rebuild(t, next, dir, p, leaf);
            var (t1, n1, child) := Descend(t, next, dir, p[0]);
            var s := Rebuild(t1, n1, child, p[1..], leaf);
            && s.root.Ok? && r.next == s.next + 1 && next <= n1 <= s.next
            && Ordered(s.table) && Covers(s.table, s.next) && Agree(s.table, r.table, s.next)
            && Resolve(r.table, r.root.value, q) == Resolve(s.table, s.root.value, q[1..])
  {
    var r := Rebuild(t, next, dir, p, leaf);
    var (t1, n1, child) := Descend(t, next, dir, p[0]);
    DescendGrows(t, next, dir, p[0]);
    var s := Rebuild(t1, n1, child, p[1..], leaf);
    RebuildKeeps(t1, n1, child, p[1..], leaf);
    GrownTransitive(t, next, t1, n1, s.table, s.next);
    AscendGrows(t, next, t[dir].entries, p[0], s);
    ResolveFrozen(s.table, r.table, s.next, s.root.value, q[1..]);
  }

  /** Some strict prefix of `p` is a file. */
  ghost predicate Blocked(t: Table, dir: nat, p: Path) {
    exists i :: 0 <= i < |p| && IsFileAt(t, dir, p[..i])
  }

  predicate IsFileAt(t: Table, dir: nat, p: Path) {
    var r := Resolve(t, dir, p);
    r.Ok? && r.value in t && t[r.value].File?
  }

  /** Exactly when a rebuild fails, and how. */
  lemma {:induction false} RebuildOutcome(t: Table, next: nat, dir: nat, p: Path, leaf: Option<nat>)
    requires p != [] && Ordered(t) && Covers(t, next) && dir < next && LeafBelow(leaf, next)
    ensures var r := Rebuild(t, next, dir, p, leaf);
            && (Blocked(t, dir, p) ==> r.root == Err(TraversesFile))
            && (!Blocked(t, dir, p) && leaf.None? && Resolve(t, dir, p).Err? ==> r.root == Err(NoSuchEntry))
            && (!Blocked(t, dir, p) && (leaf.None? ==> Resolve(t, dir, p).Ok?) ==> r.root.Ok?)
    decreases |p|
  {
    if t[dir].File? {
      assert p[..0] == [];
      assert IsFileAt(t, dir, p[..0]);
    } else {
      var entries := t[dir].entries;
      if |p| == 1 {
        assert p[1..] == [];
        if p[0] in entries {
          assert Resolve(t, dir, p) == Resolve(t, entries[p[0]], []);
        }
        assert forall i | 0 <= i < |p| :: p[..i] == [];
      } else if p[0] in entries {
        RebuildOutcome(t, next, entries[p[0]], p[1..], leaf);
        BlockedBelow(t, dir, p);
      } else {
        AddDirGrows(t, next, map[]);
        var t1 := t[next := Dir(map[])];
        RebuildOutcome(t1, next + 1, next, p[1..], leaf);
        NothingBlocksMissing(t, dir, p);
        NothingBlocksEmpty(t1, next, p[1..]);
      }
    }
  }

  lemma BlockedBelow(t: Table, dir: nat, p: Path)
    requires |p| > 1 && dir in t && t[dir].Dir? && p[0] in t[dir].entries
    ensures Blocked(t, dir, p) <==> Blocked(t, t[dir].entries[p[0]], p[1..])
  {
    var child := t[dir].entries[p[0]];
    forall i | 0 <= i < |p| - 1 ensures IsFileAt(t, child, p[1..][..i]) <==> IsFileAt(t, dir, p[..i + 1]) {
      assert p[..i + 1][1..] == p[1..][..i];
    }
    if Blocked(t, dir, p) {
      var i :| 0 <= i < |p| && IsFileAt(t, dir, p[..i]);
      assert i > 0;
      assert IsFileAt(t, child, p[1..][..i - 1]);
    }
    if Blocked(t, child, p[1..]) {
      var i :| 0 <= i < |p[1..]| && IsFileAt(t, child, p[1..][..i]);
      assert IsFileAt(t, dir, p[..i + 1]);
    }
  }

  lemma NothingBlocksMissing(t: Table, dir: nat, p: Path)
    requires p != [] && dir in t && t[dir].Dir? && p[0] !in t[dir].entries
    ensures !Blocked(t, dir, p) && Resolve(t, dir, p).Err?
  {
    forall i | 0 <= i < |p| ensures !IsFileAt(t, dir, p[..i]) {
      if i > 0 {
        assert p[..i][0] == p[0];
      }
    }
  }

  lemma NothingBlocksEmpty(t: Table, dir: nat, p: Path)
    requires p != [] && dir in t && t[dir] == Dir(map[])
    ensures !Blocked(t, dir, p) && Resolve(t, dir, p).Err?
  {
    NothingBlocksMissing(t, dir, p);
  }

  // ---- reachability ----

  ghost function Reach(t: Table, id: nat): set<nat>
    requires Ordered(t)
    decreases id
  {
    if id in t && t[id].Dir? then
      {id} + set n, x | n in t[id].entries && x in Reach(t, t[id].entries[n]) :: x
    else {id}
  }

  /** An id is reachable exactly when some path resolves to it. */
  lemma {:induction false} ReachedByPath(t: Table, id: nat, x: nat) returns (p: Path)
    requires Ordered(t) && x in Reach(t, id)
    ensures Resolve(t, id, p) == Ok(x)
    decreases id
  {
    if x == id {
      p := [];
    } else {
      var n :| n in t[id].entries && x in Reach(t, t[id].entries[n]);
      var rest := ReachedByPath(t, t[id].entries[n], x);
      p := [n] + rest;
    }
  }

  lemma {:induction false} PathReaches(t: Table, id: nat, p: Path)
    requires Ordered(t) && Resolve(t, id, p).Ok?
    ensures Resolve(t, id, p).value in Reach(t, id)
    decreases |p|
  {
    if p != [] {
      PathReaches(t, t[id].entries[p[0]], p[1..]);
    }
  }

  lemma ReachIff(t: Table, id: nat, x: nat)
    requires Ordered(t)
    ensures x in Reach(t, id) <==> exists p :: Resolve(t, id, p) == Ok(x)
  {
    if x in Reach(t, id) {
      var p := ReachedByPath(t, id, x);
    }
    if p :| Resolve(t, id, p) == Ok(x) {
      PathReaches(t, id, p);
    }
  }

  lemma {:induction false} ReachBound(t: Table, id: nat, x: nat)
    requires Ordered(t) && x in Reach(t, id)
    ensures x <= id
    decreases id
  {
    var p := ReachedByPath(t, id, x);
    ResolveBound(t, id, p);
  }

  lemma ReachTransitive(t: Table, id: nat, x: nat)
    requires Ordered(t) && x in Reach(t, id)
    ensures Reach(t, x) <= Reach(t, id)
  {
    var p := ReachedByPath(t, id, x);
    forall y | y in Reach(t, x) ensures y in Reach(t, id) {
      var q := ReachedByPath(t, x, y);
      ResolveConcat(t, id, p, q);
      PathReaches(t, id, p + q);
    }
  }

  lemma ReachFrozen(t: Table, t': Table, next: nat, id: nat)
    requires Ordered(t) && Ordered(t') && Covers(t, next) && Agree(t, t', next) && id < next
    ensures Reach(t', id) == Reach(t, id)
  {
    forall x ensures x in Reach(t', id) <==> x in Reach(t, id) {
      if x in Reach(t, id) {
        var p := ReachedByPath(t, id, x);
        ResolveFrozen(t, t', next, id, p);
        PathReaches(t', id, p);
      }
      if x in Reach(t', id) {
        var p := ReachedByPath(t', id, x);
        ResolveFrozen(t, t', next, id, p);
        PathReaches(t, id, p);
      }
    }
  }

  /** Under one root no inode is shared: two paths never end at the same id. */
  ghost predicate TreeShaped(t: Table, root: nat) {
    forall p, q | Resolve(t, root, p).Ok? && Resolve(t, root, p) == Resolve(t, root, q) :: p == q
  }

  /** Splicing a childless inode from outside a tree into it, or cutting, leaves it a tree. */
  lemma RebuildTreeShaped(t: Table, next: nat, dir: nat, p: Path, leaf: Option<nat>)
    requires p != [] && Ordered(t) && Covers(t, next) && dir < next && LeafBelow(leaf, next)
    requires Rebuild(t, next, dir, p, leaf).root.Ok? && TreeShaped(t, dir)
    requires leaf.Some? ==> IsChildless(t, leaf.value) && leaf.value !in Reach(t, dir)
    ensures var r := Rebuild(t, next, dir, p, leaf);
            TreeShaped(r.table, r.root.value)
  {
    var r := Rebuild(t, next, dir, p, leaf);
    RebuildKeeps(t, next, dir, p, leaf);
    forall a, b | Resolve(r.table, r.root.value, a).Ok?
                  && Resolve(r.table, r.root.value, a) == Resolve(r.table, r.root.value, b)
      ensures a == b
    {
      SplicedPlace(t, next, dir, p, leaf, a);
      SplicedPlace(t, next, dir, p, leaf, b);
    }
  }

  predicate IsChildless(t: Table, id: nat) {
    id in t && (t[id].Dir? ==> t[id].entries == map[])
  }

  /** Where the id found at `q` in a rebuilt tree comes from: the leaf, the new chain, or the old tree. */
  lemma SplicedPlace(t: Table, next: nat, dir: nat, p: Path, leaf: Option<nat>, q: Path)
    requires p != [] && Ordered(t) && Covers(t, next) && dir < next && LeafBelow(leaf, next)
    requires Rebuild(t, next, dir, p, leaf).root.Ok?
    requires leaf.Some? ==> IsChildless(t, leaf.value) && leaf.value !in Reach(t, dir)
    ensures var r := Rebuild(t, next, dir, p, leaf);
            var at := Resolve(r.table, r.root.value, q);
            at.Ok? ==>
              if p <= q then leaf == Some(at.value) && q == p
              else if q <= p then at.value == r.next - 1 - |q| && at.value >= next
              else Resolve(t, dir, q) == at && at.value < next && leaf != Some(at.value)
  {
    var r := Rebuild(t, next, dir, p, leaf);
    RebuildKeeps(t, next, dir, p, leaf);
    RebuildResolves(t, next, dir, p, leaf, q);
    if p <= q {
      assert q == p + q[|p|..];
    } else if !(q <= p) && Resolve(t, dir, q).Ok? {
      ResolveBound(t, dir, q);
      PathReaches(t, dir, q);
    }
  }

  /** A rebuilt tree reaches only the new directories, what the old tree reached, and what the leaf reaches. */
  lemma RebuildReach(t: Table, next: nat, dir: nat, p: Path, leaf: Option<nat>, x: nat)
    requires p != [] && Ordered(t) && Covers(t, next) && dir < next && LeafBelow(leaf, next)
    requires Rebuild(t, next, dir, p, leaf).root.Ok?
    requires var r := Rebuild(t, next, dir, p, leaf); Ordered(r.table) && x in Reach(r.table, r.root.value)
    ensures var r := Rebuild(t, next, dir, p, leaf);
            || (x in r.table && r.table[x].Dir?)
            || (x in Reach(t, dir) && x < next)
            || (leaf.Some? && x in Reach(t, leaf.value) && x < next)
  {
    var r := Rebuild(t, next, dir, p, leaf);
    RebuildKeeps(t, next, dir, p, leaf);
    var q := ReachedByPath(r.table, r.root.value, x);
    RebuildResolves(t, next, dir, p, leaf, q);
    if p <= q {
      ResolveBound(t, leaf.value, q[|p|..]);
      PathReaches(t, leaf.value, q[|p|..]);
    } else if !(q <= p) {
      ResolveBound(t, dir, q);
      PathReaches(t, dir, q);
    }
  }
}
