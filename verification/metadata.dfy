/** The engine's metadata: inode table, superblock in memory and on disk, and snapshots; and its operations. */
module Metadata {
  import opened Prelude
  import opened Paths
  import opened Inodes

  datatype Meta = Meta(table: Table, sb: SuperBlock, committed: SuperBlock, snaps: map<string, SuperBlock>)

  datatype Outcome = Outcome(meta: Meta, result: Result<()>)

  // ---- the operations ----

  function Initial(): Meta {
    var sb := SuperBlock(0, 1, 0);
    Meta(map[0 := Dir(map[])], sb, sb, map[])
  }

  function Commit(m: Meta, root: nat): Meta {
    var sb := SuperBlock(root, m.sb.next, m.sb.txg + 1);
    m.(sb := sb, committed := sb)
  }

  /** Adopt what a rebuild did: its inodes and ids either way, its root only on success. */
  function Publish(m: Meta, r: Rebuilt): Outcome {
    var m' := m.(table := r.table, sb := m.sb.(next := r.next));
    match r.root
    case Err(e) => Outcome(m', Err(e))
    case Ok(root) => Outcome(Commit(m', root), Ok(()))
  }

  /** Allocate an id for `inode` and splice it in at `p`. */
  function Place(m: Meta, p: Path, inode: Inode): Outcome
    requires p != []
  {
    Publish(m, Rebuild(m.table[m.sb.next := inode], m.sb.next + 1, m.sb.root, p, Some(m.sb.next)))
  }

  function WriteMeta(m: Meta, p: Path, file: Inode): Outcome {
    if p == [] then Outcome(m, Err(RootPath)) else Place(m, p, file)
  }

  function MkdirMeta(m: Meta, p: Path): Outcome {
    if p == [] then Outcome(m, Ok(())) else Place(m, p, Dir(map[]))
  }

  function RemoveMeta(m: Meta, p: Path): Outcome {
    if p == [] then Outcome(m, Err(RootPath))
    else Publish(m, Rebuild(m.table, m.sb.next, m.sb.root, p, None))
  }

  /** Link the inode at `from` in at `to`, then cut the entry at `from`; one commit at the end. */
  function RenameMeta(m: Meta, from: Path, to: Path): Outcome {
    if from == [] || to == [] then Outcome(m, Err(RootPath))
    else
      match Resolve(m.table, m.sb.root, from)
      case Err(e) => Outcome(m, Err(e))
      case Ok(id) =>
        var r1 := Rebuild(m.table, m.sb.next, m.sb.root, to, Some(id));
        if r1.root.Err? then Publish(m, r1)
        else Publish(m, Rebuild(r1.table, r1.next, r1.root.value, from, None))
  }

  function SnapshotMeta(m: Meta, name: string): Meta {
    m.(snaps := m.snaps[name := m.sb])
  }

  function RollbackMeta(m: Meta, name: string): Outcome {
    if name !in m.snaps then Outcome(m, Err(NoSuchSnapshot))
    else
      var s := m.snaps[name];
      var next := if m.sb.next < s.next then s.next else m.sb.next;
      Outcome(Commit(m.(sb := SuperBlock(s.root, next, m.sb.txg)), s.root), Ok(()))
  }

  /** Losing the in-memory superblock, as a crash or a restart does. */
  function ReopenMeta(m: Meta): Meta {
    m.(sb := m.committed)
  }

  // ---- the invariant ----

  ghost function Roots(m: Meta): set<nat> {
    {m.sb.root} + set s | s in m.snaps :: m.snaps[s].root
  }

  ghost predicate GoodRoot(t: Table, root: nat) {
    root in t && t[root].Dir? && TreeShaped(t, root)
  }

  /** Lookups terminate and no reachable id has yet to be handed out. */
  ghost predicate Sane(m: Meta) {
    Ordered(m.table) && Covers(m.table, m.sb.next) && m.sb.root < m.sb.next
  }

  ghost predicate MetaInv(m: Meta) {
    && Sane(m)
    && m.committed.root == m.sb.root && m.committed.txg == m.sb.txg
    && m.sb.root < m.committed.next <= m.sb.next
    && GoodRoot(m.table, m.sb.root)
    && (forall s | s in m.snaps ::
          && m.snaps[s].root < m.committed.next && Covers(m.table, m.snaps[s].next)
          && GoodRoot(m.table, m.snaps[s].root))
  }

  lemma InitialInv()
    ensures MetaInv(Initial())
  {
    var t := Initial().table;
    forall p, q | Resolve(t, 0, p).Ok? && Resolve(t, 0, p) == Resolve(t, 0, q) ensures p == q {
      assert p == [] && q == [];
    }
  }

  lemma RootFrozen(t: Table, t': Table, next: nat, root: nat)
    requires Ordered(t) && Covers(t, next) && Agree(t, t', next) && root < next && GoodRoot(t, root)
    ensures GoodRoot(t', root)
  {
    forall p, q | Resolve(t', root, p).Ok? && Resolve(t', root, p) == Resolve(t', root, q) ensures p == q {
      ResolveFrozen(t, t', next, root, p);
      ResolveFrozen(t, t', next, root, q);
    }
  }

  /** Publishing keeps the invariant, given that a new root really is a tree. */
  lemma PublishInv(m: Meta, r: Rebuilt)
    requires MetaInv(m) && Extends(m.table, m.sb.next, r.table, r.next)
    requires r.root.Ok? ==> r.root.value < r.next && GoodRoot(r.table, r.root.value)
    ensures MetaInv(Publish(m, r).meta)
  {
    var m' := Publish(m, r).meta;
    RootFrozen(m.table, r.table, m.sb.next, m.sb.root);
    forall s | s in m'.snaps
      ensures m'.snaps[s].root < m'.committed.next && Covers(m'.table, m'.snaps[s].next)
      ensures GoodRoot(m'.table, m'.snaps[s].root)
    {
      RootFrozen(m.table, r.table, m.sb.next, m.snaps[s].root);
    }
  }

  lemma PlaceExtends(m: Meta, inode: Inode)
    requires Sane(m) && (inode.Dir? ==> inode.entries == map[])
    ensures Extends(m.table, m.sb.next, m.table[m.sb.next := inode], m.sb.next + 1)
    ensures IsChildless(m.table[m.sb.next := inode], m.sb.next)
    ensures m.sb.next !in Reach(m.table[m.sb.next := inode], m.sb.root)
  {
    var t1 := m.table[m.sb.next := inode];
    if m.sb.next in Reach(t1, m.sb.root) {
      ReachBound(t1, m.sb.root, m.sb.next);
    }
  }

  lemma ExtendsTransitive(t: Table, n: nat, t1: Table, n1: nat, t2: Table, n2: nat)
    requires Covers(t, n) && Extends(t, n, t1, n1) && Extends(t1, n1, t2, n2)
    ensures Extends(t, n, t2, n2)
  {
  }

  lemma PlaceInv(m: Meta, p: Path, inode: Inode)
    requires MetaInv(m) && p != [] && (inode.Dir? ==> inode.entries == map[])
    ensures MetaInv(Place(m, p, inode).meta)
    ensures Extends(m.table, m.sb.next, Place(m, p, inode).meta.table, Place(m, p, inode).meta.sb.next)
  {
    var t1, n1 := m.table[m.sb.next := inode], m.sb.next + 1;
    PlaceExtends(m, inode);
    RebuildKeeps(t1, n1, m.sb.root, p, Some(m.sb.next));
    var r := Rebuild(t1, n1, m.sb.root, p, Some(m.sb.next));
    ExtendsTransitive(m.table, m.sb.next, t1, n1, r.table, r.next);
    if r.root.Ok? {
      RootFrozen(m.table, t1, m.sb.next, m.sb.root);
      RebuildTreeShaped(t1, n1, m.sb.root, p, Some(m.sb.next));
    }
    PublishInv(m, r);
  }

  lemma RemoveInv(m: Meta, p: Path)
    requires MetaInv(m)
    ensures MetaInv(RemoveMeta(m, p).meta)
    ensures Extends(m.table, m.sb.next, RemoveMeta(m, p).meta.table, RemoveMeta(m, p).meta.sb.next)
  {
    if p != [] {
      RebuildKeeps(m.table, m.sb.next, m.sb.root, p, None);
      var r := Rebuild(m.table, m.sb.next, m.sb.root, p, None);
      if r.root.Ok? {
        RebuildTreeShaped(m.table, m.sb.next, m.sb.root, p, None);
      }
      PublishInv(m, r);
    }
  }

  // ---- what each operation does, path by path ----

  /** The live tree's lookup. */
  function At(m: Meta, p: Path): Result<nat> {
    Resolve(m.table, m.sb.root, p)
  }

  /** An existing directory inode. */
  predicate IsDirAt(m: Meta, p: Path) {
    var r := At(m, p);
    r.Ok? && r.value in m.table && m.table[r.value].Dir?
  }

  /**
   * A placement changes exactly one path: the new inode is at `p` with nothing below it, every strict
   * prefix of `p` is a directory, and every other path resolves as it did.
   */
  lemma PlaceResolves(m: Meta, p: Path, inode: Inode, q: Path)
    requires Sane(m) && p != [] && (inode.Dir? ==> inode.entries == map[])
    requires Place(m, p, inode).result.Ok?
    ensures var m' := Place(m, p, inode).meta;
            && (q == p ==> At(m', q) == Ok(m.sb.next) && m.sb.next in m'.table && m'.table[m.sb.next] == inode)
            && (p < q ==> At(m', q) == Err(if inode.File? then NotADirectory else NoSuchComponent))
            && (q < p ==> IsDirAt(m', q))
            && (!(p <= q) && !(q <= p) ==> At(m', q) == At(m, q))
  {
    var id := m.sb.next;
    var t1, n1 := m.table[id := inode], id + 1;
    PlaceExtends(m, inode);
    RebuildKeeps(t1, n1, m.sb.root, p, Some(id));
    RebuildResolves(t1, n1, m.sb.root, p, Some(id), q);
    var r := Rebuild(t1, n1, m.sb.root, p, Some(id));
    ResolveFrozen(m.table, t1, id, m.sb.root, q);
    assert r.table[id] == inode;
    if p < q {
      assert q[|p|..] != [];
    }
  }

  /** Placing fails only when the path runs through a file. */
  lemma PlaceOutcome(m: Meta, p: Path, inode: Inode)
    requires Sane(m) && p != [] && (inode.Dir? ==> inode.entries == map[])
    ensures Place(m, p, inode).result ==
            if Blocked(m.table, m.sb.root, p) then Err(TraversesFile) else Ok(())
  {
    var t1 := m.table[m.sb.next := inode];
    PlaceExtends(m, inode);
    RebuildOutcome(t1, m.sb.next + 1, m.sb.root, p, Some(m.sb.next));
    BlockedFrozen(m.table, t1, m.sb.next, m.sb.root, p);
  }

  lemma BlockedFrozen(t: Table, t': Table, next: nat, root: nat, p: Path)
    requires Ordered(t) && Covers(t, next) && Agree(t, t', next) && root < next
    ensures Blocked(t', root, p) <==> Blocked(t, root, p)
  {
    forall i | 0 <= i < |p| ensures IsFileAt(t', root, p[..i]) <==> IsFileAt(t, root, p[..i]) {
      ResolveFrozen(t, t', next, root, p[..i]);
      ResolveBound(t, root, p[..i]);
    }
  }

  /** A removal takes away exactly the subtree at `p`. */
  lemma RemoveResolves(m: Meta, p: Path, q: Path)
    requires Sane(m) && RemoveMeta(m, p).result.Ok?
    ensures var m' := RemoveMeta(m, p).meta;
            && (p <= q ==> At(m', q) == Err(NoSuchComponent))
            && (q < p ==> IsDirAt(m', q))
            && (!(p <= q) && !(q <= p) ==> At(m', q) == At(m, q))
  {
    RebuildKeeps(m.table, m.sb.next, m.sb.root, p, None);
    RebuildResolves(m.table, m.sb.next, m.sb.root, p, None, q);
  }

  /** A removal succeeds exactly when there is something at a non-root path. */
  lemma RemoveOutcome(m: Meta, p: Path)
    requires Sane(m)
    ensures RemoveMeta(m, p).result.Ok? <==> p != [] && At(m, p).Ok?
  {
    if p != [] {
      RebuildOutcome(m.table, m.sb.next, m.sb.root, p, None);
      if At(m, p).Ok? {
        ResolvedNotBlocked(m.table, m.sb.root, p);
      } else if Blocked(m.table, m.sb.root, p) {
      }
    }
  }

  lemma ResolvedNotBlocked(t: Table, root: nat, p: Path)
    requires Resolve(t, root, p).Ok?
    ensures !Blocked(t, root, p)
  {
    forall i | 0 <= i < |p| ensures !IsFileAt(t, root, p[..i]) {
      assert p == p[..i] + p[i..];
      ResolveConcat(t, root, p[..i], p[i..]);
    }
  }

  // ---- rename ----

  /** The two rebuilds a rename performs. */
  ghost function RenameSteps(m: Meta, from: Path, to: Path): (Rebuilt, Rebuilt)
    requires from != [] && to != [] && At(m, from).Ok?
    requires Rebuild(m.table, m.sb.next, m.sb.root, to, Some(At(m, from).value)).root.Ok?
  {
    var r1 := Rebuild(m.table, m.sb.next, m.sb.root, to, Some(At(m, from).value));
    (r1, Rebuild(r1.table, r1.next, r1.root.value, from, None))
  }

  lemma RenameKeeps(m: Meta, from: Path, to: Path)
    requires Sane(m) && RenameMeta(m, from, to).result.Ok?
    ensures var (r1, r2) := RenameSteps(m, from, to);
            && RenameMeta(m, from, to) == Publish(m, r2)
            && At(m, from).value <= m.sb.root
            && Grown(m.table, m.sb.next, r1.table, r1.next) && Grown(r1.table, r1.next, r2.table, r2.next)
            && Grown(m.table, m.sb.next, r2.table, r2.next)
            && r1.root.Ok? && r1.root.value == r1.next - 1 && r2.root.Ok? && r2.root.value == r2.next - 1
            && m.sb.next + |to| <= r1.next && r1.next + |from| <= r2.next
  {
    ResolveBound(m.table, m.sb.root, from);
    var id := At(m, from).value;
    RebuildKeeps(m.table, m.sb.next, m.sb.root, to, Some(id));
    var r1 := Rebuild(m.table, m.sb.next, m.sb.root, to, Some(id));
    RebuildKeeps(r1.table, r1.next, r1.root.value, from, None);
    var r2 := Rebuild(r1.table, r1.next, r1.root.value, from, None);
    GrownTransitive(m.table, m.sb.next, r1.table, r1.next, r2.table, r2.next);
  }

  /**
   * A successful rename, path by path, also when one path is a prefix of the other: nothing is left at or
   * below `from`; what was below `from` is below `to` (unless that is below `from` too); directories on the
   * way to either are new; and every other path resolves as it did.
   */
  lemma RenameResolves(m: Meta, from: Path, to: Path, q: Path)
    requires Sane(m) && RenameMeta(m, from, to).result.Ok?
    ensures RenameSteps(m, from, to).0.next > |to| && RenameSteps(m, from, to).1.next > |from|
    ensures var m' := RenameMeta(m, from, to).meta;
            var (r1, r2) := RenameSteps(m, from, to);
            At(m', q) ==
            if from <= q then Err(NoSuchComponent)
            else if q <= from then Ok(r2.next - 1 - |q|)
            else if to <= q then At(m, from + q[|to|..])
            else if q <= to then Ok(r1.next - 1 - |q|)
            else At(m, q)
  {
    RenameLinked(m, from, to, q);
    RenameCut(m, from, to, q);
    if to <= q {
      ResolveConcat(m.table, m.sb.root, from, q[|to|..]);
    }
  }

  /** Between the two rebuilds the subtree is linked at both paths. */
  lemma RenameLinked(m: Meta, from: Path, to: Path, q: Path)
    requires Sane(m) && RenameMeta(m, from, to).result.Ok?
    ensures var r1 := RenameSteps(m, from, to).0;
            && r1.root.Ok? && r1.next > |to|
            && Resolve(r1.table, r1.root.value, q) ==
               if to <= q then Resolve(m.table, At(m, from).value, q[|to|..])
               else if q <= to then Ok(r1.next - 1 - |q|)
               else At(m, q)
  {
    hide Rebuild, Resolve;
    ResolveBound(m.table, m.sb.root, from);
    RebuildResolves(m.table, m.sb.next, m.sb.root, to, Some(At(m, from).value), q);
  }

  lemma RenameFirst(m: Meta, from: Path, to: Path)
    requires Sane(m) && RenameMeta(m, from, to).result.Ok?
    ensures var r1 := RenameSteps(m, from, to).0;
            r1.root.Ok? && r1.root.value < r1.next && Ordered(r1.table) && Covers(r1.table, r1.next)
  {
    RenameKeeps(m, from, to);
  }

  lemma RenameCut(m: Meta, from: Path, to: Path, q: Path)
    requires Sane(m) && RenameMeta(m, from, to).result.Ok?
    ensures var (r1, r2) := RenameSteps(m, from, to);
            && r1.root.Ok? && r2.next > |from|
            && At(RenameMeta(m, from, to).meta, q) ==
               if from <= q then Err(NoSuchComponent)
               else if q <= from then Ok(r2.next - 1 - |q|)
               else Resolve(r1.table, r1.root.value, q)
  {
    hide Rebuild, Resolve;
    RenameFirst(m, from, to);
    var (r1, r2) := RenameSteps(m, from, to);
    RebuildResolves(r1.table, r1.next, r1.root.value, from, None, q);
  }

  /** Exactly when a rename succeeds. */
  lemma RenameOutcome(m: Meta, from: Path, to: Path)
    requires Sane(m)
    ensures RenameMeta(m, from, to).result.Ok? <==>
            && from != [] && to != [] && At(m, from).Ok?
            && !Blocked(m.table, m.sb.root, to)
            && (to < from ==> At(m, from + from[|to|..]).Ok?)
  {
    if from != [] && to != [] && At(m, from).Ok? {
      var id := At(m, from).value;
      ResolveBound(m.table, m.sb.root, from);
      RebuildOutcome(m.table, m.sb.next, m.sb.root, to, Some(id));
      if !Blocked(m.table, m.sb.root, to) {
        RebuildKeeps(m.table, m.sb.next, m.sb.root, to, Some(id));
        var r1 := Rebuild(m.table, m.sb.next, m.sb.root, to, Some(id));
        RebuildResolves(m.table, m.sb.next, m.sb.root, to, Some(id), from);
        RebuildOutcome(r1.table, r1.next, r1.root.value, from, None);
        var there := Resolve(r1.table, r1.root.value, from);
        if to <= from {
          ResolveConcat(m.table, m.sb.root, from, from[|to|..]);
          assert to != from ==> (there.Ok? <==> At(m, from + from[|to|..]).Ok?);
        }
        if there.Ok? {
          ResolvedNotBlocked(r1.table, r1.root.value, from);
        }
      }
    }
  }

  lemma PrefixesCompare(a: Path, b: Path, c: Path)
    ensures a <= c && b <= c ==> a <= b || b <= a
    ensures b <= c && c <= a ==> b <= a
  {
    if a <= c && b <= c && |a| <= |b| {
      assert a == c[..|a|] == c[..|b|][..|a|] == b[..|a|];
    } else if a <= c && b <= c {
      assert b == c[..|b|] == c[..|a|][..|b|] == a[..|b|];
    }
  }

  /** Every path below `to` now shows what that path below `from` showed before. */
  ghost predicate Moved(m: Meta, m': Meta, from: Path, to: Path) {
    forall q :: At(m', to + q) == At(m, from + q)
  }

  /**
   * A successful rename moves the named subtree exactly when neither path is a prefix of the other: renaming
   * a directory into itself, a path to itself, or a path onto one of its ancestors does not.
   */
  lemma RenameMovesIff(m: Meta, from: Path, to: Path)
    requires Sane(m) && RenameMeta(m, from, to).result.Ok?
    ensures Moved(m, RenameMeta(m, from, to).meta, from, to) <==> !(from <= to) && !(to <= from)
  {
    var m' := RenameMeta(m, from, to).meta;
    RenameOutcome(m, from, to);
    if from <= to {
      RenameResolves(m, from, to, to);
      assert to + [] == to && from + [] == from;
      assert At(m', to + []) != At(m, from + []);
    } else if to <= from {
      var q := from[|to|..];
      assert to + q == from;
      RenameResolves(m, from, to, from);
      assert At(m', to + q) != At(m, from + q);
    } else {
      forall q ensures At(m', to + q) == At(m, from + q) {
        RenameResolves(m, from, to, to + q);
        assert (to + q)[|to|..] == q;
        PrefixesCompare(from, to, to + q);
      }
    }
  }

  /** Renaming below itself deletes: the outcome is that of removing `from`. */
  lemma RenameIntoItselfRemoves(m: Meta, from: Path, to: Path, q: Path)
    requires Sane(m) && RenameMeta(m, from, to).result.Ok? && from <= to
    ensures RemoveMeta(m, from).result.Ok?
    ensures var m', r' := RenameMeta(m, from, to).meta, RemoveMeta(m, from).meta;
            q < from || At(m', q) == At(r', q)
  {
    RenameOutcome(m, from, to);
    RemoveOutcome(m, from);
    RenameResolves(m, from, to, q);
    RemoveResolves(m, from, q);
  }

  /**
   * Renaming onto an ancestor replaces it: what was below `from` is found below `to`, except at and below
   * `from` itself, where nothing is left; the directories in between are new; and paths outside are as before.
   */
  lemma RenameOntoAncestorReplaces(m: Meta, from: Path, to: Path, q: Path)
    requires Sane(m) && RenameMeta(m, from, to).result.Ok? && to < from
    ensures var m' := RenameMeta(m, from, to).meta;
            if from <= q then At(m', q) == Err(NoSuchComponent)
            else if q <= from then IsDirAt(m', q)
            else if to <= q then At(m', q) == At(m, from + q[|to|..])
            else At(m', q) == At(m, q)
  {
    RenameResolves(m, from, to, q);
    RenameKeeps(m, from, to);
    PrefixesCompare(q, to, from);
  }

  lemma RenameTreeShaped(m: Meta, from: Path, to: Path)
    requires MetaInv(m) && RenameMeta(m, from, to).result.Ok?
    ensures var (_, r2) := RenameSteps(m, from, to); TreeShaped(r2.table, r2.root.value)
  {
    RenameKeeps(m, from, to);
    var (_, r2) := RenameSteps(m, from, to);
    var m' := RenameMeta(m, from, to).meta;
    forall a, b | Resolve(r2.table, r2.root.value, a).Ok?
                  && Resolve(r2.table, r2.root.value, a) == Resolve(r2.table, r2.root.value, b)
      ensures a == b
    {
      assert At(m', a).Ok? && At(m', a) == At(m', b);
      RenameSharesNothing(m, from, to, a, b);
    }
  }

  lemma RenameSharesNothing(m: Meta, from: Path, to: Path, a: Path, b: Path)
    requires MetaInv(m) && RenameMeta(m, from, to).result.Ok?
    requires var m' := RenameMeta(m, from, to).meta; At(m', a).Ok? && At(m', a) == At(m', b)
    ensures a == b
  {
    RenameKeeps(m, from, to);
    RenamePlace(m, from, to, a);
    RenamePlace(m, from, to, b);
    SameLengthPrefixes(a, b, from);
    SameLengthPrefixes(a, b, to);
    if !(a <= from) && !(b <= from) && (to <= a || !(a <= to)) && (to <= b || !(b <= to)) {
      Origin(m, from, to, a);
      Origin(m, from, to, b);
      var a', b' := Before(from, to, a), Before(from, to, b);
      assert At(m, a') == At(m, b');
      assert a' == b';
    }
  }

  lemma SameLengthPrefixes(a: Path, b: Path, c: Path)
    ensures a <= c && b <= c && |a| == |b| ==> a == b
  {
    if a <= c && b <= c && |a| == |b| {
      assert a == c[..|a|] == b;
    }
  }

  /** The path at which what a rename shows at `q` was found before it, for paths off the new directory chains. */
  function Before(from: Path, to: Path, q: Path): Path {
    if to <= q then from + q[|to|..] else q
  }

  lemma Origin(m: Meta, from: Path, to: Path, q: Path)
    ensures to <= q ==> from <= Before(from, to, q) && q == to + Before(from, to, q)[|from|..]
  {
    if to <= q {
      assert Before(from, to, q)[|from|..] == q[|to|..];
    }
  }

  /** Where the id found at `q` after a rename was before it. */
  lemma RenamePlace(m: Meta, from: Path, to: Path, q: Path)
    requires Sane(m) && RenameMeta(m, from, to).result.Ok?
    ensures var m' := RenameMeta(m, from, to).meta;
            var (r1, r2) := RenameSteps(m, from, to);
            var at := At(m', q);
            at.Ok? ==>
              if from <= q then false
              else if q <= from then at.value == r2.next - 1 - |q| && at.value >= r1.next
              else if to <= q then at == At(m, from + q[|to|..]) && at.value < m.sb.next
              else if q <= to then at.value == r1.next - 1 - |q| && m.sb.next <= at.value < r1.next
              else at == At(m, q) && at.value < m.sb.next
  {
    RenameKeeps(m, from, to);
    RenameResolves(m, from, to, q);
    ResolveBound(m.table, m.sb.root, q);
    if to <= q {
      ResolveBound(m.table, m.sb.root, from + q[|to|..]);
    }
  }

  lemma RenameInv(m: Meta, from: Path, to: Path)
    requires MetaInv(m)
    ensures MetaInv(RenameMeta(m, from, to).meta)
    ensures Extends(m.table, m.sb.next, RenameMeta(m, from, to).meta.table, RenameMeta(m, from, to).meta.sb.next)
  {
    if from != [] && to != [] && At(m, from).Ok? {
      var id := At(m, from).value;
      ResolveBound(m.table, m.sb.root, from);
      RebuildKeeps(m.table, m.sb.next, m.sb.root, to, Some(id));
      var r1 := Rebuild(m.table, m.sb.next, m.sb.root, to, Some(id));
      if r1.root.Err? {
        PublishInv(m, r1);
      } else {
        RebuildKeeps(r1.table, r1.next, r1.root.value, from, None);
        var r2 := Rebuild(r1.table, r1.next, r1.root.value, from, None);
        GrownTransitive(m.table, m.sb.next, r1.table, r1.next, r2.table, r2.next);
        if r2.root.Ok? {
          RenameTreeShaped(m, from, to);
        }
        PublishInv(m, r2);
      }
    }
  }

  // ---- snapshots, rollback, reopening ----

  lemma SnapshotInv(m: Meta, name: string)
    requires MetaInv(m)
    ensures MetaInv(SnapshotMeta(m, name))
  {
  }

  lemma RollbackInv(m: Meta, name: string)
    requires MetaInv(m)
    ensures MetaInv(RollbackMeta(m, name).meta)
  {
  }

  lemma ReopenInv(m: Meta)
    requires MetaInv(m)
    ensures MetaInv(ReopenMeta(m))
  {
  }

  // ---- what is reachable ----

  ghost predicate Reachable(m: Meta, x: nat)
    requires Ordered(m.table)
  {
    exists r :: r in Roots(m) && x in Reach(m.table, r)
  }

  /**
   * Every file reachable after an operation was reachable before it, the same inode, except the one a write
   * itself placed.
   */
  ghost predicate NoOtherFiles(m: Meta, m': Meta, placed: Option<nat>)
    requires Ordered(m.table) && Ordered(m'.table)
  {
    forall x | Reachable(m', x) && x in m'.table && m'.table[x].File? ::
      placed == Some(x) || (Reachable(m, x) && x in m.table && m.table[x] == m'.table[x])
  }

  lemma PlaceFiles(m: Meta, p: Path, inode: Inode)
    requires MetaInv(m) && p != [] && (inode.Dir? ==> inode.entries == map[])
    ensures Ordered(Place(m, p, inode).meta.table)
    ensures NoOtherFiles(m, Place(m, p, inode).meta, if inode.File? then Some(m.sb.next) else None)
  {
    PlaceInv(m, p, inode);
    var m' := Place(m, p, inode).meta;
    forall x | Reachable(m', x) && x in m'.table && m'.table[x].File?
      ensures (inode.File? && x == m.sb.next) || (Reachable(m, x) && x in m.table && m.table[x] == m'.table[x])
    {
      var root :| root in Roots(m') && x in Reach(m'.table, root);
      if root in Roots(m) {
        OldRootReach(m, m', root, x);
      } else {
        PlacedReach(m, p, inode, x);
        assert m.sb.root in Roots(m);
      }
    }
  }

  lemma PlacedReach(m: Meta, p: Path, inode: Inode, x: nat)
    requires MetaInv(m) && p != [] && (inode.Dir? ==> inode.entries == map[])
    requires Place(m, p, inode).result.Ok?
    requires var m' := Place(m, p, inode).meta;
             Ordered(m'.table) && x in Reach(m'.table, m'.sb.root) && x in m'.table && m'.table[x].File?
    ensures var m' := Place(m, p, inode).meta;
            || (inode.File? && x == m.sb.next)
            || (x in Reach(m.table, m.sb.root) && x in m.table && m.table[x] == m'.table[x])
  {
    var m' := Place(m, p, inode).meta;
    var q := ReachedByPath(m'.table, m'.sb.root, x);
    PlaceInv(m, p, inode);
    PlaceResolves(m, p, inode, q);
    if !(p <= q) && !(q <= p) {
      PathReaches(m.table, m.sb.root, q);
      ReachBound(m.table, m.sb.root, x);
    }
  }

  lemma OldRootReach(m: Meta, m': Meta, root: nat, x: nat)
    requires MetaInv(m) && Ordered(m'.table) && Agree(m.table, m'.table, m.sb.next)
    requires root in Roots(m) && x in Reach(m'.table, root)
    ensures Reachable(m, x) && x in m.table && x in m'.table && m.table[x] == m'.table[x]
  {
    ReachFrozen(m.table, m'.table, m.sb.next, root);
    ReachBound(m.table, root, x);
  }

  lemma RemoveFiles(m: Meta, p: Path)
    requires MetaInv(m)
    ensures Ordered(RemoveMeta(m, p).meta.table)
    ensures NoOtherFiles(m, RemoveMeta(m, p).meta, None)
  {
    RemoveInv(m, p);
    var m' := RemoveMeta(m, p).meta;
    forall x | Reachable(m', x) && x in m'.table && m'.table[x].File?
      ensures Reachable(m, x) && x in m.table && m.table[x] == m'.table[x]
    {
      var root :| root in Roots(m') && x in Reach(m'.table, root);
      if root in Roots(m) {
        OldRootReach(m, m', root, x);
      } else {
        RebuildReach(m.table, m.sb.next, m.sb.root, p, None, x);
        assert m.sb.root in Roots(m);
      }
    }
  }

  lemma RenameFiles(m: Meta, from: Path, to: Path)
    requires MetaInv(m)
    ensures Ordered(RenameMeta(m, from, to).meta.table)
    ensures NoOtherFiles(m, RenameMeta(m, from, to).meta, None)
  {
    hide Rebuild, Resolve, Reach;
    RenameInv(m, from, to);
    var m' := RenameMeta(m, from, to).meta;
    forall x | Reachable(m', x) && x in m'.table && m'.table[x].File?
      ensures Reachable(m, x) && x in m.table && m.table[x] == m'.table[x]
    {
      var root :| root in Roots(m') && x in Reach(m'.table, root);
      if root in Roots(m) {
        OldRootReach(m, m', root, x);
      } else {
        RenameKeeps(m, from, to);
        var q := ReachedByPath(m'.table, root, x);
        RenameFileAt(m, from, to, q);
        assert m.sb.root in Roots(m);
      }
    }
  }

  lemma RenameFileAt(m: Meta, from: Path, to: Path, q: Path)
    requires MetaInv(m) && RenameMeta(m, from, to).result.Ok?
    requires var m' := RenameMeta(m, from, to).meta;
             var at := At(m', q); at.Ok? && at.value in m'.table && m'.table[at.value].File?
    ensures var m' := RenameMeta(m, from, to).meta;
            var x := At(m', q).value;
            x in Reach(m.table, m.sb.root) && x in m.table && m.table[x] == m'.table[x]
  {
    RenameKeeps(m, from, to);
    RenamePlace(m, from, to, q);
    var m' := RenameMeta(m, from, to).meta;
    if to <= q {
      PathReaches(m.table, m.sb.root, from + q[|to|..]);
    } else {
      PathReaches(m.table, m.sb.root, q);
    }
  }

  lemma SnapshotFiles(m: Meta, name: string)
    requires MetaInv(m)
    ensures NoOtherFiles(m, SnapshotMeta(m, name), None)
  {
    var m' := SnapshotMeta(m, name);
    forall x | Reachable(m', x) ensures Reachable(m, x) {
      var root :| root in Roots(m') && x in Reach(m'.table, root);
      assert root in Roots(m);
    }
  }

  lemma RollbackFiles(m: Meta, name: string)
    requires MetaInv(m)
    ensures NoOtherFiles(m, RollbackMeta(m, name).meta, None)
  {
    var m' := RollbackMeta(m, name).meta;
    forall x | Reachable(m', x) ensures Reachable(m, x) {
      var root :| root in Roots(m') && x in Reach(m'.table, root);
      assert root in Roots(m);
    }
  }

  lemma ReopenFiles(m: Meta)
    requires MetaInv(m)
    ensures NoOtherFiles(m, ReopenMeta(m), None)
  {
    var m' := ReopenMeta(m);
    forall x | Reachable(m', x) ensures Reachable(m, x) {
      var root :| root in Roots(m') && x in Reach(m'.table, root);
      assert root in Roots(m);
    }
  }
}
