/** Which blocks are in use: the sets a mark phase computes, and the sums an accounting walk computes. */
module Marking {
  import opened Prelude
  import opened Digests
  import opened Sums
  import opened Paths
  import opened Inodes
  import opened Metadata
  import opened BlockLogs
  import opened Volumes

  ghost predicate BlockIn(t: Table, ids: set<nat>, k: Digest) {
    exists x :: x in ids && x in t && t[x].File? && k in t[x].blocks
  }

  /** `live` is exactly the blocks of the files among `visited`. */
  ghost predicate Marked(t: Table, visited: set<nat>, live: set<Digest>) {
    forall k :: k in live <==> BlockIn(t, visited, k)
  }

  /** Everything below the visited ids up to `bound` has been visited too; the ones above are still open. */
  ghost predicate ClosedUpTo(t: Table, visited: set<nat>, bound: nat)
    requires Ordered(t)
  {
    forall v | v in visited && v <= bound :: Reach(t, v) <= visited
  }

  lemma NothingMarked(t: Table)
    ensures Marked(t, {}, {})
  {
  }

  lemma MarkFile(t: Table, visited: set<nat>, live: set<Digest>, id: nat)
    requires Marked(t, visited, live) && id in t && t[id].File?
    ensures Marked(t, visited + {id}, live + set k | k in t[id].blocks)
  {
    var live' := live + set k | k in t[id].blocks;
    forall k ensures k in live' <==> BlockIn(t, visited + {id}, k) {
      if k in t[id].blocks {
        assert id in visited + {id};
      }
      if BlockIn(t, visited, k) {
        var x :| x in visited && x in t && t[x].File? && k in t[x].blocks;
        assert x in visited + {id};
      }
    }
  }

  lemma MarkDir(t: Table, visited: set<nat>, live: set<Digest>, id: nat)
    requires Marked(t, visited, live) && id in t && t[id].Dir?
    ensures Marked(t, visited + {id}, live)
  {
    forall k ensures BlockIn(t, visited, k) <==> BlockIn(t, visited + {id}, k) {
      if BlockIn(t, visited, k) {
        var x :| x in visited && x in t && t[x].File? && k in t[x].blocks;
        assert x in visited + {id};
      }
    }
  }

  /** Visiting a whole subtree keeps what lies below `bound` closed. */
  lemma VisitedSubtree(t: Table, visited: set<nat>, id: nat, bound: nat)
    requires Ordered(t) && id <= bound
    requires forall v | v in visited && v < bound :: Reach(t, v) <= visited
    ensures forall v | v in visited + Reach(t, id) && v < bound :: Reach(t, v) <= visited + Reach(t, id)
  {
    forall v | v in visited + Reach(t, id) && v < bound ensures Reach(t, v) <= visited + Reach(t, id) {
      if v in Reach(t, id) {
        ReachTransitive(t, id, v);
      }
    }
  }

  /** The blocks a collection must keep. */
  ghost function NeededSet(m: Meta): set<Digest>
    requires Ordered(m.table)
  {
    set r, x, k | r in Roots(m) && x in Reach(m.table, r) && x in m.table && m.table[x].File?
                  && k in m.table[x].blocks :: k
  }

  lemma NeededSetIsNeeded(m: Meta, k: Digest)
    requires Ordered(m.table)
    ensures k in NeededSet(m) <==> Needed(m, k)
  {
    if Needed(m, k) {
      var x :| Reachable(m, x) && x in m.table && m.table[x].File? && k in m.table[x].blocks;
      var r :| r in Roots(m) && x in Reach(m.table, r);
    }
    if k in NeededSet(m) {
      var r, x :| r in Roots(m) && x in Reach(m.table, r) && x in m.table && m.table[x].File? && k in m.table[x].blocks;
      assert Reachable(m, x);
    }
  }

  /** The mark phase from all roots finds exactly what is needed, however much the roots share. */
  lemma MarkedIsNeeded(m: Meta, visited: set<nat>, live: set<Digest>)
    requires Ordered(m.table) && Marked(m.table, visited, live)
    requires forall x :: x in visited <==> Reachable(m, x)
    ensures live == NeededSet(m)
  {
    forall k ensures k in live <==> k in NeededSet(m) {
      NeededSetIsNeeded(m, k);
      if Needed(m, k) {
        var x :| Reachable(m, x) && x in m.table && m.table[x].File? && k in m.table[x].blocks;
        assert x in visited;
      }
      if k in live {
        var x :| x in visited && x in m.table && m.table[x].File? && k in m.table[x].blocks;
      }
    }
  }

  // ---- counting ----

  ghost function FileIds(t: Table, s: set<nat>): set<nat> {
    set x | x in s && x in t && t[x].File?
  }

  ghost function DirIds(t: Table, s: set<nat>): set<nat> {
    set x | x in s && x in t && t[x].Dir?
  }

  ghost function Sizes(t: Table): map<nat, nat> {
    map x | x in t && t[x].File? :: t[x].size
  }

  datatype Tally = Tally(files: nat, dirs: nat, logical: nat, live: set<Digest>)

  /** A tally counts the inodes in `s` once each. */
  ghost predicate Counts(t: Table, s: set<nat>, c: Tally) {
    && c.files == |FileIds(t, s)|
    && c.dirs == |DirIds(t, s)|
    && c.logical == Total(Sizes(t), FileIds(t, s))
    && Marked(t, s, c.live)
  }

  /** The tally with one more inode. */
  function WithInode(c: Tally, inode: Inode): Tally {
    match inode
    case File(size, blocks, _) =>
      Tally(c.files + 1, c.dirs, c.logical + size, c.live + set k | k in blocks)
    case Dir(_) => c.(dirs := c.dirs + 1)
  }

  lemma CountOne(t: Table, s: set<nat>, c: Tally, id: nat)
    requires Counts(t, s, c) && id in t && id !in s
    ensures Counts(t, s + {id}, WithInode(c, t[id]))
  {
    if t[id].File? {
      assert FileIds(t, s + {id}) == FileIds(t, s) + {id};
      assert DirIds(t, s + {id}) == DirIds(t, s);
      TotalAdd(Sizes(t), FileIds(t, s), id);
      MarkFile(t, s, c.live, id);
    } else {
      assert FileIds(t, s + {id}) == FileIds(t, s);
      assert DirIds(t, s + {id}) == DirIds(t, s) + {id};
      MarkDir(t, s, c.live, id);
    }
  }

  /** In a tree, the subtrees of one directory have nothing in common, and each is a tree. */
  lemma SiblingsAreDisjoint(t: Table, id: nat, a: Name, b: Name)
    requires Ordered(t) && TreeShaped(t, id) && id in t && t[id].Dir?
    requires a in t[id].entries && b in t[id].entries && a != b
    ensures Reach(t, t[id].entries[a]) !! Reach(t, t[id].entries[b])
  {
    forall x | x in Reach(t, t[id].entries[a]) && x in Reach(t, t[id].entries[b]) ensures false {
      var p := ReachedThrough(t, id, a, x);
      var q := ReachedThrough(t, id, b, x);
    }
  }

  lemma ReachedThrough(t: Table, id: nat, a: Name, x: nat) returns (p: Path)
    requires Ordered(t) && id in t && t[id].Dir? && a in t[id].entries && x in Reach(t, t[id].entries[a])
    ensures p != [] && p[0] == a && Resolve(t, id, p) == Ok(x)
  {
    var rest := ReachedByPath(t, t[id].entries[a], x);
    p := [a] + rest;
    assert p[1..] == rest;
  }

  lemma ChildIsTree(t: Table, id: nat, a: Name)
    requires Ordered(t) && TreeShaped(t, id) && id in t && t[id].Dir? && a in t[id].entries
    ensures TreeShaped(t, t[id].entries[a])
    ensures id !in Reach(t, t[id].entries[a])
  {
    var child := t[id].entries[a];
    forall p, q | Resolve(t, child, p).Ok? && Resolve(t, child, p) == Resolve(t, child, q) ensures p == q {
      assert ([a] + p)[1..] == p && ([a] + q)[1..] == q;
      assert Resolve(t, id, [a] + p) == Resolve(t, id, [a] + q);
    }
    if id in Reach(t, child) {
      ReachBound(t, child, id);
    }
  }

  /** The ids under the children named in `names`. */
  ghost function ChildReach(t: Table, id: nat, names: set<Name>): set<nat>
    requires Ordered(t) && id in t && t[id].Dir? && names <= t[id].entries.Keys
  {
    set n, x | n in names && x in Reach(t, t[id].entries[n]) :: x
  }

  lemma ChildReachAdd(t: Table, id: nat, names: set<Name>, n: Name)
    requires Ordered(t) && TreeShaped(t, id) && id in t && t[id].Dir? && names <= t[id].entries.Keys
    requires n in t[id].entries && n !in names
    ensures ChildReach(t, id, names + {n}) == ChildReach(t, id, names) + Reach(t, t[id].entries[n])
    ensures ({id} + ChildReach(t, id, names)) !! Reach(t, t[id].entries[n])
  {
    ChildIsTree(t, id, n);
    forall x | x in ChildReach(t, id, names) ensures x !in Reach(t, t[id].entries[n]) {
      var a :| a in names && x in Reach(t, t[id].entries[a]);
      SiblingsAreDisjoint(t, id, a, n);
    }
  }

  lemma ChildReachGrows(t: Table, id: nat, names: set<Name>, n: Name)
    requires Ordered(t) && id in t && t[id].Dir? && names <= t[id].entries.Keys && n in t[id].entries
    ensures ChildReach(t, id, names + {n}) == ChildReach(t, id, names) + Reach(t, t[id].entries[n])
  {
  }

  lemma AllChildren(t: Table, id: nat)
    requires Ordered(t) && id in t && t[id].Dir?
    ensures Reach(t, id) == {id} + ChildReach(t, id, t[id].entries.Keys)
  {
  }

  /** After whole subtrees have been visited, everything visited is closed. */
  lemma RootsAreClosed(t: Table, roots: set<nat>, visited: set<nat>)
    requires Ordered(t) && forall x :: x in visited <==> exists r :: r in roots && x in Reach(t, r)
    ensures forall v | v in visited :: Reach(t, v) <= visited
  {
    forall v | v in visited ensures Reach(t, v) <= visited {
      var r :| r in roots && v in Reach(t, r);
      ReachTransitive(t, r, v);
    }
  }

  lemma VisitedRoots(t: Table, roots: set<nat>, root: nat, visited: set<nat>, visited': set<nat>)
    requires Ordered(t) && forall x :: x in visited <==> exists r :: r in roots && x in Reach(t, r)
    requires visited' == visited + Reach(t, root)
    ensures forall x :: x in visited' <==> exists r :: r in roots + {root} && x in Reach(t, r)
  {
    forall x ensures x in visited' <==> exists r :: r in roots + {root} && x in Reach(t, r) {
      if x in Reach(t, root) {
        assert root in roots + {root};
      } else if x in visited {
        var r :| r in roots && x in Reach(t, r);
        assert r in roots + {root};
      }
    }
  }

  /** The subtree of the next entry is a tree that shares nothing with what has been walked. */
  lemma NextEntry(t: Table, id: nat, before: set<nat>, names: set<Name>, n: Name)
    requires Ordered(t) && TreeShaped(t, id) && id in t && t[id].Dir? && names <= t[id].entries.Keys
    requires n in t[id].entries && n !in names
    requires id in before && (before - {id}) !! Reach(t, id)
    ensures TreeShaped(t, t[id].entries[n])
    ensures (before + ChildReach(t, id, names)) !! Reach(t, t[id].entries[n])
    ensures before + ChildReach(t, id, names) + Reach(t, t[id].entries[n]) == before + ChildReach(t, id, names + {n})
  {
    ChildReachAdd(t, id, names, n);
    ChildIsTree(t, id, n);
    AllChildren(t, id);
    forall x | x in before ensures x !in Reach(t, t[id].entries[n]) {
      if x != id {
        assert x in before - {id};
        assert x !in Reach(t, id);
      }
    }
  }

  // ---- what a collection reclaims ----

  ghost function RootNeeded(m: Meta): set<Digest>
    requires Ordered(m.table)
  {
    set x, k | x in Reach(m.table, m.sb.root) && x in m.table && m.table[x].File? && k in m.table[x].blocks :: k
  }

  /** Bytes the accounting walk calls reclaimable: stored, but not referenced from the live tree. */
  ghost function Reclaimable(m: Meta, index: Index): int
    requires Ordered(m.table) && RootNeeded(m) <= index.Keys
  {
    Physical(index) - Total(Lens(index), RootNeeded(m))
  }

  lemma NeededContainsLive(m: Meta)
    requires Ordered(m.table)
    ensures RootNeeded(m) <= NeededSet(m)
    ensures m.snaps == map[] ==> RootNeeded(m) == NeededSet(m)
  {
    assert m.sb.root in Roots(m);
    if m.snaps == map[] {
      assert Roots(m) == {m.sb.root};
    }
  }

  /**
   * What a collection reclaims is the difference it makes to the stored bytes, never more than was called
   * reclaimable, and all of that when no snapshot pins anything.
   */
  lemma CollectionAccounting(m: Meta, index: Index, index': Index)
    requires Ordered(m.table) && NeededSet(m) <= index.Keys
    requires index'.Keys == index.Keys * NeededSet(m)
    requires forall k | k in index' :: index'[k].len == index[k].len
    ensures RootNeeded(m) <= index.Keys && RootNeeded(m) <= index'.Keys
    ensures var reclaimed := Total(Lens(index), index.Keys - NeededSet(m));
            && Physical(index') == Physical(index) - reclaimed
            && reclaimed <= Reclaimable(m, index)
            && (m.snaps == map[] ==> reclaimed == Reclaimable(m, index) && Reclaimable(m, index') == 0)
    ensures index'.Keys - NeededSet(m) == {}
  {
    NeededContainsLive(m);
    var needed, dead := NeededSet(m), index.Keys - NeededSet(m);
    assert index.Keys == needed + dead && index'.Keys == needed;
    TotalUnion(Lens(index), needed, dead);
    TotalAgree(Lens(index), Lens(index'), needed);
    TotalMonotone(Lens(index), RootNeeded(m), needed);
  }
}
