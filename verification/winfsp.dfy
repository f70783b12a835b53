/** The in-memory volume behind the Windows drive letter: a flat map from full paths to nodes. */
module WinVolumes {
  import opened Bytes

  const SEPARATOR: char := '\\'
  const ROOT: string := [SEPARATOR]

  datatype Node = Node(isDir: bool, data: ByteSeq, indexNumber: nat)

  type Nodes = map<string, Node>

  // ---- paths ----

  /** The position of the last separator, or -1. */
  function LastSeparator(s: string): (i: int)
    ensures -1 <= i < |s|
    ensures i >= 0 ==> s[i] == SEPARATOR
    ensures forall j | i < j < |s| :: s[j] != SEPARATOR
  {
    if s == [] then -1
    else if s[|s| - 1] == SEPARATOR then |s| - 1
    else LastSeparator(s[..|s| - 1])
  }

  function ParentOf(key: string): string {
    if key == ROOT then ROOT
    else
      var i := LastSeparator(key);
      if i > 0 then key[..i] else ROOT
  }

  /** `k` is the path `a` itself or lies below it. */
  predicate Under(a: string, k: string) {
    k == a || (|a| < |k| && a <= k && k[|a|] == SEPARATOR)
  }

  /** Two paths above the same one are above one another. */
  lemma UnderComparable(a: string, b: string, k: string)
    requires Under(a, k) && Under(b, k)
    ensures Under(a, b) || Under(b, a)
  {
    assert a == k[..|a|] && b == k[..|b|];
    if |a| <= |b| {
      assert a == b[..|a|];
    } else {
      assert b == a[..|b|];
    }
  }

  predicate Proper(a: string) {
    a != ROOT && a != []
  }

  /** Below a path means: the parent is that path or below it. */
  lemma UnderParent(a: string, k: string)
    requires Proper(a) && k != a
    ensures Under(a, k) <==> Under(a, ParentOf(k))
  {
    var i := LastSeparator(k);
    if Under(a, k) {
      assert i >= |a|;
    }
    if k != ROOT && i > 0 {
      assert k == k[..i] + k[i..];
    }
  }

  /** The parent of a longer path only depends on where it is rooted through the root's own name. */
  lemma ParentRebased(a: string, b: string, s: string)
    requires a != [] && b != [] && s != [] && s[0] == SEPARATOR
    ensures var i := LastSeparator(s);
            0 <= i && ParentOf(a + s) == a + s[..i] && ParentOf(b + s) == b + s[..i]
            && (i > 0 ==> s[..i][0] == SEPARATOR)
  {
    var i := LastSeparator(s);
    LastSeparatorAppend(a, s);
    LastSeparatorAppend(b, s);
    assert (a + s)[..|a| + i] == a + s[..i];
    assert (b + s)[..|b| + i] == b + s[..i];
  }

  lemma {:induction false} LastSeparatorAppend(a: string, s: string)
    requires LastSeparator(s) >= 0
    ensures LastSeparator(a + s) == |a| + LastSeparator(s)
    decreases |s|
  {
    assert (a + s)[..|a + s| - 1] == a + s[..|s| - 1];
    if s[|s| - 1] != SEPARATOR {
      LastSeparatorAppend(a, s[..|s| - 1]);
    }
  }

  // ---- the tree in the flat map ----

  ghost predicate IsDir(nodes: Nodes, k: string) {
    k in nodes && nodes[k].isDir
  }

  /** The root is a directory, and so is the parent of every other key. */
  ghost predicate Closed(nodes: Nodes) {
    IsDir(nodes, ROOT) && forall k | k in nodes && k != ROOT :: IsDir(nodes, ParentOf(k))
  }

  predicate HasChild(nodes: Nodes, key: string) {
    exists k | k in nodes :: k != key && ParentOf(k) == key
  }

  // ---- renaming ----

  function Rekeyed(from: string, to: string, k: string): string
    requires Under(from, k)
  {
    to + k[|from|..]
  }

  lemma RekeyedBack(from: string, to: string, k: string)
    requires Under(from, k)
    ensures Under(to, Rekeyed(from, to, k)) && Rekeyed(to, from, Rekeyed(from, to, k)) == k
  {
    var n := Rekeyed(from, to, k);
    assert n[|to|..] == k[|from|..];
    assert to == n[..|to|];
  }

  function Affected(nodes: Nodes, from: string): set<string> {
    set k | k in nodes && Under(from, k)
  }

  /** One step of the rename loop. */
  function MoveOne(nodes: Nodes, from: string, to: string, k: string): Nodes {
    if k in nodes && Under(from, k) then (nodes - {k})[Rekeyed(from, to, k) := nodes[k]] else nodes
  }

  /** The loop over the affected keys, in this order. */
  function MoveAll(nodes: Nodes, from: string, to: string, order: seq<string>): Nodes {
    if order == [] then nodes
    else MoveOne(MoveAll(nodes, from, to, order[..|order| - 1]), from, to, order[|order| - 1])
  }

  ghost predicate Ordering(order: seq<string>, keys: set<string>) {
    (forall i, j | 0 <= i < j < |order| :: order[i] != order[j]) && forall k :: k in order <==> k in keys
  }

  /** Where the nodes under these keys go. */
  function Targets(from: string, to: string, keys: set<string>): set<string>
    requires forall k | k in keys :: Under(from, k)
  {
    set k | k in keys :: Rekeyed(from, to, k)
  }

  lemma TargetsBack(from: string, to: string, keys: set<string>)
    requires forall k | k in keys :: Under(from, k)
    ensures forall n | n in Targets(from, to, keys) :: Under(to, n) && Rekeyed(to, from, n) in keys
    ensures forall n | Under(to, n) && Rekeyed(to, from, n) in keys :: n in Targets(from, to, keys)
  {
    forall k | k in keys ensures Under(to, Rekeyed(from, to, k)) && Rekeyed(to, from, Rekeyed(from, to, k)) == k {
      RekeyedBack(from, to, k);
    }
    forall n | Under(to, n) && Rekeyed(to, from, n) in keys ensures n in Targets(from, to, keys) {
      RekeyedBack(to, from, n);
    }
  }

  /** The nodes once these keys have moved: the others where they were, these under the same name below `to`. */
  function Halfway(nodes: Nodes, from: string, to: string, done: set<string>): Nodes
    requires forall k | k in done :: k in nodes && Under(from, k)
  {
    TargetsBack(from, to, done);
    var kept := nodes - done;
    kept + map n | n in Targets(from, to, done) :: nodes[Rekeyed(to, from, n)]
  }

  /** The nodes after a rename: the whole subtree of `from` re-keyed below `to`, its nodes unchanged. */
  function Renamed(nodes: Nodes, from: string, to: string): Nodes {
    Halfway(nodes, from, to, Affected(nodes, from))
  }

  /** No key that moves moves onto another one that moves. */
  ghost predicate Untangled(nodes: Nodes, from: string, to: string) {
    forall j, k | j in Affected(nodes, from) && k in Affected(nodes, from) && Rekeyed(from, to, j) == k :: j == k
  }

  /** Key by key, what moving these keys leaves. */
  lemma HalfwayAt(nodes: Nodes, from: string, to: string, done: set<string>, k: string)
    requires forall j | j in done :: j in nodes && Under(from, j)
    ensures var r := Halfway(nodes, from, to, done);
            var moved := Under(to, k) && Rekeyed(to, from, k) in done;
            && (k in r <==> moved || (k in nodes && k !in done))
            && (k in r ==> r[k] == if moved then nodes[Rekeyed(to, from, k)] else nodes[k])
  {
    hide Under;
    TargetsBack(from, to, done);
  }

  /** Moving one more key, which none of those before it has moved onto. */
  lemma HalfwayStep(nodes: Nodes, from: string, to: string, done: set<string>, k: string)
    requires done <= Affected(nodes, from) && k in Affected(nodes, from) && k !in done
    requires Under(to, k) ==> Rekeyed(to, from, k) !in done
    ensures MoveOne(Halfway(nodes, from, to, done), from, to, k) == Halfway(nodes, from, to, done + {k})
  {
    hide Under, Rekeyed, Halfway;
    RekeyedBack(from, to, k);
    HalfwayAt(nodes, from, to, done, k);
    var half, step := Halfway(nodes, from, to, done), Halfway(nodes, from, to, done + {k});
    var moved := MoveOne(half, from, to, k);
    forall j ensures j in moved <==> j in step
             ensures j in moved ==> moved[j] == step[j] {
      HalfwayAt(nodes, from, to, done, j);
      HalfwayAt(nodes, from, to, done + {k}, j);
      if Under(to, j) {
        RekeyedBack(to, from, j);
      }
    }
  }

  /** No key is visited after another one has moved onto it. */
  ghost predicate Timely(from: string, to: string, order: seq<string>) {
    forall i, j | 0 <= i < j < |order| && Under(from, order[i]) :: Rekeyed(from, to, order[i]) != order[j]
  }

  /** The last key of a timely order is untouched until then. */
  lemma UntouchedYet(from: string, to: string, order: seq<string>, keys: set<string>)
    requires Timely(from, to, order) && order != [] && Ordering(order, keys) && forall k | k in keys :: Under(from, k)
    ensures var k := order[|order| - 1]; Under(to, k) ==> Rekeyed(to, from, k) !in keys - {k}
  {
    hide Under, Rekeyed;
    var k := order[|order| - 1];
    forall j | j in keys - {k} ensures Rekeyed(from, to, j) != k {
      assert j in order;
    }
    if Under(to, k) {
      RekeyedBack(to, from, k);
    }
  }

  /** Visiting these keys in a timely order re-keys exactly them. */
  lemma {:induction false} TimelyMoves(
    nodes: Nodes, from: string, to: string, order: seq<string>, keys: set<string>)
    requires Timely(from, to, order) && keys <= Affected(nodes, from) && Ordering(order, keys)
    ensures MoveAll(nodes, from, to, order) == Halfway(nodes, from, to, keys)
    decreases |order|
  {
    hide Under, Rekeyed, Halfway, MoveOne, Ordering;
    if order == [] {
      OrderingNone(keys);
      HalfwayNone(nodes, from, to);
    } else {
      var n := |order| - 1;
      var k := order[n];
      OrderingPrefix(order, keys);
      UntouchedYet(from, to, order, keys);
      TimelyMoves(nodes, from, to, order[..n], keys - {k});
      HalfwayStep(nodes, from, to, keys - {k}, k);
      assert keys - {k} + {k} == keys;
    }
  }

  /** The loop re-keys exactly these keys of the source's subtree, in whatever order it visits them. */
  lemma OrderIrrelevant(nodes: Nodes, from: string, to: string, order: seq<string>, keys: set<string>)
    requires Untangled(nodes, from, to) && keys <= Affected(nodes, from) && Ordering(order, keys)
    ensures MoveAll(nodes, from, to, order) == Halfway(nodes, from, to, keys)
  {
    hide Under, Rekeyed, Halfway, MoveAll;
    forall i, j | 0 <= i < j < |order| && Under(from, order[i]) ensures Rekeyed(from, to, order[i]) != order[j] {
      assert order[i] in order && order[j] in order;
    }
    TimelyMoves(nodes, from, to, order, keys);
  }

  lemma OrderingNone(keys: set<string>)
    requires Ordering([], keys)
    ensures keys == {}
  {
    var none: seq<string> := [];
    assert forall k | k in keys :: k in none;
  }

  lemma OrderingPrefix(order: seq<string>, keys: set<string>)
    requires Ordering(order, keys) && order != []
    ensures var n := |order| - 1; order[n] in keys && Ordering(order[..n], keys - {order[n]})
  {
    var n := |order| - 1;
    assert forall k | k in order :: k in order[..n] || k == order[n];
  }

  lemma HalfwayNone(nodes: Nodes, from: string, to: string)
    ensures Halfway(nodes, from, to, {}) == nodes
  {
    assert Targets(from, to, {}) == {};
  }

  // ---- exactly when the order is irrelevant ----

  lemma {:induction false} SomeOrdering(keys: set<string>) returns (order: seq<string>)
    ensures Ordering(order, keys)
    decreases keys
  {
    if keys == {} {
      order := [];
    } else {
      var k :| k in keys;
      var rest := SomeOrdering(keys - {k});
      order := rest + [k];
    }
  }

  /** A key not yet visited is still there: moving others may replace its node but never remove it. */
  lemma {:induction false} StillThere(nodes: Nodes, from: string, to: string, order: seq<string>, k: string)
    requires k in nodes && k !in order
    ensures k in MoveAll(nodes, from, to, order)
    decreases |order|
  {
    if order != [] {
      var n := |order| - 1;
      assert order[n] in order;
      StillThere(nodes, from, to, order[..n], k);
    }
  }

  lemma MoveTwoMore(nodes: Nodes, from: string, to: string, p: seq<string>, j: string, k: string)
    ensures MoveAll(nodes, from, to, p + [j, k])
            == MoveOne(MoveOne(MoveAll(nodes, from, to, p), from, to, j), from, to, k)
  {
    var one := p + [j];
    assert (p + [j, k])[..|p| + 1] == one && one[..|p|] == p;
    assert MoveAll(nodes, from, to, one) == MoveOne(MoveAll(nodes, from, to, p), from, to, j);
  }

  lemma OrderingWithTwo(p: seq<string>, keys: set<string>, j: string, k: string)
    requires Ordering(p, keys - {j, k}) && j in keys && k in keys && j != k
    ensures Ordering(p + [j, k], keys)
  {
    var order := p + [j, k];
    forall x ensures x in order <==> x in keys {
      assert x in order <==> x in p || x == j || x == k;
    }
  }

  /** Only a rename of a path to itself leaves a key where it is. */
  lemma RekeyedMoves(from: string, to: string, k: string)
    requires Under(from, k) && Rekeyed(from, to, k) == k
    ensures from == to
  {
    assert |to| == |from|;
    assert from == k[..|from|] && to == k[..|to|];
  }

  /** When one key moves onto another, it matters which of them goes first. */
  lemma TangleDiffers(nodes: Nodes, from: string, to: string, j: string, k: string)
    returns (one: seq<string>, two: seq<string>)
    requires j in Affected(nodes, from) && k in Affected(nodes, from) && j != k && Rekeyed(from, to, j) == k
    ensures Ordering(one, Affected(nodes, from)) && Ordering(two, Affected(nodes, from))
    ensures k !in MoveAll(nodes, from, to, one) && k in MoveAll(nodes, from, to, two)
  {
    var keys := Affected(nodes, from);
    assert Rekeyed(from, to, k) != k by {
      if Rekeyed(from, to, k) == k {
        RekeyedMoves(from, to, k);
      }
    }
    hide Under, Rekeyed, Affected;
    var p := SomeOrdering(keys - {j, k});
    one, two := p + [j, k], p + [k, j];
    OrderingWithTwo(p, keys, j, k);
    assert {k, j} == {j, k};
    OrderingWithTwo(p, keys, k, j);
    StillThere(nodes, from, to, p, j);
    StillThere(nodes, from, to, p, k);
    MoveTwoMore(nodes, from, to, p, j, k);
    MoveTwoMore(nodes, from, to, p, k, j);
  }

  ghost predicate SameInEveryOrder(nodes: Nodes, from: string, to: string) {
    forall one, two | Ordering(one, Affected(nodes, from)) && Ordering(two, Affected(nodes, from)) ::
      MoveAll(nodes, from, to, one) == MoveAll(nodes, from, to, two)
  }

  /** The loop's outcome does not depend on the order exactly when no key moves onto another one that moves. */
  lemma OrderIrrelevantIff(nodes: Nodes, from: string, to: string)
    ensures SameInEveryOrder(nodes, from, to) <==> Untangled(nodes, from, to)
  {
    var keys := Affected(nodes, from);
    if Untangled(nodes, from, to) {
      forall one, two | Ordering(one, keys) && Ordering(two, keys)
        ensures MoveAll(nodes, from, to, one) == MoveAll(nodes, from, to, two)
      {
        OrderIrrelevant(nodes, from, to, one, keys);
        OrderIrrelevant(nodes, from, to, two, keys);
      }
    } else {
      var j, k :| j in keys && k in keys && Rekeyed(from, to, j) == k && j != k;
      var one, two := TangleDiffers(nodes, from, to, j, k);
    }
  }

  /** A key visited after another one has moved onto it stays gone. */
  lemma {:induction false} GoneForGood(nodes: Nodes, from: string, to: string, order: seq<string>, i: nat, j: nat)
    requires from != to && Ordering(order, set k | k in order) && forall k | k in order :: Under(from, k)
    requires i < j < |order| && Rekeyed(from, to, order[i]) == order[j]
    ensures order[j] !in MoveAll(nodes, from, to, order)
    decreases |order|
  {
    hide Under, Rekeyed;
    var n := |order| - 1;
    var before := MoveAll(nodes, from, to, order[..n]);
    if j == n {
      if Rekeyed(from, to, order[n]) == order[n] {
        RekeyedMoves(from, to, order[n]);
      }
    } else {
      assert forall k | k in order[..n] :: k in order;
      GoneForGood(nodes, from, to, order[..n], i, j);
      RekeyedBack(from, to, order[i]);
      RekeyedBack(from, to, order[n]);
    }
  }

  /** The loop re-keys the subtree exactly when its order is timely. */
  lemma TimelyIff(nodes: Nodes, from: string, to: string, order: seq<string>)
    requires Ordering(order, Affected(nodes, from))
    ensures MoveAll(nodes, from, to, order) == Renamed(nodes, from, to) <==> Timely(from, to, order)
  {
    hide Under, Rekeyed, Halfway, MoveAll;
    if Timely(from, to, order) {
      TimelyMoves(nodes, from, to, order, Affected(nodes, from));
    } else {
      var i, j :| 0 <= i < j < |order| && Under(from, order[i]) && Rekeyed(from, to, order[i]) == order[j];
      assert order[i] in order && order[j] in order;
      RekeyedBack(from, to, order[i]);
      if from == to {
        RekeyedUnmoved(from, order[i]);
      } else {
        GoneForGood(nodes, from, to, order, i, j);
        HalfwayAt(nodes, from, to, Affected(nodes, from), order[j]);
      }
    }
  }

  lemma RekeyedUnmoved(from: string, k: string)
    requires Under(from, k)
    ensures Rekeyed(from, from, k) == k
  {
  }

  lemma TargetsApart(from: string, to: string, k: string)
    requires !Under(from, to) && !Under(to, from) && Under(to, k)
    ensures !Under(from, k)
  {
    if Under(from, k) {
      UnderComparable(from, to, k);
    }
  }

  /** Paths of which neither lies below the other are never tangled. */
  lemma ApartUntangled(nodes: Nodes, from: string, to: string)
    requires !Under(from, to) && !Under(to, from)
    ensures Untangled(nodes, from, to)
  {
    forall j | j in Affected(nodes, from) ensures Rekeyed(from, to, j) !in Affected(nodes, from) {
      RekeyedBack(from, to, j);
      TargetsApart(from, to, Rekeyed(from, to, j));
    }
  }

  lemma NestedPaths() returns (a: string, ab: string, abb: string, abbc: string)
    ensures |ROOT| < |a| < |ab| < |abb| < |abbc|
    ensures ParentOf(a) == ROOT && ParentOf(ab) == a && ParentOf(abb) == ab && ParentOf(abbc) == abb
    ensures Under(a, ab) && !Under(ab, a) && Under(a, a) && Under(ab, ab) && Under(ab, abb)
    ensures Rekeyed(a, ab, a) == ab && Rekeyed(a, ab, ab) == abb && Rekeyed(ab, a, abb) == ab
  {
    a, ab, abb, abbc := "\\a", "\\a\\b", "\\a\\b\\b", "\\a\\b\\b\\c";
  }

  /** The order can matter: renaming a directory below itself when a child has the name it gets. */
  lemma OverlapDependsOnOrder()
    ensures exists nodes, from, to :: Closed(nodes) && !Untangled(nodes, from, to) && !SameInEveryOrder(nodes, from, to)
  {
    hide ParentOf, Under, Rekeyed, SameInEveryOrder;
    var a, ab, _, _ := NestedPaths();
    var nodes: Nodes := map[ROOT := Node(true, [], 1), a := Node(true, [], 2), ab := Node(true, [], 3)];
    assert a in Affected(nodes, a) && ab in Affected(nodes, a);
    assert !Untangled(nodes, a, ab);
    hide Untangled;
    OrderIrrelevantIff(nodes, a, ab);
  }

  // ---- what a rename does to the tree ----

  lemma {:induction false} ChildBelow(nodes: Nodes, a: string, k: string)
    requires Closed(nodes) && Proper(a) && k in nodes && Under(a, k) && k != a
    ensures a in nodes && HasChild(nodes, a)
    decreases |k|
  {
    UnderParent(a, k);
    if ParentOf(k) != a {
      ChildBelow(nodes, a, ParentOf(k));
    }
  }

  lemma ParentOutside(a: string)
    requires Proper(a)
    ensures !Under(a, ParentOf(a)) && ParentOf(a) != a
  {
  }

  /** Key by key, what a rename leaves. */
  lemma RenamedAt(nodes: Nodes, from: string, to: string, k: string)
    ensures var r := Renamed(nodes, from, to);
            var moved := Under(to, k) && Rekeyed(to, from, k) in nodes;
            && (k in r <==> moved || (k in nodes && !Under(from, k)))
            && (k in r ==> r[k] == if moved then nodes[Rekeyed(to, from, k)] else nodes[k])
  {
    hide Under, Rekeyed, Halfway;
    HalfwayAt(nodes, from, to, Affected(nodes, from), k);
    if Under(to, k) {
      RekeyedBack(to, from, k);
    }
  }

  /** Renaming a path to itself changes nothing. */
  lemma RenamedToItself(nodes: Nodes, from: string)
    ensures Renamed(nodes, from, from) == nodes
  {
    hide Renamed;
    var r := Renamed(nodes, from, from);
    forall k ensures (k in r <==> k in nodes) && (k in r ==> r[k] == nodes[k]) {
      RenamedAt(nodes, from, from, k);
      if Under(from, k) {
        assert Rekeyed(from, from, k) == k;
      }
    }
  }

  /**
   * The source is not the root and does not go below itself, the target's parent is a directory, and no file lands
   * on the root or where a node that stays has its parent.
   */
  ghost predicate Fits(nodes: Nodes, from: string, to: string)
    requires from in nodes
  {
    from == to ||
    (&& from != ROOT && !Under(from, to) && IsDir(nodes, ParentOf(to)) && (to == ROOT ==> nodes[from].isDir)
     && forall c | c in nodes && c != ROOT && !Under(from, c) && Under(to, ParentOf(c)) ::
          Rekeyed(to, from, ParentOf(c)) in nodes ==> nodes[Rekeyed(to, from, ParentOf(c))].isDir)
  }

  /** Re-keying an existing path's subtree keeps the tree closed exactly when it fits where it goes. */
  lemma RenameClosedIff(nodes: Nodes, from: string, to: string)
    requires Closed(nodes) && from in nodes && from != [] && to != []
    ensures Closed(Renamed(nodes, from, to)) <==> Fits(nodes, from, to)
  {
    if from == to {
      RenamedToItself(nodes, from);
    } else if from == ROOT {
      RenamedAt(nodes, from, to, ROOT);
      RootIsApart(to);
    } else if Closed(Renamed(nodes, from, to)) {
      ClosedMeansFits(nodes, from, to);
    } else if Fits(nodes, from, to) {
      FitsMeansClosed(nodes, from, to);
    }
  }

  lemma FitsMeansClosed(nodes: Nodes, from: string, to: string)
    requires Closed(nodes) && from in nodes && Proper(from) && to != [] && from != to && Fits(nodes, from, to)
    ensures Closed(Renamed(nodes, from, to))
  {
    var r := Renamed(nodes, from, to);
    assert IsDir(r, ROOT) by {
      RenamedAt(nodes, from, to, ROOT);
      RootIsApart(from);
      if to == ROOT {
        assert Rekeyed(to, from, ROOT) == from;
      } else {
        RootIsApart(to);
      }
    }
    hide Renamed, Under;
    forall k | k in r && k != ROOT ensures IsDir(r, ParentOf(k)) {
      RenamedAt(nodes, from, to, k);
      if Under(to, k) && Rekeyed(to, from, k) in nodes {
        MovedParent(nodes, from, to, k);
      } else {
        KeptParent(nodes, from, to, k);
      }
    }
  }

  lemma RootIsApart(a: string)
    requires Proper(a)
    ensures !Under(a, ROOT)
  {
  }

  lemma ClosedMeansFits(nodes: Nodes, from: string, to: string)
    requires Closed(nodes) && Proper(from) && to != [] && from != to && from in nodes
    requires Closed(Renamed(nodes, from, to))
    ensures Fits(nodes, from, to)
  {
    RekeyedBack(to, from, to);
    assert Rekeyed(to, from, to) == from;
    if to == ROOT {
      RootIsApart(from);
    } else {
      ParentOutside(to);
      UnderParent(from, to);
    }
    hide Renamed;
    RenamedAt(nodes, from, to, to);
    RenamedAt(nodes, from, to, ParentOf(to));
    forall c | c in nodes && c != ROOT && !Under(from, c) && Under(to, ParentOf(c))
               && Rekeyed(to, from, ParentOf(c)) in nodes
      ensures nodes[Rekeyed(to, from, ParentOf(c))].isDir
    {
      RenamedAt(nodes, from, to, c);
      RenamedAt(nodes, from, to, ParentOf(c));
    }
  }

  /** The parent of a moved node is the moved parent, or the target's own parent. */
  lemma MovedParent(nodes: Nodes, from: string, to: string, k: string)
    requires Closed(nodes) && Proper(from) && to != [] && !Under(from, to) && IsDir(nodes, ParentOf(to))
    requires Under(to, k) && Rekeyed(to, from, k) in nodes && k != ROOT
    ensures IsDir(Renamed(nodes, from, to), ParentOf(k))
  {
    var p := ParentOf(k);
    if k == to {
      ParentOutside(to);
      UnderParent(from, to);
    } else {
      var s := k[|to|..];
      assert k == to + s && Rekeyed(to, from, k) == from + s;
      ParentRebased(from, to, s);
      var t := s[..LastSeparator(s)];
      assert (from + t)[|from|..] == t && (to + t)[|to|..] == t;
      assert Under(to, p) && Rekeyed(to, from, p) == from + t;
      RootIsApart(from);
    }
    hide Renamed;
    RenamedAt(nodes, from, to, p);
  }

  /** The parent of a node that stays stays, and is still a directory. */
  lemma KeptParent(nodes: Nodes, from: string, to: string, k: string)
    requires Closed(nodes) && from in nodes && Proper(from) && from != to && Fits(nodes, from, to)
    requires k in nodes && !Under(from, k) && k != ROOT
    ensures IsDir(Renamed(nodes, from, to), ParentOf(k))
  {
    UnderParent(from, k);
    hide Renamed, Under;
    RenamedAt(nodes, from, to, ParentOf(k));
  }

  /**
   * A rename of an existing path to a free place (or a leaf) in an existing directory, not below itself: exactly
   * the source's subtree moves, with its nodes unchanged, nothing else changes, and the tree stays closed.
   */
  lemma RenameMovesSubtree(nodes: Nodes, from: string, to: string)
    requires Closed(nodes) && Proper(from) && Proper(to) && from in nodes
    requires IsDir(nodes, ParentOf(to)) && !Under(from, to) && !HasChild(nodes, to)
    ensures Untangled(nodes, from, to) && Closed(Renamed(nodes, from, to))
    ensures forall k ::
              var r := Renamed(nodes, from, to);
              if Under(to, k) then
                && (k in r <==> Rekeyed(to, from, k) in nodes)
                && (k in r ==> r[k] == nodes[Rekeyed(to, from, k)])
              else if Under(from, k) then k !in r
              else (k in r <==> k in nodes) && (k in r ==> r[k] == nodes[k])
  {
    if Under(to, from) {
      ChildBelow(nodes, to, from);
    }
    ApartUntangled(nodes, from, to);
    OnlyTheLeaf(nodes, to);
    RenameClosedIff(nodes, from, to);
    assert Rekeyed(to, from, to) == from;
    hide Renamed, Untangled, Closed;
    var r := Renamed(nodes, from, to);
    forall k ensures
      if Under(to, k) then
        && (k in r <==> Rekeyed(to, from, k) in nodes)
        && (k in r ==> r[k] == nodes[Rekeyed(to, from, k)])
      else if Under(from, k) then k !in r
      else (k in r <==> k in nodes) && (k in r ==> r[k] == nodes[k])
    {
      RenamedAt(nodes, from, to, k);
    }
  }

  /** Nothing lies below a key without children. */
  lemma OnlyTheLeaf(nodes: Nodes, a: string)
    requires Closed(nodes) && Proper(a) && !HasChild(nodes, a)
    ensures forall k | k in nodes && Under(a, k) :: k == a
    ensures forall c | c in nodes && c != ROOT :: !Under(a, ParentOf(c))
  {
    forall k | k in nodes && Under(a, k) ensures k == a {
      if k != a {
        ChildBelow(nodes, a, k);
      }
    }
    forall c | c in nodes && c != ROOT ensures !Under(a, ParentOf(c)) {
      if Under(a, ParentOf(c)) {
        ParentOutside(a);
        UnderParent(a, c);
        ChildBelow(nodes, a, c);
      }
    }
  }

  // ---- exactly when the loop keeps the tree closed ----

  /** The key that moves onto the source's own, when the target is above the source. */
  function Onto(from: string, to: string): string
    requires Under(to, from)
  {
    Rekeyed(to, from, from)
  }

  lemma OntoMoves(from: string, to: string)
    requires Proper(from) && from != to && Under(to, from)
    ensures var b := Onto(from, to);
            Under(from, b) && b != from && Rekeyed(from, to, b) == from && Proper(b) && Rekeyed(to, from, from) == b
  {
    var b := Onto(from, to);
    assert b[..|from|] == from && b[|from|..] == from[|to|..];
    assert to == from[..|to|];
  }

  lemma OntoFirst(from: string, to: string, j: string)
    requires Proper(from) && from != to && !Under(from, to)
    requires Under(from, j) && Under(from, Rekeyed(from, to, j))
    ensures Under(to, from) && Under(Onto(from, to), j)
  {
    var k := Rekeyed(from, to, j);
    assert Under(to, k);
    UnderComparable(from, to, k);
    var u, v := from[|to|..], k[|from|..];
    assert from == to + u && k == from + v;
    assert j[|from|..] == k[|to|..] == u + v;
    assert j == from + u + v;
    assert (from + u + v)[..|from + u|] == from + u;
  }

  /** A key that moves onto another one has the first such key above it. */
  lemma OntoAbove(nodes: Nodes, from: string, to: string, j: string)
    requires Closed(nodes) && Proper(from) && from != to && !Under(from, to)
    requires j in Affected(nodes, from) && Under(from, Rekeyed(from, to, j))
    ensures Under(to, from) && Under(Onto(from, to), j) && Onto(from, to) in nodes
  {
    hide Under, Rekeyed, Onto;
    OntoFirst(from, to, j);
    OntoMoves(from, to);
    if j != Onto(from, to) {
      ChildBelow(nodes, Onto(from, to), j);
    }
  }

  /**
   * The one key that moves onto the source can go first unnoticed: it has no children, and if it is a file, nothing
   * else has its parent at the target afterwards.
   */
  ghost predicate Harmless(nodes: Nodes, from: string, to: string) {
    && Under(to, from)
    && var b := Onto(from, to);
    && b in nodes && !HasChild(nodes, b)
    && (nodes[b].isDir
        || (to != ROOT && forall c | c in nodes && c != b :: ParentOf(c) != if Under(from, c) then from else to))
  }

  ghost predicate ClosedInEveryOrder(nodes: Nodes, from: string, to: string) {
    forall order | Ordering(order, Affected(nodes, from)) :: Closed(MoveAll(nodes, from, to, order))
  }

  /** A key to visit last: the longest, or the shortest when moving makes keys longer. */
  lemma {:induction false} LastInTime(from: string, to: string, keys: set<string>) returns (k: string)
    requires keys != {}
    ensures k in keys
    ensures forall j | j in keys :: if |to| <= |from| then |j| <= |k| else |k| <= |j|
    decreases keys
  {
    k :| k in keys;
    if keys != {k} {
      assert keys == keys - {k} + {k};
      var l := LastInTime(from, to, keys - {k});
      if if |to| <= |from| then |k| <= |l| else |l| <= |k| {
        k := l;
      }
    }
  }

  lemma RekeyedLength(from: string, to: string, j: string)
    requires Under(from, j) && Under(from, Rekeyed(from, to, j))
    ensures |Rekeyed(from, to, j)| == |to| + |j| - |from|
    ensures |to| == |from| ==> Rekeyed(from, to, j) == j
  {
    var k := Rekeyed(from, to, j);
    assert to == k[..|to|] && from == k[..|from|];
    assert j == from + j[|from|..];
  }

  /** Some order is always timely: the shortest keys first, or the longest when moving makes keys longer. */
  lemma {:induction false} SomeTimely(from: string, to: string, keys: set<string>) returns (order: seq<string>)
    requires forall k | k in keys :: Under(from, k)
    ensures Ordering(order, keys) && Timely(from, to, order)
    decreases keys
  {
    if keys == {} {
      order := [];
    } else {
      var k := LastInTime(from, to, keys);
      var rest := SomeTimely(from, to, keys - {k});
      order := rest + [k];
      forall j | j in keys && j != k ensures Rekeyed(from, to, j) != k {
        if Under(from, Rekeyed(from, to, j)) {
          RekeyedLength(from, to, j);
        }
      }
    }
  }

  lemma {:induction false} MoveFirst(nodes: Nodes, from: string, to: string, k: string, order: seq<string>)
    ensures MoveAll(nodes, from, to, [k] + order) == MoveAll(MoveOne(nodes, from, to, k), from, to, order)
    decreases |order|
  {
    hide MoveOne;
    var all := [k] + order;
    if order == [] {
      assert all[..0] == [];
      assert MoveAll(nodes, from, to, all[..0]) == nodes;
    } else {
      var n := |order| - 1;
      assert all[..n + 1] == [k] + order[..n];
      MoveFirst(nodes, from, to, k, order[..n]);
    }
  }

  /** The nodes once the key that moves onto the source has gone first. */
  function Forerun(nodes: Nodes, from: string, to: string): Nodes
    requires Under(to, from)
  {
    MoveOne(nodes, from, to, Onto(from, to))
  }

  lemma ForerunAt(nodes: Nodes, from: string, to: string)
    requires Proper(from) && from != to && Under(to, from) && Onto(from, to) in nodes && from in nodes
    ensures var b := Onto(from, to);
            && Forerun(nodes, from, to) == (nodes - {b})[from := nodes[b]]
            && Affected(Forerun(nodes, from, to), from) == Affected(nodes, from) - {b}
  {
    OntoMoves(from, to);
  }

  /** Some order leaves what re-keying leaves after that key has gone first. */
  lemma ForerunOrder(nodes: Nodes, from: string, to: string) returns (order: seq<string>)
    requires Proper(from) && from != to && Under(to, from) && Onto(from, to) in nodes && from in nodes
    ensures Ordering(order, Affected(nodes, from))
    ensures MoveAll(nodes, from, to, order) == Renamed(Forerun(nodes, from, to), from, to)
  {
    var b, first := Onto(from, to), Forerun(nodes, from, to);
    OntoMoves(from, to);
    ForerunAt(nodes, from, to);
    hide Under, Rekeyed, Halfway, Onto, MoveOne, MoveAll, Ordering, Timely;
    var keys := Affected(first, from);
    var rest := SomeTimely(from, to, keys);
    TimelyMoves(first, from, to, rest, keys);
    order := [b] + rest;
    MoveFirst(nodes, from, to, b, rest);
    OrderingFirst(b, rest, Affected(nodes, from));
  }

  lemma OrderingFirst(k: string, rest: seq<string>, keys: set<string>)
    requires k in keys && Ordering(rest, keys - {k})
    ensures Ordering([k] + rest, keys)
  {
    var order := [k] + rest;
    forall x ensures x in order <==> x in keys {
      assert x in order <==> x == k || x in rest;
    }
    assert forall x | x in rest :: x != k;
  }

  /** The parent moves along with its child. */
  lemma ParentMoves(from: string, to: string, c: string)
    requires from != [] && to != [] && Under(from, c) && c != from
    ensures Under(from, ParentOf(c)) && Rekeyed(from, to, c) != ROOT
    ensures ParentOf(Rekeyed(from, to, c)) == Rekeyed(from, to, ParentOf(c))
  {
    var s := c[|from|..];
    assert c == from + s;
    ParentRebased(from, to, s);
    var t := s[..LastSeparator(s)];
    assert (from + t)[|from|..] == t;
  }

  /** With that key gone first, the source's own key is empty in the end, and its node is at the target. */
  lemma ForerunEnds(nodes: Nodes, from: string, to: string)
    requires Proper(from) && from != to && Under(to, from) && !Under(from, to)
    requires Onto(from, to) in nodes && from in nodes
    ensures var r := Renamed(Forerun(nodes, from, to), from, to);
            from !in r && to in r && r[to] == nodes[Onto(from, to)]
  {
    var first := Forerun(nodes, from, to);
    OntoMoves(from, to);
    ForerunAt(nodes, from, to);
    assert Rekeyed(to, from, to) == from;
    hide Renamed, Forerun, Onto;
    RenamedAt(first, from, to, from);
    RenamedAt(first, from, to, to);
  }

  /** Every other key keeps its node, moved or not. */
  lemma ForerunKeeps(nodes: Nodes, from: string, to: string, c: string)
    requires Proper(from) && from != to && Under(to, from) && !Under(from, to)
    requires Onto(from, to) in nodes && from in nodes && c in nodes && c != Onto(from, to)
    ensures (if Under(from, c) then Rekeyed(from, to, c) else c) in Renamed(Forerun(nodes, from, to), from, to)
  {
    var first := Forerun(nodes, from, to);
    ForerunAt(nodes, from, to);
    if Under(from, c) {
      RekeyedBack(from, to, c);
    }
    hide Renamed, Forerun, Onto, Under, Rekeyed;
    RenamedAt(first, from, to, if Under(from, c) then Rekeyed(from, to, c) else c);
  }

  /** What a file at the target must not have below it. */
  lemma ForerunNeedsNoChild(nodes: Nodes, from: string, to: string, c: string)
    requires Proper(from) && to != [] && from != to && Under(to, from) && !Under(from, to)
    requires Onto(from, to) in nodes && from in nodes && c in nodes && c != Onto(from, to)
    requires Closed(Renamed(Forerun(nodes, from, to), from, to))
    ensures ParentOf(c) != Onto(from, to)
    ensures !nodes[Onto(from, to)].isDir ==> to != ROOT && ParentOf(c) != if Under(from, c) then from else to
  {
    var b := Onto(from, to);
    var n := if Under(from, c) then Rekeyed(from, to, c) else c;
    OntoMoves(from, to);
    ForerunEnds(nodes, from, to);
    ForerunKeeps(nodes, from, to, c);
    assert Under(from, from) && Rekeyed(from, to, from) == to;
    hide Renamed, Forerun, Under, Rekeyed, Onto, ParentOf;
    if c == from {
      ParentOutside(from);
    } else if Under(from, c) {
      ParentMoves(from, to, c);
    } else {
      UnderParent(from, c);
    }
  }

  /** What being harmless says of every other key's parent. */
  lemma HarmlessParent(nodes: Nodes, from: string, to: string, c: string)
    requires Proper(from) && Harmless(nodes, from, to) && c in nodes && c != Onto(from, to)
    ensures ParentOf(c) != Onto(from, to)
    ensures !nodes[Onto(from, to)].isDir ==>
              to != ROOT && ParentOf(c) != from && (!Under(from, c) ==> ParentOf(c) != to)
  {
    assert Under(from, from);
    ParentOutside(from);
    if c != from {
      UnderParent(from, c);
    }
    hide ParentOf, Under, Onto, HasChild;
    NotTheParent(nodes, Onto(from, to), c);
  }

  lemma RekeyedSelf(from: string, to: string)
    ensures Under(from, from) && Rekeyed(from, to, from) == to
  {
  }

  lemma HarmlessStaysClosed(nodes: Nodes, from: string, to: string)
    requires Closed(nodes) && Proper(from) && from in nodes && from != to && to != [] && Harmless(nodes, from, to)
    ensures Closed(Forerun(nodes, from, to))
  {
    hide Forerun, Rekeyed, Onto, ParentOf, Under, HasChild;
    var b, first := Onto(from, to), Forerun(nodes, from, to);
    OntoMoves(from, to);
    ForerunAt(nodes, from, to);
    hide Harmless;
    forall c | c in first && c != ROOT ensures IsDir(first, ParentOf(c)) {
      assert IsDir(nodes, ParentOf(c));
      hide Closed;
      HarmlessParent(nodes, from, to, c);
    }
  }

  lemma HarmlessStillFits(nodes: Nodes, from: string, to: string)
    requires Proper(from) && from in nodes && from != to && to != [] && Harmless(nodes, from, to)
    requires Fits(nodes, from, to)
    ensures from in Forerun(nodes, from, to) && Fits(Forerun(nodes, from, to), from, to)
  {
    hide Forerun, Onto, Under, Rekeyed, HasChild, ParentOf;
    var b, first := Onto(from, to), Forerun(nodes, from, to);
    OntoMoves(from, to);
    ForerunAt(nodes, from, to);
    hide Harmless;
    RekeyedSelf(from, to);
    UnderParent(from, to);
    HarmlessParent(nodes, from, to, from);
    forall c | c in first && c != ROOT && !Under(from, c) && Under(to, ParentOf(c))
      ensures var p := Rekeyed(to, from, ParentOf(c)); p in first ==> first[p].isDir
    {
      RekeyedBack(to, from, ParentOf(c));
      HarmlessParent(nodes, from, to, c);
    }
  }

  /** Going first leaves a closed tree exactly when it is harmless. */
  lemma ForerunClosedIff(nodes: Nodes, from: string, to: string)
    requires Closed(nodes) && Proper(from) && from in nodes && from != to && to != [] && Fits(nodes, from, to)
    requires Under(to, from) && Onto(from, to) in nodes
    ensures Closed(Renamed(Forerun(nodes, from, to), from, to)) <==> Harmless(nodes, from, to)
  {
    hide Renamed, Forerun, Closed, Onto, Under, ParentOf;
    if Harmless(nodes, from, to) {
      HarmlessStaysClosed(nodes, from, to);
      HarmlessStillFits(nodes, from, to);
      RenameClosedIff(Forerun(nodes, from, to), from, to);
    }
    if Closed(Renamed(Forerun(nodes, from, to), from, to)) {
      forall c | c in nodes && c != Onto(from, to)
        ensures ParentOf(c) != Onto(from, to)
        ensures !nodes[Onto(from, to)].isDir ==>
                  to != ROOT && ParentOf(c) != if Under(from, c) then from else to
      {
        ForerunNeedsNoChild(nodes, from, to, c);
      }
      OntoMoves(from, to);
      assert from in nodes && from != Onto(from, to);
    }
  }

  /** If the key that moves onto the source is a leaf, no other key moves onto one that moves. */
  lemma OnlyOnto(nodes: Nodes, from: string, to: string, j: string)
    requires Closed(nodes) && Proper(from) && from != to && !Under(from, to) && to != []
    requires Under(to, from) && !HasChild(nodes, Onto(from, to))
    requires j in Affected(nodes, from) && Under(from, Rekeyed(from, to, j))
    ensures j == Onto(from, to) && Rekeyed(from, to, j) == from
  {
    OntoAbove(nodes, from, to, j);
    OntoMoves(from, to);
    OnlyTheLeaf(nodes, Onto(from, to));
  }

  /** In this order the source is not visited before that key. */
  ghost predicate After(b: string, from: string, order: seq<string>) {
    forall i | 0 <= i < |order| && order[i] == from :: b in order[..i]
  }

  lemma TimelyOrAfter(nodes: Nodes, from: string, to: string, order: seq<string>)
    requires Closed(nodes) && Proper(from) && from != to && !Under(from, to) && to != []
    requires Under(to, from) && !HasChild(nodes, Onto(from, to)) && Ordering(order, Affected(nodes, from))
    ensures Timely(from, to, order) || After(Onto(from, to), from, order)
  {
    hide Closed, Under, Rekeyed, Onto, HasChild;
    if !Timely(from, to, order) {
      var i, j :| 0 <= i < j < |order| && Under(from, order[i]) && Rekeyed(from, to, order[i]) == order[j];
      assert order[i] in order && order[j] in order;
      OnlyOnto(nodes, from, to, order[i]);
      assert order[i] in order[..j];
    }
  }

  /** The step of that key itself: what was done until then is as if it had gone first. */
  lemma OntoStep(nodes: Nodes, from: string, to: string, done: set<string>)
    requires Closed(nodes) && Proper(from) && from != to && !Under(from, to) && to != [] && from in nodes
    requires Under(to, from) && Onto(from, to) in nodes && !HasChild(nodes, Onto(from, to))
    requires done <= Affected(nodes, from) - {from, Onto(from, to)}
    ensures done <= Affected(Forerun(nodes, from, to), from)
    ensures MoveOne(Halfway(nodes, from, to, done), from, to, Onto(from, to))
            == Halfway(Forerun(nodes, from, to), from, to, done)
  {
    hide Closed, Under, Rekeyed, Onto, HasChild, Halfway;
    var b, first := Onto(from, to), Forerun(nodes, from, to);
    OntoMoves(from, to);
    ForerunAt(nodes, from, to);
    HalfwayAt(nodes, from, to, done, b);
    RekeyedSelf(from, to);
    var one := MoveOne(Halfway(nodes, from, to, done), from, to, b);
    var two := Halfway(first, from, to, done);
    if Under(to, b) && Rekeyed(to, from, b) in done {
      RekeyedBack(to, from, b);
      OnlyOnto(nodes, from, to, Rekeyed(to, from, b));
      assert false;
    }
    forall k ensures k in one <==> k in two
             ensures k in one ==> one[k] == two[k] {
      HalfwayAt(nodes, from, to, done, k);
      HalfwayAt(first, from, to, done, k);
    }
  }

  /** Visiting that leaf before the source leaves what it leaves when it goes first. */
  lemma {:induction false} AfterMoves(
    nodes: Nodes, from: string, to: string, order: seq<string>, keys: set<string>)
    requires Closed(nodes) && Proper(from) && from != to && !Under(from, to) && to != [] && from in nodes
    requires Under(to, from) && Onto(from, to) in nodes && !HasChild(nodes, Onto(from, to))
    requires keys <= Affected(nodes, from) && Ordering(order, keys) && After(Onto(from, to), from, order)
    ensures var b, first := Onto(from, to), Forerun(nodes, from, to);
            && keys - {b} <= Affected(first, from)
            && MoveAll(nodes, from, to, order)
               == if b in keys then Halfway(first, from, to, keys - {b}) else Halfway(nodes, from, to, keys)
    decreases |order|
  {
    hide Closed, Under, Rekeyed, Onto, HasChild, Halfway, Forerun, MoveOne, Ordering;
    var b, first := Onto(from, to), Forerun(nodes, from, to);
    ForerunAt(nodes, from, to);
    if order == [] {
      OrderingNone(keys);
      HalfwayNone(nodes, from, to);
    } else {
      var n := |order| - 1;
      var k := order[n];
      var rest := keys - {k};
      OrderingPrefix(order, keys);
      assert After(b, from, order[..n]) by {
        assert forall i | 0 <= i < n :: order[..n][..i] == order[..i];
      }
      AfterMoves(nodes, from, to, order[..n], rest);
      if k == b {
        NotYetVisited(b, from, order, keys);
        OntoStep(nodes, from, to, rest);
      } else {
        if Under(to, k) && Rekeyed(to, from, k) in keys {
          RekeyedBack(to, from, k);
          OnlyOnto(nodes, from, to, Rekeyed(to, from, k));
        }
        if b in keys {
          HalfwayStep(first, from, to, rest - {b}, k);
          assert rest - {b} + {k} == keys - {b};
        } else {
          HalfwayStep(nodes, from, to, rest, k);
          assert rest + {k} == keys;
        }
      }
    }
  }

  lemma NotYetVisited(b: string, from: string, order: seq<string>, keys: set<string>)
    requires Ordering(order, keys) && After(b, from, order) && order != [] && order[|order| - 1] == b && b != from
    ensures from !in keys
  {
    forall i | 0 <= i < |order| ensures order[i] != from {
      assert b !in order[..i];
    }
  }

  /** A rename that fits and is untangled or harmless keeps the tree closed, whatever the order. */
  lemma StaysClosed(nodes: Nodes, from: string, to: string, order: seq<string>)
    requires Closed(nodes) && from in nodes && from != [] && to != [] && Ordering(order, Affected(nodes, from))
    requires Fits(nodes, from, to) && (Untangled(nodes, from, to) || Harmless(nodes, from, to))
    ensures Closed(MoveAll(nodes, from, to, order))
  {
    var keys := Affected(nodes, from);
    if Untangled(nodes, from, to) {
      OrderIrrelevant(nodes, from, to, order, keys);
      RenameClosedIff(nodes, from, to);
    } else {
      assert from != to by {
        SelfUntangled(nodes, from);
      }
      hide Untangled, Closed, Under, Rekeyed, Onto, HasChild, Halfway, MoveAll, Forerun, Ordering, Timely, After;
      TimelyOrAfter(nodes, from, to, order);
      if Timely(from, to, order) {
        TimelyMoves(nodes, from, to, order, keys);
        RenameClosedIff(nodes, from, to);
      } else {
        OntoMoves(from, to);
        ForerunAt(nodes, from, to);
        AfterMoves(nodes, from, to, order, keys);
        ForerunClosedIff(nodes, from, to);
      }
    }
  }

  lemma SelfUntangled(nodes: Nodes, from: string)
    ensures Untangled(nodes, from, from)
  {
    forall j | j in Affected(nodes, from) ensures Rekeyed(from, from, j) == j {
    }
  }

  /**
   * The loop keeps the tree closed in every order exactly when the source fits where it goes, and no key moves onto
   * another one that moves, or the only one that does is harmless.
   */
  lemma LoopClosedIff(nodes: Nodes, from: string, to: string)
    requires Closed(nodes) && from in nodes && from != [] && to != []
    ensures ClosedInEveryOrder(nodes, from, to)
            <==> Fits(nodes, from, to) && (Untangled(nodes, from, to) || Harmless(nodes, from, to))
  {
    hide Fits, Closed, Under, Rekeyed, Halfway, MoveAll, Harmless;
    var keys := Affected(nodes, from);
    if Fits(nodes, from, to) && (Untangled(nodes, from, to) || Harmless(nodes, from, to)) {
      forall order | Ordering(order, keys) ensures Closed(MoveAll(nodes, from, to, order)) {
        StaysClosed(nodes, from, to, order);
      }
    }
    if ClosedInEveryOrder(nodes, from, to) {
      var timely := SomeTimely(from, to, keys);
      TimelyMoves(nodes, from, to, timely, keys);
      RenameClosedIff(nodes, from, to);
      if !Untangled(nodes, from, to) {
        MustBeHarmless(nodes, from, to);
      }
    }
  }

  lemma MustBeHarmless(nodes: Nodes, from: string, to: string)
    requires Closed(nodes) && from in nodes && from != [] && to != []
    requires ClosedInEveryOrder(nodes, from, to) && Fits(nodes, from, to) && !Untangled(nodes, from, to)
    ensures Harmless(nodes, from, to)
  {
    assert from != to by {
      SelfUntangled(nodes, from);
    }
    hide Closed, Under, Rekeyed, Onto, HasChild, Halfway, Harmless, MoveAll, Forerun;
    var j, k :| j in Affected(nodes, from) && k in Affected(nodes, from) && Rekeyed(from, to, j) == k && j != k;
    OntoAbove(nodes, from, to, j);
    var order := ForerunOrder(nodes, from, to);
    ForerunClosedIff(nodes, from, to);
  }

  /** A source that fits its target is not enough: when a subtree goes up onto its parent, the order can cut it. */
  lemma FittingIsNotEnough()
    ensures exists nodes, from, to ::
              && Closed(nodes) && from in nodes && from != [] && to != []
              && Fits(nodes, from, to) && !ClosedInEveryOrder(nodes, from, to)
  {
    hide ParentOf, Under, Rekeyed, ClosedInEveryOrder;
    var a, ab, abb, abbc := NestedPaths();
    var dir := Node(true, [], 1);
    var nodes: Nodes := map[ROOT := dir, a := dir, ab := dir, abb := dir, abbc := dir];
    assert HasChild(nodes, abb) by {
      assert abbc in nodes && abbc != abb;
    }
    assert !Untangled(nodes, ab, a) by {
      assert abb in Affected(nodes, ab) && ab in Affected(nodes, ab);
    }
    assert !Harmless(nodes, ab, a);
    hide Untangled, Harmless;
    LoopClosedIff(nodes, ab, a);
  }

  // ---- index numbers ----

  /** No two nodes share an index number, and none has a number yet to be handed out. */
  ghost predicate Numbered(nodes: Nodes, next: nat) {
    && (forall k | k in nodes :: nodes[k].indexNumber < next)
    && forall j, k | j in nodes && k in nodes && nodes[j].indexNumber == nodes[k].indexNumber :: j == k
  }

  /** Moving nodes, even over one another, never makes two of one number. */
  lemma {:induction false} MoveAllNumbered(nodes: Nodes, from: string, to: string, order: seq<string>, next: nat)
    requires Numbered(nodes, next)
    ensures Numbered(MoveAll(nodes, from, to, order), next)
    decreases |order|
  {
    if order != [] {
      MoveAllNumbered(nodes, from, to, order[..|order| - 1], next);
    }
  }

  lemma NotTheParent(nodes: Nodes, key: string, k: string)
    requires !HasChild(nodes, key) && k in nodes && k != key
    ensures ParentOf(k) != key
  {
    hide ParentOf;
  }

  /** Deleting a leaf keeps the tree closed exactly when it is not the root. */
  lemma RemovedLeaf(nodes: Nodes, key: string)
    requires Closed(nodes) && !HasChild(nodes, key)
    ensures Closed(nodes - {key}) <==> key != ROOT
  {
    hide ParentOf, HasChild;
    var less := nodes - {key};
    if key != ROOT {
      forall k | k in less && k != ROOT ensures IsDir(less, ParentOf(k)) {
        NotTheParent(nodes, key, k);
      }
    }
  }

  lemma RemovedNumbered(nodes: Nodes, next: nat, key: string)
    requires Numbered(nodes, next)
    ensures Numbered(nodes - {key}, next)
  {
  }

  // ---- the volume ----

  /** What one run of the loop, in its own order, leaves of a closed tree. */
  lemma AfterTheLoop(nodes: Nodes, from: string, to: string, order: seq<string>)
    requires from != [] && to != [] && Ordering(order, Affected(nodes, from))
    ensures var r := MoveAll(nodes, from, to, order);
            Closed(nodes) ==>
              && (from !in nodes ==> r == nodes)
              && (from in nodes ==>
                    && (Fits(nodes, from, to) && (Untangled(nodes, from, to) || Harmless(nodes, from, to)) ==>
                          Closed(r))
                    && (Untangled(nodes, from, to) ==> (Closed(r) <==> Fits(nodes, from, to))))
  {
    hide Fits, Untangled, Harmless, Halfway, Under, Closed, Ordering;
    if Closed(nodes) {
      if from !in nodes {
        NothingAffected(nodes, from);
        NothingMoves(nodes, from, to, order);
      } else {
        if Fits(nodes, from, to) && (Untangled(nodes, from, to) || Harmless(nodes, from, to)) {
          StaysClosed(nodes, from, to, order);
        }
        if Untangled(nodes, from, to) {
          OrderIrrelevant(nodes, from, to, order, Affected(nodes, from));
          RenameClosedIff(nodes, from, to);
        }
      }
    }
  }

  lemma NothingAffected(nodes: Nodes, from: string)
    requires Closed(nodes) && from !in nodes && from != []
    ensures Affected(nodes, from) == {}
  {
    forall k | k in nodes ensures !Under(from, k) {
      if Under(from, k) {
        ChildBelow(nodes, from, k);
      }
    }
  }

  lemma {:induction false} NothingMoves(nodes: Nodes, from: string, to: string, order: seq<string>)
    requires Affected(nodes, from) == {}
    ensures MoveAll(nodes, from, to, order) == nodes
    decreases |order|
  {
    if order != [] {
      var k := order[|order| - 1];
      NothingMoves(nodes, from, to, order[..|order| - 1]);
      assert k !in Affected(nodes, from);
    }
  }

  datatype Status = Success | NameCollision | NameNotFound

  /** The key of a host path: the empty path is the root. */
  function KeyOf(path: string): string {
    if path == [] then ROOT else path
  }

  class WinVolume {
    var nodes: Nodes
    var nextIndex: nat

    constructor ()
      ensures Closed(nodes) && nodes.Keys == {ROOT} && Numbered(nodes, nextIndex)
    {
      nodes, nextIndex := map[ROOT := Node(true, [], 1)], 2;
    }

    method Create(path: string, isDir: bool) returns (s: Status)
      modifies this
      ensures var key := if path == "" then "\\" else path;
              && (s == NameCollision <==> key in old(nodes))
              && (s == NameNotFound <==> key !in old(nodes) && !IsDir(old(nodes), ParentOf(key)))
              && (s == Success ==> nodes == old(nodes)[key := Node(isDir, [], old(nextIndex))])
              && (s != Success ==> nodes == old(nodes))
      ensures nextIndex == old(nextIndex) + if s == Success then 1 else 0
      ensures old(Closed(nodes)) ==> Closed(nodes)
      ensures old(Numbered(nodes, nextIndex)) ==> Numbered(nodes, nextIndex)
    {
      var key := KeyOf(path);
      if key in nodes {
        return NameCollision;
      }
      var parent := ParentOf(key);
      if parent !in nodes || !nodes[parent].isDir {
        return NameNotFound;
      }
      nodes := nodes[key := Node(isDir, [], nextIndex)];
      nextIndex := nextIndex + 1;
      return Success;
    }

    /** Closing a handle marked for deletion; a directory with children stays. */
    method Cleanup(key: string, delete: bool)
      modifies `nodes
      ensures nodes == if delete && !HasChild(old(nodes), key) then old(nodes) - {key} else old(nodes)
      ensures old(Numbered(nodes, nextIndex)) ==> Numbered(nodes, nextIndex)
      ensures old(Closed(nodes)) ==> (Closed(nodes) <==> !delete || key != ROOT || HasChild(old(nodes), ROOT))
    {
      hide ParentOf, Closed, Numbered;
      if delete {
        var hasChild := exists k | k in nodes :: k != key && ParentOf(k) == key;
        assert hasChild == HasChild(nodes, key);
        hide HasChild;
        if !hasChild {
          if Closed(nodes) {
            RemovedLeaf(nodes, key);
          }
          if Numbered(nodes, nextIndex) {
            RemovedNumbered(nodes, nextIndex, key);
          }
          nodes := nodes - {key};
        }
      }
    }

    /** Re-keys the source and everything below it, one key at a time in no particular order. */
    method Rename(source: string, target: string, replace: bool) returns (s: Status)
      modifies `nodes
      ensures s == NameCollision <==> !replace && (if target == "" then "\\" else target) in old(nodes)
      ensures s != NameCollision ==> s == Success
      ensures s != Success ==> nodes == old(nodes)
      ensures s == Success ==> exists order ::
                && Ordering(order, Affected(old(nodes), KeyOf(source)))
                && nodes == MoveAll(old(nodes), KeyOf(source), KeyOf(target), order)
      ensures s == Success && Untangled(old(nodes), KeyOf(source), KeyOf(target)) ==>
                nodes == Renamed(old(nodes), KeyOf(source), KeyOf(target))
      ensures old(Closed(nodes)) && KeyOf(source) !in old(nodes) ==> nodes == old(nodes)
      ensures s == Success && old(Closed(nodes)) && KeyOf(source) in old(nodes) ==>
                var before, from, to := old(nodes), KeyOf(source), KeyOf(target);
                && (Fits(before, from, to) && (Untangled(before, from, to) || Harmless(before, from, to)) ==>
                      Closed(nodes))
                && (Untangled(before, from, to) ==> (Closed(nodes) <==> Fits(before, from, to)))
      ensures old(Numbered(nodes, nextIndex)) ==> Numbered(nodes, nextIndex)
    {
      hide Halfway;
      var from, to := KeyOf(source), KeyOf(target);
      if to in nodes && !replace {
        return NameCollision;
      }
      var todo := Affected(nodes, from);
      ghost var order: seq<string> := [];
      while todo != {}
        invariant todo <= Affected(old(nodes), from)
        invariant forall k | k in todo :: k in nodes
        invariant Ordering(order, Affected(old(nodes), from) - todo)
        invariant nodes == MoveAll(old(nodes), from, to, order)
      {
        var k :| k in todo;
        assert (order + [k])[..|order|] == order;
        order := order + [k];
        todo := todo - {k};
        var node := nodes[k];
        nodes := (nodes - {k})[Rekeyed(from, to, k) := node];
      }
      if old(Numbered(nodes, nextIndex)) {
        MoveAllNumbered(old(nodes), from, to, order, nextIndex);
      }
      if Untangled(old(nodes), from, to) {
        OrderIrrelevant(old(nodes), from, to, order, Affected(old(nodes), from));
      }
      AfterTheLoop(old(nodes), from, to, order);
      return Success;
    }
  }
}
