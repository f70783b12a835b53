/** Scored results, and the order in which a stable descending sort leaves them. */
module Ranking {
  import opened Bytes

  /** UTF-8 text. */
  type Text = ByteSeq

  datatype ScoredPath = ScoredPath(path: Text, score: real)

  ghost predicate Descending(s: seq<ScoredPath>) {
    forall i, j | 0 <= i < j < |s| :: s[i].score >= s[j].score
  }

  /** `x` ahead of the first result it is not below. */
  function Placed(x: ScoredPath, s: seq<ScoredPath>): seq<ScoredPath> {
    if s == [] || x.score >= s[0].score then [x] + s else [s[0]] + Placed(x, s[1..])
  }

  function Ranked(s: seq<ScoredPath>): seq<ScoredPath> {
    if s == [] then [] else Placed(s[0], Ranked(s[1..]))
  }

  /** The results of one score, in order. */
  function Tied(s: seq<ScoredPath>, score: real): seq<ScoredPath> {
    if s == [] then [] else (if s[0].score == score then [s[0]] else []) + Tied(s[1..], score)
  }

  lemma {:induction false} PlacedIsPermutation(x: ScoredPath, s: seq<ScoredPath>)
    ensures multiset(Placed(x, s)) == multiset([x] + s)
    decreases |s|
  {
    if s != [] && x.score < s[0].score {
      PlacedIsPermutation(x, s[1..]);
      assert s == [s[0]] + s[1..];
    }
  }

  lemma {:induction false} PlacedMembers(x: ScoredPath, s: seq<ScoredPath>)
    ensures |Placed(x, s)| == |s| + 1
    ensures forall t :: t in Placed(x, s) <==> t == x || t in s
    decreases |s|
  {
    if s != [] && x.score < s[0].score {
      PlacedMembers(x, s[1..]);
    }
  }

  lemma {:induction false} PlacedDescending(x: ScoredPath, s: seq<ScoredPath>)
    requires Descending(s)
    ensures Descending(Placed(x, s))
    decreases |s|
  {
    if s != [] && x.score < s[0].score {
      PlacedDescending(x, s[1..]);
      PlacedMembers(x, s[1..]);
      var rest := Placed(x, s[1..]);
      assert forall t | t in rest :: s[0].score >= t.score;
    }
  }

  lemma TiedCons(x: ScoredPath, s: seq<ScoredPath>, score: real)
    ensures Tied([x] + s, score) == (if x.score == score then [x] else []) + Tied(s, score)
  {
    assert ([x] + s)[1..] == s;
  }

  lemma {:induction false} PlacedTied(x: ScoredPath, s: seq<ScoredPath>, score: real)
    ensures Tied(Placed(x, s), score) == (if x.score == score then [x] else []) + Tied(s, score)
    decreases |s|
  {
    if s == [] || x.score >= s[0].score {
      TiedCons(x, s, score);
    } else {
      var rest := s[1..];
      PlacedTied(x, rest, score);
      TiedCons(s[0], Placed(x, rest), score);
      TiedCons(s[0], rest, score);
      assert s == [s[0]] + rest;
      hide Tied;
    }
  }

  /** A stable sort: a permutation, by descending score, that keeps the order of equal scores. */
  lemma {:induction false} RankedIsSorted(s: seq<ScoredPath>)
    ensures multiset(Ranked(s)) == multiset(s) && Descending(Ranked(s))
    decreases |s|
  {
    if s != [] {
      RankedIsSorted(s[1..]);
      PlacedIsPermutation(s[0], Ranked(s[1..]));
      PlacedDescending(s[0], Ranked(s[1..]));
      assert multiset([s[0]] + Ranked(s[1..])) == multiset([s[0]]) + multiset(s[1..]);
      assert s == [s[0]] + s[1..];
    }
  }

  lemma {:induction false} RankedMembers(s: seq<ScoredPath>)
    ensures |Ranked(s)| == |s| && forall x :: x in Ranked(s) <==> x in s
    decreases |s|
  {
    if s != [] {
      RankedMembers(s[1..]);
      PlacedMembers(s[0], Ranked(s[1..]));
    }
  }

  lemma {:induction false} RankedIsStable(s: seq<ScoredPath>, score: real)
    ensures Tied(Ranked(s), score) == Tied(s, score)
    decreases |s|
  {
    if s != [] {
      RankedIsStable(s[1..], score);
      PlacedTied(s[0], Ranked(s[1..]), score);
    }
  }

  ghost predicate SameTies(a: seq<ScoredPath>, b: seq<ScoredPath>) {
    forall score :: Tied(a, score) == Tied(b, score)
  }

  /** Nothing else is one: the descending order with its ties in place is unique. */
  lemma {:induction false} StableSortIsUnique(a: seq<ScoredPath>, b: seq<ScoredPath>)
    requires Descending(a) && Descending(b) && SameTies(a, b)
    ensures a == b
    decreases |a|
  {
    if a == [] {
      Untied(b);
    } else {
      SameHeads(a, b);
      forall score ensures Tied(a[1..], score) == Tied(b[1..], score) {
        assert Tied(a, score) == Tied(b, score);
        TiedTail(a, score);
        TiedTail(b, score);
      }
      StableSortIsUnique(a[1..], b[1..]);
    }
  }

  lemma Untied(s: seq<ScoredPath>)
    requires SameTies([], s)
    ensures s == []
  {
    assert s != [] ==> Tied([], s[0].score) == Tied(s, s[0].score);
  }

  lemma TiedTail(s: seq<ScoredPath>, score: real)
    requires s != []
    ensures Tied(s[1..], score) == if s[0].score == score then Tied(s, score)[1..] else Tied(s, score)
  {
  }

  lemma SameHeads(a: seq<ScoredPath>, b: seq<ScoredPath>)
    requires Descending(a) && Descending(b) && SameTies(a, b) && a != []
    ensures b != [] && a[0] == b[0]
  {
    assert Tied(a, a[0].score) == Tied(b, a[0].score);
    TiedHead(b, a[0].score);
    assert Tied(a, b[0].score) == Tied(b, b[0].score);
    TiedHead(a, b[0].score);
    assert Tied(a, a[0].score)[0] == a[0];
  }

  /** A score with ties in a descending list is at most its first score. */
  lemma {:induction false} TiedHead(s: seq<ScoredPath>, score: real)
    requires Descending(s) && Tied(s, score) != []
    ensures s != [] && score <= s[0].score
    decreases |s|
  {
    if s[0].score != score {
      TiedHead(s[1..], score);
    }
  }

  function Truncated(s: seq<ScoredPath>, k: nat): seq<ScoredPath> {
    if |s| <= k then s else s[..k]
  }

  /** Truncating a descending list keeps the best of it. */
  lemma TruncatedIsBest(s: seq<ScoredPath>, k: nat)
    requires Descending(s)
    ensures Descending(Truncated(s, k)) && |Truncated(s, k)| == if |s| <= k then |s| else k
    ensures multiset(Truncated(s, k)) <= multiset(s)
    ensures forall x | x in s :: x in Truncated(s, k) || forall t | t in Truncated(s, k) :: x.score <= t.score
  {
    if |s| > k {
      assert s == s[..k] + s[k..];
    }
  }
}
