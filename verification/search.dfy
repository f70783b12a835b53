/** The lookup: exact name first, then the predicted directories and their ancestors, then everything. */
module Searches {
  import opened Prelude
  import opened Ranking
  import opened Stores

  const MAX_BACKTRACK_LEVELS: nat := 4

  /** The text functions and the scorer the lookup relies on, all left abstract. */
  datatype Finder = Finder(
    trim: Name -> Name,
    tokenize: Name -> seq<Text>,
    parentOf: Name -> Option<Name>,
    score: (FileEntry, real) -> real)

  datatype Hit = Hit(entry: FileEntry, confidence: real)

  predicate Contains(s: Text, q: Text) {
    exists i | 0 <= i <= |s| :: q <= s[i..]
  }

  /** The file's name contains the query, or shares a word with it. */
  predicate Fuzzy(w: World, f: Finder, query: Name, e: FileEntry) {
    var q, name := w.low(query), w.low(e.fileName);
    Contains(name, q) || exists t | t in f.tokenize(q) :: t in f.tokenize(name)
  }

  /** Containment is occurrence anywhere, at either end included. */
  lemma ContainsIff(s: Text, q: Text)
    ensures Contains(s, q) <==> exists a, b :: s == a + q + b
  {
    if Contains(s, q) {
      var i :| 0 <= i <= |s| && q <= s[i..];
      assert s == s[..i] + q + s[i + |q|..];
    }
    if a, b :| s == a + q + b {
      assert s[|a|..] == q + b;
    }
  }

  /** The lowercased name holds the lowercased query somewhere, or the two have a word in common. */
  ghost predicate Matching(w: World, f: Finder, query: Name, e: FileEntry) {
    || (exists a, b :: w.low(e.fileName) == a + w.low(query) + b)
    || exists t :: t in f.tokenize(w.low(query)) && t in f.tokenize(w.low(e.fileName))
  }

  lemma FuzzyIsMatching(w: World, f: Finder, query: Name, e: FileEntry)
    ensures Fuzzy(w, f, query, e) <==> Matching(w, f, query, e)
  {
    hide Contains;
    ContainsIff(w.low(e.fileName), w.low(query));
  }

  predicate Named(w: World, f: Finder, query: Name, e: FileEntry) {
    f.trim(query) != [] && w.low(e.fileName) == w.low(f.trim(query))
  }

  function FuzzyMatch(w: World, f: Finder, query: Name, candidates: seq<FileEntry>): seq<FileEntry> {
    if candidates == [] then []
    else
      (if Fuzzy(w, f, query, candidates[0]) then [candidates[0]] else [])
      + FuzzyMatch(w, f, query, candidates[1..])
  }

  lemma {:induction false} FuzzyMatchMembers(w: World, f: Finder, query: Name, candidates: seq<FileEntry>)
    ensures forall e :: e in FuzzyMatch(w, f, query, candidates) <==> e in candidates && Fuzzy(w, f, query, e)
    decreases |candidates|
  {
    hide Fuzzy;
    if candidates != [] {
      FuzzyMatchMembers(w, f, query, candidates[1..]);
    }
  }

  lemma {:induction false} FuzzyMatchDistinct(w: World, f: Finder, query: Name, candidates: seq<FileEntry>)
    requires DistinctPaths(candidates)
    ensures DistinctPaths(FuzzyMatch(w, f, query, candidates))
    decreases |candidates|
  {
    hide Fuzzy;
    if candidates != [] {
      var rest := FuzzyMatch(w, f, query, candidates[1..]);
      FuzzyMatchMembers(w, f, query, candidates[1..]);
      FuzzyMatchDistinct(w, f, query, candidates[1..]);
      forall e | e in rest ensures e.path != candidates[0].path {
        assert e in candidates[1..];
      }
    }
  }

  ghost predicate InIndex(w: World, index: Index, e: FileEntry) {
    w.hash(e.path) in index && index[w.hash(e.path)] == e
  }

  // ---- hits ----

  ghost predicate DistinctHits(hits: seq<Hit>) {
    forall i, j | 0 <= i < j < |hits| :: hits[i].entry.path != hits[j].entry.path
  }

  function WithConfidence(matches: seq<FileEntry>, confidence: real): (hits: seq<Hit>)
    ensures |hits| == |matches|
  {
    seq(|matches|, i requires 0 <= i < |matches| => Hit(matches[i], confidence))
  }

  lemma WithConfidenceMembers(matches: seq<FileEntry>, confidence: real)
    ensures forall h :: h in WithConfidence(matches, confidence) <==> h.entry in matches && h.confidence == confidence
    ensures DistinctPaths(matches) ==> DistinctHits(WithConfidence(matches, confidence))
  {
    var hits := WithConfidence(matches, confidence);
    forall h: Hit | h.entry in matches && h.confidence == confidence ensures h in hits {
      var i :| 0 <= i < |matches| && matches[i] == h.entry;
      assert hits[i] == h;
    }
  }

  lemma DistinctAppend(a: seq<Hit>, b: seq<Hit>)
    requires DistinctHits(a) && DistinctHits(b)
    requires forall x, y | x in a && y in b :: x.entry.path != y.entry.path
    ensures DistinctHits(a + b)
  {
  }

  // ---- which directories win ----

  /** The directories searched so far, and those that held a match, with the confidence that led there. */
  datatype Trail = Trail(visited: set<Name>, winners: map<Name, real>)

  ghost predicate HasMatch(w: World, index: Index, f: Finder, query: Name, dir: Name) {
    exists k :: k in index && w.low(index[k].parent) == dir && Fuzzy(w, f, query, index[k])
  }

  /** From a directory upwards, to the first one that holds a match or was searched before. */
  ghost function Climb(w: World, index: Index, f: Finder, query: Name, dir: Name, confidence: real, tries: nat,
                       t: Trail): Trail
    decreases tries
  {
    var key := w.low(dir);
    if tries == 0 || key in t.visited then t
    else
      var t' := t.(visited := t.visited + {key});
      if HasMatch(w, index, f, query, key) then t'.(winners := t.winners[key := confidence])
      else match f.parentOf(dir)
        case None => t'
        case Some(up) => Climb(w, index, f, query, up, confidence, tries - 1, t')
  }

  ghost predicate Plain(predicted: seq<ScoredPath>) {
    forall i | 0 <= i < |predicted| :: NulFree(predicted[i].path)
  }

  ghost function ClimbAll(w: World, index: Index, f: Finder, query: Name, predicted: seq<ScoredPath>): Trail
    requires Plain(predicted)
  {
    if predicted == [] then Trail({}, map[])
    else
      var last := predicted[|predicted| - 1];
      var earlier := ClimbAll(w, index, f, query, predicted[..|predicted| - 1]);
      Climb(w, index, f, query, last.path, last.score, MAX_BACKTRACK_LEVELS, earlier)
  }

  ghost predicate Won(w: World, index: Index, f: Finder, query: Name, winners: map<Name, real>, h: Hit) {
    && InIndex(w, index, h.entry) && Fuzzy(w, f, query, h.entry)
    && w.low(h.entry.parent) in winners && h.confidence == winners[w.low(h.entry.parent)]
  }

  /** The hits are exactly the matches in the winning directories, each once. */
  ghost predicate Exact(w: World, index: Index, f: Finder, query: Name, t: Trail, hits: seq<Hit>) {
    && t.winners.Keys <= t.visited && DistinctHits(hits)
    && (forall dir | dir in t.winners :: HasMatch(w, index, f, query, dir))
    && forall h :: h in hits <==> Won(w, index, f, query, t.winners, h)
  }

  lemma DirectoryMatches(w: World, index: Index, f: Finder, query: Name, dir: Name, found: seq<FileEntry>)
    requires Filed(w, index) && Lists(w, index, Parents(w, index), dir, found)
    ensures var matches := FuzzyMatch(w, f, query, found);
            && DistinctPaths(matches)
            && (forall e :: e in matches <==>
                  InIndex(w, index, e) && w.low(e.parent) == dir && Fuzzy(w, f, query, e))
            && (matches == [] <==> !HasMatch(w, index, f, query, dir))
  {
    hide Fuzzy;
    var matches := FuzzyMatch(w, f, query, found);
    FuzzyMatchMembers(w, f, query, found);
    FuzzyMatchDistinct(w, f, query, found);
    if matches != [] {
      assert matches[0] in matches;
      var k := w.hash(matches[0].path);
      assert k in index && w.low(index[k].parent) == dir && Fuzzy(w, f, query, index[k]);
    }
  }

  /** The matches of a directory not searched before are new hits: no path is found twice. */
  lemma NewHits(w: World, index: Index, f: Finder, query: Name, t: Trail,
                hits: seq<Hit>, dir: Name, found: seq<FileEntry>, confidence: real)
    requires Filed(w, index) && Exact(w, index, f, query, t, hits) && dir !in t.visited
    requires Lists(w, index, Parents(w, index), dir, found)
    ensures var matches := FuzzyMatch(w, f, query, found);
            var winners' := if matches == [] then t.winners else t.winners[dir := confidence];
            && (matches == [] <==> !HasMatch(w, index, f, query, dir))
            && Exact(w, index, f, query, Trail(t.visited + {dir}, winners'), hits + WithConfidence(matches, confidence))
  {
    hide Fuzzy, FuzzyMatch, WithConfidence, HasMatch, Filed, Lists;
    var matches := FuzzyMatch(w, f, query, found);
    var more := WithConfidence(matches, confidence);
    var winners' := if matches == [] then t.winners else t.winners[dir := confidence];
    DirectoryMatches(w, index, f, query, dir, found);
    WithConfidenceMembers(matches, confidence);
    forall x, y | x in hits && y in more ensures x.entry.path != y.entry.path {
      assert Won(w, index, f, query, t.winners, x) && InIndex(w, index, y.entry);
    }
    DistinctAppend(hits, more);
    forall h: Hit ensures h in hits + more <==> Won(w, index, f, query, winners', h) {
      assert h in hits + more <==> h in hits || h in more;
    }
  }

  // ---- ranking ----

  function Scored(f: Finder, h: Hit): ScoredPath {
    ScoredPath(h.entry.path, f.score(h.entry, h.confidence))
  }

  function Results(f: Finder, hits: seq<Hit>): (s: seq<ScoredPath>)
    ensures |s| == |hits|
  {
    seq(|hits|, i requires 0 <= i < |hits| => Scored(f, hits[i]))
  }

  /** Adjacent results of one path, reduced to the first. */
  function Deduped(s: seq<ScoredPath>): seq<ScoredPath>
    decreases |s|
  {
    if |s| <= 1 then s
    else if s[0].path == s[1].path then Deduped([s[0]] + s[2..])
    else [s[0]] + Deduped(s[1..])
  }

  ghost predicate Distinct(s: seq<ScoredPath>) {
    forall i, j | 0 <= i < j < |s| :: s[i].path != s[j].path
  }

  lemma {:induction false} DedupedDistinct(s: seq<ScoredPath>)
    requires Distinct(s)
    ensures Deduped(s) == s
    decreases |s|
  {
    if |s| > 1 {
      DedupedDistinct(s[1..]);
    }
  }

  lemma {:induction false} PlacedDistinct(x: ScoredPath, s: seq<ScoredPath>)
    requires Distinct(s) && forall t | t in s :: t.path != x.path
    ensures Distinct(Placed(x, s))
    decreases |s|
  {
    if s != [] && x.score < s[0].score {
      PlacedDistinct(x, s[1..]);
      PlacedMembers(x, s[1..]);
      assert forall t | t in Placed(x, s[1..]) :: t.path != s[0].path;
    }
  }

  lemma {:induction false} RankedDistinct(s: seq<ScoredPath>)
    requires Distinct(s)
    ensures Distinct(Ranked(s))
    decreases |s|
  {
    if s != [] {
      RankedDistinct(s[1..]);
      RankedMembers(s[1..]);
      PlacedDistinct(s[0], Ranked(s[1..]));
    }
  }

  /** What a list of hits with distinct paths is answered with: the best of it, and each path once. */
  ghost predicate Answers(f: Finder, hits: seq<Hit>, max: nat, r: seq<ScoredPath>) {
    && Descending(r) && Distinct(r) && |r| == (if |hits| <= max then |hits| else max)
    && (forall x | x in r :: exists h | h in hits :: x == Scored(f, h))
    && (forall h | h in hits :: Scored(f, h) in r || forall x | x in r :: Scored(f, h).score <= x.score)
  }

  lemma ResultsMembers(f: Finder, hits: seq<Hit>)
    ensures forall x | x in Results(f, hits) :: exists h | h in hits :: x == Scored(f, h)
    ensures forall h | h in hits :: Scored(f, h) in Results(f, hits)
  {
    var s := Results(f, hits);
    forall x | x in s ensures exists h | h in hits :: x == Scored(f, h) {
      var i :| 0 <= i < |s| && s[i] == x;
      assert hits[i] in hits;
    }
    forall h | h in hits ensures Scored(f, h) in s {
      var i :| 0 <= i < |hits| && hits[i] == h;
      assert s[i] == Scored(f, h);
    }
  }

  lemma TruncatedAnswers(f: Finder, hits: seq<Hit>, s: seq<ScoredPath>, max: nat)
    requires Descending(s) && Distinct(s) && |s| == |hits|
    requires forall x | x in s :: exists h | h in hits :: x == Scored(f, h)
    requires forall h | h in hits :: Scored(f, h) in s
    ensures Answers(f, hits, max, Truncated(s, max))
  {
    hide Scored, Descending;
    TruncatedIsBest(s, max);
    var r := Truncated(s, max);
    assert Distinct(r);
    assert forall x | x in r :: x in s;
  }

  /** With distinct hits, sorting and truncating answers them, and the de-duplication changes nothing. */
  lemma RankingAnswers(f: Finder, hits: seq<Hit>, max: nat)
    requires DistinctHits(hits)
    ensures Deduped(Ranked(Results(f, hits))) == Ranked(Results(f, hits))
    ensures Answers(f, hits, max, Truncated(Ranked(Results(f, hits)), max))
  {
    var s := Results(f, hits);
    assert Distinct(s);
    hide Results, Scored, Ranked, Deduped, Descending, Distinct, Truncated, DistinctHits, Answers;
    RankedDistinct(s);
    RankedMembers(s);
    RankedIsSorted(s);
    DedupedDistinct(Ranked(s));
    ResultsMembers(f, hits);
    TruncatedAnswers(f, hits, Ranked(s), max);
  }

  // ---- the lookup ----

  /** One predicted directory, then its ancestors until one holds a match or was searched before. */
  method Backtrack(store: Store, f: Finder, query: Name, dir: Name, confidence: real,
                   visited: set<Name>, hits: seq<Hit>, ghost winners: map<Name, real>)
    returns (visited': set<Name>, hits': seq<Hit>)
    requires Consistent(store.w, store.Contents())
    requires Exact(store.w, store.index, f, query, Trail(visited, winners), hits)
    ensures var t := Climb(
              store.w, store.index, f, query, dir, confidence, MAX_BACKTRACK_LEVELS, Trail(visited, winners));
            visited' == t.visited && Exact(store.w, store.index, f, query, t, hits')
  {
    hide Exact, LinksAgree, Fuzzy, HasMatch, Lists, FuzzyMatch;
    visited', hits' := visited, hits;
    ghost var winners' := winners;
    var current, tries := dir, MAX_BACKTRACK_LEVELS;
    while tries > 0
      invariant Exact(store.w, store.index, f, query, Trail(visited', winners'), hits')
      invariant Climb(store.w, store.index, f, query, dir, confidence, MAX_BACKTRACK_LEVELS, Trail(visited, winners))
                == Climb(store.w, store.index, f, query, current, confidence, tries, Trail(visited', winners'))
    {
      var key := store.w.low(current);
      if key in visited' {
        return;
      }
      var candidates := store.FilesIn(current);
      var matches := FuzzyMatch(store.w, f, query, candidates);
      NewHits(store.w, store.index, f, query, Trail(visited', winners'), hits', key, candidates, confidence);
      visited' := visited' + {key};
      hits' := hits' + WithConfidence(matches, confidence);
      if matches != [] {
        winners' := winners'[key := confidence];
        return;
      }
      var up := f.parentOf(current);
      if up.None? {
        return;
      }
      current, tries := up.value, tries - 1;
    }
  }

  /** The hits in the predicted directories, or in the whole index when there are none. */
  method Collect(store: Store, f: Finder, predicted: seq<ScoredPath>, query: Name) returns (hits: seq<Hit>)
    requires Consistent(store.w, store.Contents()) && Plain(predicted)
    ensures DistinctHits(hits)
    ensures forall h :: h in hits <==> Wanted(store.w, store.index, f, query, predicted, h)
  {
    hide Fuzzy, LinksAgree, Exact, Climb;
    hits := [];
    var visited: set<Name> := {};
    ghost var winners: map<Name, real> := map[];
    var i := 0;
    NoHits(store.w, store.index, f, query);
    while i < |predicted|
      invariant 0 <= i <= |predicted|
      invariant Trail(visited, winners) == ClimbAll(store.w, store.index, f, query, predicted[..i])
      invariant Exact(store.w, store.index, f, query, Trail(visited, winners), hits)
    {
      assert predicted[..i + 1][..i] == predicted[..i];
      ghost var t := Climb(store.w, store.index, f, query, predicted[i].path, predicted[i].score,
                           MAX_BACKTRACK_LEVELS, Trail(visited, winners));
      visited, hits := Backtrack(
        store, f, query, predicted[i].path, predicted[i].score, visited, hits, winners);
      winners := t.winners;
      i := i + 1;
    }
    assert predicted[..i] == predicted;
    SomeHits(store.w, store.index, f, query, Trail(visited, winners), hits);
    if hits == [] {
      var all := store.AllEntries();
      FuzzyMatchMembers(store.w, f, query, all);
      FuzzyMatchDistinct(store.w, f, query, all);
      WithConfidenceMembers(FuzzyMatch(store.w, f, query, all), 0.0);
      hits := WithConfidence(FuzzyMatch(store.w, f, query, all), 0.0);
    }
  }

  lemma NoHits(w: World, index: Index, f: Finder, query: Name)
    ensures Exact(w, index, f, query, Trail({}, map[]), [])
  {
  }

  /** There are hits exactly when some directory won. */
  lemma SomeHits(w: World, index: Index, f: Finder, query: Name, t: Trail, hits: seq<Hit>)
    requires Filed(w, index) && Exact(w, index, f, query, t, hits)
    ensures hits == [] <==> t.winners == map[]
    ensures DistinctHits(hits) && forall h :: h in hits <==> Won(w, index, f, query, t.winners, h)
  {
    hide Fuzzy;
    if dir :| dir in t.winners {
      var k :| k in index && w.low(index[k].parent) == dir && Fuzzy(w, f, query, index[k]);
      assert Won(w, index, f, query, t.winners, Hit(index[k], t.winners[dir]));
    }
    if hits != [] {
      assert Won(w, index, f, query, t.winners, hits[0]);
    }
  }

  /** The hits of a query without an exact name: from the winning directories, or else from everywhere. */
  ghost predicate Wanted(w: World, index: Index, f: Finder, query: Name, predicted: seq<ScoredPath>, h: Hit)
    requires Plain(predicted)
  {
    var winners := ClimbAll(w, index, f, query, predicted).winners;
    if winners != map[] then Won(w, index, f, query, winners, h)
    else InIndex(w, index, h.entry) && Fuzzy(w, f, query, h.entry) && h.confidence == 0.0
  }

  ghost predicate SomeNamed(w: World, index: Index, f: Finder, query: Name) {
    exists k :: k in index && Named(w, f, query, index[k])
  }

  /** Everything a query should find: the files of exactly that name if there are any, and nothing else then. */
  ghost predicate Hits(w: World, index: Index, f: Finder, query: Name, predicted: seq<ScoredPath>, hits: seq<Hit>)
    requires Plain(predicted)
  {
    && DistinctHits(hits)
    && forall h :: h in hits <==>
         if SomeNamed(w, index, f, query)
         then InIndex(w, index, h.entry) && Named(w, f, query, h.entry) && h.confidence == 1.0
         else Wanted(w, index, f, query, predicted, h)
  }

  ghost predicate IsAnswer(w: World, index: Index, f: Finder, query: Name, predicted: seq<ScoredPath>, max: nat,
                           r: seq<ScoredPath>)
    requires Plain(predicted)
  {
    exists hits: seq<Hit> :: Hits(w, index, f, query, predicted, hits) && Answers(f, hits, max, r)
  }

  /** The answer is the best of exactly the hits the query should find, best first. */
  method Find(store: Store, f: Finder, predicted: seq<ScoredPath>, query: Name, maxResults: nat)
    returns (r: seq<ScoredPath>)
    requires Consistent(store.w, store.Contents()) && Plain(predicted)
    ensures IsAnswer(store.w, store.index, f, query, predicted, maxResults, r)
  {
    hide LinksAgree, Wanted, Named, Results, WithConfidence, Ranked, Truncated, Deduped, Lists, InIndex;
    var name := f.trim(query);
    if name != [] {
      var named := store.FilesNamed(name);
      NamedHits(store.w, store.index, f, query, predicted, named);
      if named != [] {
        RankingAnswers(f, WithConfidence(named, 1.0), maxResults);
        r := Truncated(Ranked(Results(f, WithConfidence(named, 1.0))), maxResults);
        return;
      }
    } else {
      NotNamed(store.w, store.index, f, query);
    }
    var hits := Collect(store, f, predicted, query);
    RankingAnswers(f, hits, maxResults);
    r := Truncated(Deduped(Ranked(Results(f, hits))), maxResults);
  }

  lemma NotNamed(w: World, index: Index, f: Finder, query: Name)
    requires f.trim(query) == []
    ensures !SomeNamed(w, index, f, query)
  {
  }

  lemma NamedHits(w: World, index: Index, f: Finder, query: Name, predicted: seq<ScoredPath>, named: seq<FileEntry>)
    requires f.trim(query) != [] && Filed(w, index) && Plain(predicted)
    requires Lists(w, index, Names(w, index), w.low(f.trim(query)), named)
    ensures named != [] <==> SomeNamed(w, index, f, query)
    ensures DistinctHits(WithConfidence(named, 1.0))
    ensures named != [] ==> Hits(w, index, f, query, predicted, WithConfidence(named, 1.0))
  {
    hide Wanted;
    WithConfidenceMembers(named, 1.0);
    if named != [] {
      assert named[0] in named;
      assert Named(w, f, query, index[w.hash(named[0].path)]);
    }
  }

  // ---- what the answer promises ----

  ghost predicate Nothing(w: World, index: Index, f: Finder, query: Name) {
    forall k | k in index :: !Named(w, f, query, index[k]) && !Fuzzy(w, f, query, index[k])
  }

  /** Completeness: the answer is empty exactly when no indexed file has the query's name or matches it. */
  lemma AnswerIsComplete(w: World, index: Index, f: Finder, query: Name, predicted: seq<ScoredPath>, max: nat,
                         r: seq<ScoredPath>)
    requires Filed(w, index) && Plain(predicted) && max > 0 && IsAnswer(w, index, f, query, predicted, max, r)
    ensures r == [] <==> Nothing(w, index, f, query)
  {
    hide Fuzzy, Named, Descending, Distinct, ClimbAll;
    var hits: seq<Hit> :| Hits(w, index, f, query, predicted, hits) && Answers(f, hits, max, r);
    if hits == [] {
      NothingFound(w, index, f, query, predicted);
    } else {
      assert hits[0] in hits;
      assert InIndex(w, index, hits[0].entry);
    }
  }

  lemma NothingFound(w: World, index: Index, f: Finder, query: Name, predicted: seq<ScoredPath>)
    requires Filed(w, index) && Plain(predicted) && Hits(w, index, f, query, predicted, [])
    ensures Nothing(w, index, f, query)
  {
    hide Fuzzy, Named, ClimbAll;
    var winners := ClimbAll(w, index, f, query, predicted).winners;
    var empty: seq<Hit> := [];
    forall k | k in index ensures !Named(w, f, query, index[k]) {
      assert Hit(index[k], 1.0) !in empty;
    }
    assert !SomeNamed(w, index, f, query);
    WinnersMatch(w, index, f, query, predicted);
    if winners != map[] {
      var h := WinnersHold(w, index, f, query, winners);
    }
    forall k | k in index ensures !Fuzzy(w, f, query, index[k]) {
      assert Hit(index[k], 0.0) !in empty;
    }
  }

  lemma WinnersHold(w: World, index: Index, f: Finder, query: Name, winners: map<Name, real>) returns (h: Hit)
    requires Filed(w, index) && winners != map[]
    requires forall dir | dir in winners :: HasMatch(w, index, f, query, dir)
    ensures Won(w, index, f, query, winners, h)
  {
    hide Fuzzy;
    var dir :| dir in winners;
    var k :| k in index && w.low(index[k].parent) == dir && Fuzzy(w, f, query, index[k]);
    h := Hit(index[k], winners[dir]);
  }

  /** A directory wins only by holding a match, and only at a predicted confidence. */
  lemma {:induction false} WinnersMatch(w: World, index: Index, f: Finder, query: Name, predicted: seq<ScoredPath>)
    requires Plain(predicted)
    ensures var t := ClimbAll(w, index, f, query, predicted);
            forall dir | dir in t.winners ::
              HasMatch(w, index, f, query, dir) && t.winners[dir] in Confidences(predicted)
    decreases |predicted|
  {
    hide HasMatch, Climb;
    if predicted != [] {
      var n := |predicted| - 1;
      WinnersMatch(w, index, f, query, predicted[..n]);
      ClimbWinners(w, index, f, query, predicted[n].path, predicted[n].score, MAX_BACKTRACK_LEVELS,
                   ClimbAll(w, index, f, query, predicted[..n]));
      assert predicted[n].score in Confidences(predicted);
      assert forall c | c in Confidences(predicted[..n]) :: c in Confidences(predicted);
    }
  }

  lemma {:induction false} ClimbWinners(
    w: World, index: Index, f: Finder, query: Name, dir: Name, confidence: real, tries: nat, t: Trail)
    ensures var t' := Climb(w, index, f, query, dir, confidence, tries, t);
            forall d | d in t'.winners ::
              || (d in t.winners && t'.winners[d] == t.winners[d])
              || (HasMatch(w, index, f, query, d) && t'.winners[d] == confidence)
    decreases tries
  {
    hide HasMatch;
    if tries > 0 {
      var t' := t.(visited := t.visited + {w.low(dir)});
      match f.parentOf(dir)
      case None =>
      case Some(up) => ClimbWinners(w, index, f, query, up, confidence, tries - 1, t');
    }
  }

  function Confidences(predicted: seq<ScoredPath>): set<real> {
    set p | p in predicted :: p.score
  }

  /** What a result may be: an indexed file the query names, or one it matches at a known confidence. */
  ghost predicate Justified(w: World, index: Index, f: Finder, query: Name, confidences: set<real>, x: ScoredPath) {
    exists h: Hit ::
      && InIndex(w, index, h.entry) && x == Scored(f, h)
      && ((Named(w, f, query, h.entry) && h.confidence == 1.0)
          || (Fuzzy(w, f, query, h.entry) && h.confidence in confidences))
  }

  lemma WantedConfidence(w: World, index: Index, f: Finder, query: Name, predicted: seq<ScoredPath>, h: Hit)
    requires Plain(predicted) && Wanted(w, index, f, query, predicted, h)
    ensures h.confidence in Confidences(predicted) + {0.0}
  {
    hide Fuzzy, Climb, ClimbAll, HasMatch, Confidences;
    WinnersMatch(w, index, f, query, predicted);
    var winners := ClimbAll(w, index, f, query, predicted).winners;
    if winners != map[] {
      assert HasMatch(w, index, f, query, w.low(h.entry.parent));
      assert winners[w.low(h.entry.parent)] in Confidences(predicted);
    }
  }

  /** Soundness: distinct indexed files that the query names or matches, best first and no more than asked for. */
  lemma AnswerIsSound(w: World, index: Index, f: Finder, query: Name, predicted: seq<ScoredPath>, max: nat,
                      r: seq<ScoredPath>)
    requires Plain(predicted) && IsAnswer(w, index, f, query, predicted, max, r)
    ensures Descending(r) && Distinct(r) && |r| <= max
    ensures forall x | x in r :: Justified(w, index, f, query, Confidences(predicted) + {0.0}, x)
  {
    hide Fuzzy, Named, Climb, ClimbAll, HasMatch, Scored, Confidences;
    var hits: seq<Hit> :| Hits(w, index, f, query, predicted, hits) && Answers(f, hits, max, r);
    forall x | x in r ensures Justified(w, index, f, query, Confidences(predicted) + {0.0}, x) {
      var h :| h in hits && x == Scored(f, h);
      if !SomeNamed(w, index, f, query) {
        assert Wanted(w, index, f, query, predicted, h);
        WantedConfidence(w, index, f, query, predicted, h);
      }
      assert InIndex(w, index, h.entry);
    }
  }

  // ---- the answer, without the search ----

  /** The file has exactly the query's name, blanks at either end of the query and the case of both aside. */
  ghost predicate ExactlyNamed(w: World, f: Finder, query: Name, e: FileEntry) {
    |f.trim(query)| > 0 && w.low(e.fileName) == w.low(f.trim(query))
  }

  /** The directory so many levels up. */
  function Ancestor(f: Finder, dir: Name, level: nat): Option<Name>
    decreases level
  {
    if level == 0 then Some(dir)
    else match f.parentOf(dir)
      case None => None
      case Some(up) => Ancestor(f, up, level - 1)
  }

  ghost predicate HoldsMatch(w: World, index: Index, f: Finder, query: Name, dir: Name) {
    exists k :: k in index && w.low(index[k].parent) == w.low(dir) && Matching(w, f, query, index[k])
  }

  lemma HasMatchIff(w: World, index: Index, f: Finder, query: Name, dir: Name)
    ensures HasMatch(w, index, f, query, w.low(dir)) <==> HoldsMatch(w, index, f, query, dir)
  {
    hide Fuzzy, Matching;
    forall k | k in index ensures Fuzzy(w, f, query, index[k]) <==> Matching(w, f, query, index[k]) {
      FuzzyIsMatching(w, f, query, index[k]);
    }
  }

  /** Going up from `dir`, the first directory that holds a match is `level` levels up. */
  ghost predicate Reaches(w: World, index: Index, f: Finder, query: Name, dir: Name, level: nat) {
    && (forall l: nat | l <= level :: Ancestor(f, dir, l).Some?)
    && HoldsMatch(w, index, f, query, Ancestor(f, dir, level).value)
    && forall l: nat | l < level :: !HoldsMatch(w, index, f, query, Ancestor(f, dir, l).value)
  }

  lemma {:induction false} AncestorBelow(f: Finder, dir: Name, level: nat)
    requires Ancestor(f, dir, level).Some?
    ensures forall l: nat | l <= level :: Ancestor(f, dir, l).Some?
    decreases level
  {
    if level > 0 {
      AncestorBelow(f, f.parentOf(dir).value, level - 1);
    }
  }

  lemma ReachesFromParent(w: World, index: Index, f: Finder, query: Name, dir: Name, level: nat)
    requires f.parentOf(dir).Some? && !HoldsMatch(w, index, f, query, dir)
    ensures Reaches(w, index, f, query, dir, level + 1) <==> Reaches(w, index, f, query, f.parentOf(dir).value, level)
  {
    hide HoldsMatch;
    var up := f.parentOf(dir).value;
    assert forall l: nat :: Ancestor(f, dir, l + 1) == Ancestor(f, up, l);
    if Reaches(w, index, f, query, up, level) {
      forall l: nat | l <= level + 1 ensures Ancestor(f, dir, l).Some? {
        if l > 0 {
          assert Ancestor(f, up, l - 1).Some?;
        }
      }
      forall l: nat | l < level + 1 ensures !HoldsMatch(w, index, f, query, Ancestor(f, dir, l).value) {
        if l > 0 {
          assert Ancestor(f, dir, l) == Ancestor(f, up, l - 1);
        }
      }
    }
  }

  /** A climb only wins the first directory on its way up that holds a match, at the confidence it set out with. */
  lemma {:induction false} ClimbReaches(
    w: World, index: Index, f: Finder, query: Name, dir: Name, confidence: real, tries: nat, t: Trail, d: Name)
    requires var t' := Climb(w, index, f, query, dir, confidence, tries, t);
             d in t'.winners && !(d in t.winners && t.winners[d] == t'.winners[d])
    ensures Climb(w, index, f, query, dir, confidence, tries, t).winners[d] == confidence
    ensures exists level: nat :: level < tries && Reaches(w, index, f, query, dir, level)
                                 && w.low(Ancestor(f, dir, level).value) == d
    decreases tries
  {
    hide HasMatch, HoldsMatch;
    HasMatchIff(w, index, f, query, dir);
    var t' := t.(visited := t.visited + {w.low(dir)});
    if HasMatch(w, index, f, query, w.low(dir)) {
      assert Reaches(w, index, f, query, dir, 0);
    } else {
      var up := f.parentOf(dir).value;
      ClimbReaches(w, index, f, query, up, confidence, tries - 1, t', d);
      var level: nat :| level < tries - 1 && Reaches(w, index, f, query, up, level)
                        && w.low(Ancestor(f, up, level).value) == d;
      ReachesFromParent(w, index, f, query, dir, level);
    }
  }

  /** What a prediction may win: the first directory with a match among its own and the three above it. */
  ghost predicate WonBy(w: World, index: Index, f: Finder, query: Name, p: ScoredPath, dir: Name, confidence: real) {
    && NulFree(p.path) && confidence == p.score
    && exists level: nat :: level < 4 && Reaches(w, index, f, query, p.path, level)
                            && w.low(Ancestor(f, p.path, level).value) == dir
  }

  lemma {:induction false} WinnersReached(
    w: World, index: Index, f: Finder, query: Name, predicted: seq<ScoredPath>, d: Name)
    requires Plain(predicted) && d in ClimbAll(w, index, f, query, predicted).winners
    ensures exists p | p in predicted ::
              WonBy(w, index, f, query, p, d, ClimbAll(w, index, f, query, predicted).winners[d])
    decreases |predicted|
  {
    hide HasMatch, HoldsMatch, Climb, Reaches, Ancestor;
    var n := |predicted| - 1;
    var earlier := ClimbAll(w, index, f, query, predicted[..n]);
    var last := predicted[n];
    var t := Climb(w, index, f, query, last.path, last.score, MAX_BACKTRACK_LEVELS, earlier);
    if d in earlier.winners && earlier.winners[d] == t.winners[d] {
      WinnersReached(w, index, f, query, predicted[..n], d);
      var p :| p in predicted[..n] && WonBy(w, index, f, query, p, d, t.winners[d]);
      assert p in predicted;
    } else {
      ClimbReaches(w, index, f, query, last.path, last.score, MAX_BACKTRACK_LEVELS, earlier, d);
      assert last in predicted && WonBy(w, index, f, query, last, d, t.winners[d]);
    }
  }

  /** What a result is: an indexed file of exactly that name, or a match in a predicted directory, or any match. */
  ghost predicate Explained(w: World, index: Index, f: Finder, query: Name, predicted: seq<ScoredPath>,
                            x: ScoredPath, e: FileEntry, confidence: real) {
    && w.hash(e.path) in index && index[w.hash(e.path)] == e
    && x.path == e.path && x.score == f.score(e, confidence)
    && (|| (ExactlyNamed(w, f, query, e) && confidence == 1.0)
        || (Matching(w, f, query, e) && confidence == 0.0)
        || (Matching(w, f, query, e)
            && exists p | p in predicted :: WonBy(w, index, f, query, p, w.low(e.parent), confidence)))
  }

  /** Every result is explained, in terms of names, words and directories alone. */
  lemma ResultsAreExplained(w: World, index: Index, f: Finder, query: Name, predicted: seq<ScoredPath>, max: nat,
                            r: seq<ScoredPath>, x: ScoredPath)
    requires Plain(predicted) && IsAnswer(w, index, f, query, predicted, max, r) && x in r
    ensures exists e, confidence :: Explained(w, index, f, query, predicted, x, e, confidence)
  {
    hide Fuzzy, Matching, ClimbAll, HasMatch, HoldsMatch, WonBy, Descending, Distinct;
    var hits: seq<Hit> :| Hits(w, index, f, query, predicted, hits) && Answers(f, hits, max, r);
    var h :| h in hits && x == Scored(f, h);
    FuzzyIsMatching(w, f, query, h.entry);
    if !SomeNamed(w, index, f, query) {
      assert Wanted(w, index, f, query, predicted, h);
      var winners := ClimbAll(w, index, f, query, predicted).winners;
      if winners != map[] {
        WinnersReached(w, index, f, query, predicted, w.low(h.entry.parent));
      }
    }
    assert Explained(w, index, f, query, predicted, x, h.entry, h.confidence);
  }

  /** Whatever contains the query or shares a word with it, or has its name, makes the answer non-empty. */
  lemma MatchesAreAnswered(w: World, index: Index, f: Finder, query: Name, predicted: seq<ScoredPath>, max: nat,
                           r: seq<ScoredPath>)
    requires Filed(w, index) && Plain(predicted) && max > 0 && IsAnswer(w, index, f, query, predicted, max, r)
    ensures r != [] <==>
              exists k :: k in index && (Matching(w, f, query, index[k]) || ExactlyNamed(w, f, query, index[k]))
  {
    AnswerIsComplete(w, index, f, query, predicted, max, r);
    hide Fuzzy, Matching, IsAnswer, Filed;
    forall k | k in index
      ensures Matching(w, f, query, index[k]) || ExactlyNamed(w, f, query, index[k])
              <==> Fuzzy(w, f, query, index[k]) || Named(w, f, query, index[k])
    {
      FuzzyIsMatching(w, f, query, index[k]);
    }
  }

  /** An entry at this confidence is in the answer, or the answer is full and nothing in it is worse. */
  ghost predicate Considered(f: Finder, e: FileEntry, confidence: real, max: nat, r: seq<ScoredPath>) {
    var x := ScoredPath(e.path, f.score(e, confidence));
    x in r || (|r| == max && forall y | y in r :: x.score <= y.score)
  }

  function ResultPaths(r: seq<ScoredPath>): set<Text> {
    set x | x in r :: x.path
  }

  function HitPaths(hits: seq<Hit>): set<Text> {
    set h | h in hits :: h.entry.path
  }

  lemma {:induction false} ResultPathsCount(r: seq<ScoredPath>)
    requires Distinct(r)
    ensures |ResultPaths(r)| == |r|
    decreases |r|
  {
    if r != [] {
      var n := |r| - 1;
      ResultPathsCount(r[..n]);
      assert forall x | x in r :: x in r[..n] || x == r[n];
      assert ResultPaths(r) == ResultPaths(r[..n]) + {r[n].path};
    }
  }

  lemma {:induction false} HitPathsCount(hits: seq<Hit>)
    ensures |HitPaths(hits)| <= |hits|
    decreases |hits|
  {
    if hits != [] {
      var n := |hits| - 1;
      HitPathsCount(hits[..n]);
      assert forall h | h in hits :: h in hits[..n] || h == hits[n];
      assert HitPaths(hits) == HitPaths(hits[..n]) + {hits[n].entry.path};
    }
  }

  /** An answer that is not full leaves no hit out. */
  lemma HitConsidered(f: Finder, hits: seq<Hit>, max: nat, r: seq<ScoredPath>, h: Hit)
    requires DistinctHits(hits) && Answers(f, hits, max, r) && h in hits
    ensures Considered(f, h.entry, h.confidence, max, r)
  {
    assert Scored(f, h) == ScoredPath(h.entry.path, f.score(h.entry, h.confidence));
    if |hits| <= max {
      ResultPathsCount(r);
      HitPathsCount(hits);
      hide Descending, Distinct;
      forall p | p in ResultPaths(r) ensures p in HitPaths(hits) {
        var x :| x in r && x.path == p;
        var g :| g in hits && x == Scored(f, g);
      }
      SubsetSize(ResultPaths(r), HitPaths(hits));
      SmallerSubset(ResultPaths(r), HitPaths(hits), h.entry.path);
      var x :| x in r && x.path == h.entry.path;
      var g :| g in hits && x == Scored(f, g);
      assert g == h;
    }
  }

  lemma {:induction false} SubsetSize(a: set<Text>, b: set<Text>)
    requires a <= b
    ensures |a| <= |b|
    decreases a
  {
    if x :| x in a {
      SubsetSize(a - {x}, b - {x});
    }
  }

  lemma SmallerSubset(a: set<Text>, b: set<Text>, x: Text)
    requires a <= b && x in b
    ensures |a| == |b| ==> x in a
  {
    if x !in a {
      SubsetSize(a, b - {x});
    }
  }

  /** Files of exactly that name are answered at full confidence, and nothing else then. */
  lemma ExactNameWins(w: World, index: Index, f: Finder, query: Name, predicted: seq<ScoredPath>, max: nat,
                      r: seq<ScoredPath>, k: Key)
    requires Filed(w, index) && Plain(predicted) && IsAnswer(w, index, f, query, predicted, max, r)
    requires k in index && ExactlyNamed(w, f, query, index[k])
    ensures Considered(f, index[k], 1.0, max, r)
    ensures forall x | x in r ::
              exists j :: j in index && ExactlyNamed(w, f, query, index[j])
                          && x == ScoredPath(index[j].path, f.score(index[j], 1.0))
  {
    hide Fuzzy, Wanted, Descending, Distinct;
    assert Named(w, f, query, index[k]);
    var hits: seq<Hit> :| Hits(w, index, f, query, predicted, hits) && Answers(f, hits, max, r);
    assert Hit(index[k], 1.0) in hits;
    HitConsidered(f, hits, max, r, Hit(index[k], 1.0));
    forall x | x in r
      ensures exists j :: j in index && ExactlyNamed(w, f, query, index[j])
                          && x == ScoredPath(index[j].path, f.score(index[j], 1.0))
    {
      var h :| h in hits && x == Scored(f, h);
      var j := w.hash(h.entry.path);
      assert j in index && index[j] == h.entry && ExactlyNamed(w, f, query, index[j]);
    }
  }

  // ---- what a prediction contributes ----

  ghost predicate Within(w: World, f: Finder, dir: Name, tries: nat, d: Name) {
    exists l: nat :: l < tries && Ancestor(f, dir, l).Some? && w.low(Ancestor(f, dir, l).value) == d
  }

  lemma WithinParent(w: World, f: Finder, dir: Name, tries: nat, d: Name)
    requires tries > 0 && f.parentOf(dir).Some? && Within(w, f, f.parentOf(dir).value, tries - 1, d)
    ensures Within(w, f, dir, tries, d)
  {
    var l: nat :| l < tries - 1 && Ancestor(f, f.parentOf(dir).value, l).Some?
                  && w.low(Ancestor(f, f.parentOf(dir).value, l).value) == d;
    assert Ancestor(f, dir, l + 1) == Ancestor(f, f.parentOf(dir).value, l);
  }

  /** A climb visits nothing but the directories on its way, and leaves alone what was visited before. */
  lemma {:induction false} ClimbVisits(
    w: World, index: Index, f: Finder, query: Name, dir: Name, confidence: real, tries: nat, t: Trail)
    requires t.winners.Keys <= t.visited
    ensures var t' := Climb(w, index, f, query, dir, confidence, tries, t);
            && t'.winners.Keys <= t'.visited && t.visited <= t'.visited
            && (forall d | d in t'.visited :: d in t.visited || Within(w, f, dir, tries, d))
            && forall d | d in t.winners :: d in t'.winners && t'.winners[d] == t.winners[d]
    decreases tries
  {
    hide HasMatch;
    if tries > 0 && w.low(dir) !in t.visited {
      var t1 := t.(visited := t.visited + {w.low(dir)});
      assert Within(w, f, dir, tries, w.low(dir)) by {
        assert Ancestor(f, dir, 0) == Some(dir);
      }
      if !HasMatch(w, index, f, query, w.low(dir)) && f.parentOf(dir).Some? {
        var up := f.parentOf(dir).value;
        ClimbVisits(w, index, f, query, up, confidence, tries - 1, t1);
        forall d | Within(w, f, up, tries - 1, d) ensures Within(w, f, dir, tries, d) {
          WithinParent(w, f, dir, tries, d);
        }
      }
    }
  }

  /** The way up to that level meets no directory twice, whatever the case of its name, and none of these. */
  ghost predicate NewGround(w: World, f: Finder, dir: Name, level: nat, visited: set<Name>)
    requires forall l: nat | l <= level :: Ancestor(f, dir, l).Some?
  {
    && (forall l: nat | l <= level :: w.low(Ancestor(f, dir, l).value) !in visited)
    && forall l: nat, m: nat | l < m <= level ::
         w.low(Ancestor(f, dir, l).value) != w.low(Ancestor(f, dir, m).value)
  }

  /** Over new ground, a climb wins the directory it reaches. */
  lemma {:induction false} ClimbWins(
    w: World, index: Index, f: Finder, query: Name, dir: Name, confidence: real, tries: nat, t: Trail, level: nat)
    requires level < tries && Reaches(w, index, f, query, dir, level) && NewGround(w, f, dir, level, t.visited)
    ensures var t', d := Climb(w, index, f, query, dir, confidence, tries, t), w.low(Ancestor(f, dir, level).value);
            d in t'.winners && t'.winners[d] == confidence
    decreases level
  {
    hide HasMatch, HoldsMatch;
    assert Ancestor(f, dir, 0) == Some(dir);
    assert w.low(Ancestor(f, dir, 0).value) !in t.visited;
    HasMatchIff(w, index, f, query, dir);
    if level > 0 {
      assert Ancestor(f, dir, 1).Some?;
      assert !HoldsMatch(w, index, f, query, Ancestor(f, dir, 0).value);
      var up := f.parentOf(dir).value;
      ReachesFromParent(w, index, f, query, dir, level - 1);
      assert forall l: nat :: Ancestor(f, dir, l + 1) == Ancestor(f, up, l);
      var t1 := t.(visited := t.visited + {w.low(dir)});
      assert NewGround(w, f, up, level - 1, t1.visited) by {
        NewGroundAbove(w, f, dir, level, t.visited);
      }
      ClimbWins(w, index, f, query, up, confidence, tries - 1, t1, level - 1);
    }
  }

  lemma NewGroundAbove(w: World, f: Finder, dir: Name, level: nat, visited: set<Name>)
    requires level > 0 && forall l: nat | l <= level :: Ancestor(f, dir, l).Some?
    requires NewGround(w, f, dir, level, visited)
    ensures f.parentOf(dir).Some? && forall l: nat | l < level :: Ancestor(f, f.parentOf(dir).value, l).Some?
    ensures NewGround(w, f, f.parentOf(dir).value, level - 1, visited + {w.low(dir)})
  {
    assert Ancestor(f, dir, 1).Some? && Ancestor(f, dir, 0) == Some(dir);
    var up := f.parentOf(dir).value;
    forall l: nat | l < level ensures Ancestor(f, up, l).Some? && Ancestor(f, up, l) == Ancestor(f, dir, l + 1) {
      assert Ancestor(f, dir, l + 1).Some?;
    }
    forall l: nat | l <= level - 1 ensures w.low(Ancestor(f, up, l).value) !in visited + {w.low(dir)} {
      assert w.low(Ancestor(f, dir, 0).value) != w.low(Ancestor(f, dir, l + 1).value);
    }
    forall l: nat, m: nat | l < m <= level - 1
      ensures w.low(Ancestor(f, up, l).value) != w.low(Ancestor(f, up, m).value)
    {
      assert w.low(Ancestor(f, dir, l + 1).value) != w.low(Ancestor(f, dir, m + 1).value);
    }
  }

  /** Everything within four levels of one of these predictions. */
  ghost predicate Covered(w: World, f: Finder, predicted: seq<ScoredPath>, d: Name)
    requires Plain(predicted)
  {
    exists i :: 0 <= i < |predicted| && Within(w, f, predicted[i].path, 4, d)
  }

  lemma {:induction false} AllVisits(w: World, index: Index, f: Finder, query: Name, predicted: seq<ScoredPath>)
    requires Plain(predicted)
    ensures var t := ClimbAll(w, index, f, query, predicted);
            t.winners.Keys <= t.visited && forall d | d in t.visited :: Covered(w, f, predicted, d)
    decreases |predicted|
  {
    hide HasMatch, Climb, Within;
    if predicted != [] {
      var n := |predicted| - 1;
      var earlier := ClimbAll(w, index, f, query, predicted[..n]);
      AllVisits(w, index, f, query, predicted[..n]);
      ClimbVisits(w, index, f, query, predicted[n].path, predicted[n].score, MAX_BACKTRACK_LEVELS, earlier);
      forall d | Covered(w, f, predicted[..n], d) ensures Covered(w, f, predicted, d) {
        var i :| 0 <= i < n && Within(w, f, predicted[..n][i].path, 4, d);
        assert Within(w, f, predicted[i].path, 4, d);
      }
    }
  }

  /** Prediction `i` is the first to come near the directory it reaches, at that level. */
  ghost predicate Contributes(w: World, index: Index, f: Finder, query: Name, predicted: seq<ScoredPath>,
                              i: nat, level: nat)
    requires Plain(predicted) && i < |predicted|
  {
    && level < 4 && Reaches(w, index, f, query, predicted[i].path, level)
    && NewGround(w, f, predicted[i].path, level, {})
    && forall l: nat | l <= level ::
         !Covered(w, f, predicted[..i], w.low(Ancestor(f, predicted[i].path, l).value))
  }

  /** Such a prediction wins that directory at its own confidence, whatever is predicted besides. */
  lemma {:induction false} ContributionWins(
    w: World, index: Index, f: Finder, query: Name, predicted: seq<ScoredPath>, i: nat, level: nat)
    requires Plain(predicted) && i < |predicted| && Contributes(w, index, f, query, predicted, i, level)
    ensures var winners, d := ClimbAll(w, index, f, query, predicted).winners,
                              w.low(Ancestor(f, predicted[i].path, level).value);
            d in winners && winners[d] == predicted[i].score
    decreases |predicted|
  {
    hide HasMatch, Climb, Reaches, Covered, Ancestor;
    var n := |predicted| - 1;
    var earlier := ClimbAll(w, index, f, query, predicted[..n]);
    AllVisits(w, index, f, query, predicted[..n]);
    if i == n {
      ReachedLevels(w, index, f, query, predicted[i].path, level);
      assert NewGround(w, f, predicted[i].path, level, earlier.visited);
      ClimbWins(w, index, f, query, predicted[i].path, predicted[i].score, MAX_BACKTRACK_LEVELS, earlier, level);
    } else {
      assert predicted[..n][..i] == predicted[..i] && predicted[..n][i] == predicted[i];
      ContributionWins(w, index, f, query, predicted[..n], i, level);
      ClimbVisits(w, index, f, query, predicted[n].path, predicted[n].score, MAX_BACKTRACK_LEVELS, earlier);
    }
  }

  lemma ReachedLevels(w: World, index: Index, f: Finder, query: Name, dir: Name, level: nat)
    requires Reaches(w, index, f, query, dir, level)
    ensures forall l: nat | l <= level :: Ancestor(f, dir, l).Some?
  {
  }

  /** Then every match in that directory is considered for the answer at that prediction's confidence. */
  lemma PredictedMatchesAreConsidered(
    w: World, index: Index, f: Finder, query: Name, predicted: seq<ScoredPath>, max: nat, r: seq<ScoredPath>,
    i: nat, level: nat, k: Key)
    requires Filed(w, index) && Plain(predicted) && IsAnswer(w, index, f, query, predicted, max, r)
    requires forall j | j in index :: !ExactlyNamed(w, f, query, index[j])
    requires i < |predicted| && Contributes(w, index, f, query, predicted, i, level)
    requires k in index && Matching(w, f, query, index[k])
    requires w.low(index[k].parent) == w.low(Ancestor(f, predicted[i].path, level).value)
    ensures Considered(f, index[k], predicted[i].score, max, r)
  {
    ContributionWins(w, index, f, query, predicted, i, level);
    hide Fuzzy, Matching, ClimbAll, HasMatch, HoldsMatch, Contributes, Ancestor, Answers, Considered;
    FuzzyIsMatching(w, f, query, index[k]);
    var hits: seq<Hit> :| Hits(w, index, f, query, predicted, hits) && Answers(f, hits, max, r);
    var h := Hit(index[k], predicted[i].score);
    assert !SomeNamed(w, index, f, query);
    assert Wanted(w, index, f, query, predicted, h);
    assert h in hits;
    HitConsidered(f, hits, max, r, h);
  }

  /** When no prediction reaches a match, every match in the index is considered, at confidence zero. */
  lemma OtherwiseAllMatchesAreConsidered(
    w: World, index: Index, f: Finder, query: Name, predicted: seq<ScoredPath>, max: nat, r: seq<ScoredPath>, k: Key)
    requires Filed(w, index) && Plain(predicted) && IsAnswer(w, index, f, query, predicted, max, r)
    requires forall j | j in index :: !ExactlyNamed(w, f, query, index[j])
    requires forall i, level: nat | 0 <= i < |predicted| && level < 4 ::
               !Reaches(w, index, f, query, predicted[i].path, level)
    requires k in index && Matching(w, f, query, index[k])
    ensures Considered(f, index[k], 0.0, max, r)
  {
    hide Fuzzy, Matching, ClimbAll, HasMatch, HoldsMatch, Reaches, Ancestor, Answers, Considered;
    FuzzyIsMatching(w, f, query, index[k]);
    var winners := ClimbAll(w, index, f, query, predicted).winners;
    if d :| d in winners {
      WinnersReached(w, index, f, query, predicted, d);
    }
    var hits: seq<Hit> :| Hits(w, index, f, query, predicted, hits) && Answers(f, hits, max, r);
    var h := Hit(index[k], 0.0);
    assert !SomeNamed(w, index, f, query);
    assert Wanted(w, index, f, query, predicted, h);
    assert h in hits;
    HitConsidered(f, hits, max, r, h);
  }
}
