/** Insertion-ordered maps: the front is the least, the back the most recently used entry. */
module LinkedMaps {
  import opened Prelude

  function Lookup<K(==, !new), V(!new)>(s: seq<(K, V)>, k: K): Option<V> {
    if s == [] then None
    else if s[0].0 == k then Some(s[0].1)
    else Lookup(s[1..], k)
  }

  function Without<K(==, !new), V(!new)>(s: seq<(K, V)>, k: K): (r: seq<(K, V)>)
    ensures |r| <= |s|
  {
    if s == [] then []
    else if s[0].0 == k then Without(s[1..], k)
    else [s[0]] + Without(s[1..], k)
  }

  lemma {:induction false} LookupFinds<K(!new), V(!new)>(s: seq<(K, V)>, k: K)
    ensures Lookup(s, k).Some? ==> (k, Lookup(s, k).value) in s
    ensures Lookup(s, k).None? ==> forall e | e in s :: e.0 != k
    decreases |s|
  {
    if s != [] && s[0].0 != k {
      LookupFinds(s[1..], k);
    }
  }

  lemma {:induction false} WithoutMembers<K(!new), V(!new)>(s: seq<(K, V)>, k: K)
    ensures forall e :: e in Without(s, k) <==> e in s && e.0 != k
    decreases |s|
  {
    if s != [] {
      WithoutMembers(s[1..], k);
      assert s == [s[0]] + s[1..];
    }
  }

  lemma {:induction false} WithoutShrinks<K(!new), V(!new)>(s: seq<(K, V)>, k: K)
    requires Lookup(s, k).Some?
    ensures |Without(s, k)| < |s|
    decreases |s|
  {
    if s[0].0 != k {
      WithoutShrinks(s[1..], k);
    }
  }

  lemma {:induction false} WithoutAbsent<K(!new), V(!new)>(s: seq<(K, V)>, k: K)
    requires Lookup(s, k).None?
    ensures Without(s, k) == s
    decreases |s|
  {
    if s != [] {
      WithoutAbsent(s[1..], k);
    }
  }

  ghost predicate UniqueKeys<K(!new), V(!new)>(s: seq<(K, V)>) {
    forall i, j | 0 <= i < j < |s| :: s[i].0 != s[j].0
  }

  lemma {:induction false} WithoutUnique<K(!new), V(!new)>(s: seq<(K, V)>, k: K)
    requires UniqueKeys(s)
    ensures UniqueKeys(Without(s, k))
    decreases |s|
  {
    if s != [] {
      WithoutUnique(s[1..], k);
      WithoutMembers(s[1..], k);
      var rest := s[1..];
      forall e | e in Without(rest, k) ensures e.0 != s[0].0 {
        assert e in rest;
        var j :| 0 <= j < |rest| && rest[j] == e;
        assert s[j + 1] == e;
      }
    }
  }

  lemma {:induction false} WithoutConcat<K(!new), V(!new)>(a: seq<(K, V)>, b: seq<(K, V)>, k: K)
    ensures Without(a + b, k) == Without(a, k) + Without(b, k)
    decreases |a|
  {
    if a == [] {
      assert a + b == b;
    } else {
      assert (a + b)[1..] == a[1..] + b;
      WithoutConcat(a[1..], b, k);
    }
  }

  lemma {:induction false} LookupConcat<K(!new), V(!new)>(a: seq<(K, V)>, b: seq<(K, V)>, k: K)
    ensures Lookup(a + b, k) == if Lookup(a, k).Some? then Lookup(a, k) else Lookup(b, k)
    decreases |a|
  {
    if a == [] {
      assert a + b == b;
    } else {
      assert (a + b)[1..] == a[1..] + b;
      LookupConcat(a[1..], b, k);
    }
  }

  lemma PlaceUnique<K(!new), V(!new)>(a: seq<(K, V)>, b: seq<(K, V)>, k: K, v: V)
    requires UniqueKeys(a + b) && forall e | e in a + b :: e.0 != k
    ensures UniqueKeys(a + [(k, v)] + b)
  {
    var s, t := a + b, a + [(k, v)] + b;
    forall i, j | 0 <= i < j < |t| ensures t[i].0 != t[j].0 {
      if i == |a| {
        assert t[j] == s[j - 1] && s[j - 1] in s;
      } else if j == |a| {
        assert t[i] == s[i] && s[i] in s;
      } else {
        var i', j' := if i < |a| then i else i - 1, if j < |a| then j else j - 1;
        assert t[i] == s[i'] && t[j] == s[j'];
      }
    }
  }
}

/** The strict byte-bounded, frequency-aware RAM cache (a segmented LRU). */
module RamCaches {
  import opened Prelude
  import opened Bytes
  import opened LinkedMaps

  type Segment<K> = seq<(K, ByteSeq)>

  function Weight<K(!new)>(s: Segment<K>): nat {
    if s == [] then 0 else |s[0].1| + Weight(s[1..])
  }

  /** How many entries must leave the front of `s` before the rest weighs at most `budget`. */
  function Excess<K(!new)>(s: Segment<K>, budget: nat): (n: nat)
    ensures n <= |s|
  {
    if Weight(s) <= budget then 0 else 1 + Excess(s[1..], budget)
  }

  lemma {:induction false} ExcessIsLeast<K(!new)>(s: Segment<K>, budget: nat)
    ensures Weight(s[Excess(s, budget)..]) <= budget
    ensures forall i | 0 <= i < Excess(s, budget) :: Weight(s[i..]) > budget
    decreases |s|
  {
    var n := Excess(s, budget);
    if n == 0 {
      assert s[n..] == s;
    } else {
      ExcessIsLeast(s[1..], budget);
      assert s[1..][n - 1..] == s[n..];
      forall i | 0 <= i < n ensures Weight(s[i..]) > budget {
        if i == 0 {
          assert s[i..] == s;
        } else {
          assert s[i..] == s[1..][i - 1..];
        }
      }
    }
  }

  datatype Counters = Counters(hits: nat, misses: nat, evictions: nat, promotions: nat)

  datatype State<K(!new)> = State(
    probation: Segment<K>, protected: Segment<K>, cap: nat, protectedCap: nat, counters: Counters)
  {
    /** Every resident entry, in the order in which the cache would evict them. */
    ghost function All(): Segment<K> {
      probation + protected
    }

    /** No key is resident twice, in one segment or across both, and both byte budgets hold. */
    ghost predicate Valid() {
      && UniqueKeys(All())
      && 1 <= protectedCap <= cap
      && Weight(protected) <= protectedCap
      && Weight(All()) <= cap
    }
  }

  function Fresh<K(!new)>(capBytes: nat): State<K> {
    State([], [], if capBytes < 1 then 1 else capBytes,
          if capBytes / 10 * 8 < 1 then 1 else capBytes / 10 * 8, Counters(0, 0, 0, 0))
  }

  /** Demote protected LRU entries until the protected segment fits. */
  function Demoted<K(!new)>(c: State<K>): State<K> {
    var n := Excess(c.protected, c.protectedCap);
    c.(protected := c.protected[n..], probation := c.probation + c.protected[..n])
  }

  /** Evict LRU entries, probation before protected, until everything fits. */
  function Trimmed<K(!new)>(c: State<K>): State<K> {
    var n := Excess(c.probation + c.protected, c.cap);
    var p := if n <= |c.probation| then n else |c.probation|;
    c.(probation := c.probation[p..], protected := c.protected[n - p..],
       counters := c.counters.(evictions := c.counters.evictions + n))
  }

  function Promoted<K(==, !new)>(c: State<K>, k: K, v: ByteSeq): State<K> {
    c.(probation := Without(c.probation, k), protected := c.protected + [(k, v)],
       counters := c.counters.(hits := c.counters.hits + 1, promotions := c.counters.promotions + 1))
  }

  function Got<K(==, !new)>(c: State<K>, k: K): State<K> {
    match Lookup(c.protected, k)
    case Some(v) =>
      c.(protected := Without(c.protected, k) + [(k, v)], counters := c.counters.(hits := c.counters.hits + 1))
    case None =>
      match Lookup(c.probation, k)
      case Some(v) => Trimmed(Demoted(Promoted(c, k, v)))
      case None => c.(counters := c.counters.(misses := c.counters.misses + 1))
  }

  function Found<K(==, !new)>(c: State<K>, k: K): Option<ByteSeq> {
    if Lookup(c.protected, k).Some? then Lookup(c.protected, k) else Lookup(c.probation, k)
  }

  function Invalidated<K(==, !new)>(c: State<K>, k: K): State<K> {
    c.(probation := Without(c.probation, k), protected := Without(c.protected, k))
  }

  /** The newcomer lands at the recent end of probation, before any eviction. */
  function Admitted<K(==, !new)>(c: State<K>, k: K, v: ByteSeq): State<K> {
    c.(probation := Without(c.probation, k) + [(k, v)], protected := Without(c.protected, k))
  }

  function Inserted<K(==, !new)>(c: State<K>, k: K, v: ByteSeq): State<K> {
    Trimmed(Admitted(c, k, v))
  }

  // ---- weights ----

  lemma {:induction false} WeightConcat<K(!new)>(a: Segment<K>, b: Segment<K>)
    ensures Weight(a + b) == Weight(a) + Weight(b)
    decreases |a|
  {
    if a == [] {
      assert a + b == b;
    } else {
      assert (a + b)[1..] == a[1..] + b;
      WeightConcat(a[1..], b);
    }
  }

  lemma {:induction false} WeightWithout<K(!new)>(s: Segment<K>, k: K)
    requires UniqueKeys(s)
    ensures Weight(s) == Weight(Without(s, k)) + match Lookup(s, k) case Some(v) => |v| case None => 0
    decreases |s|
  {
    if s != [] {
      WeightWithout(s[1..], k);
      if s[0].0 == k {
        LookupFinds(s[1..], k);
        assert forall j | 0 <= j < |s[1..]| :: s[1..][j] == s[j + 1];
      } else {
        assert ([s[0]] + Without(s[1..], k))[1..] == Without(s[1..], k);
      }
    }
  }

  /** The whole weighs at least as much as any part at its end. */
  lemma WeightOfTail<K(!new)>(s: Segment<K>, i: nat)
    requires i <= |s|
    ensures Weight(s[i..]) <= Weight(s)
  {
    WeightConcat(s[..i], s[i..]);
    assert s == s[..i] + s[i..];
  }

  // ---- what each operation keeps ----

  /** An empty cache; four fifths of its capacity, in steps of eight bytes, may be protected. */
  lemma FreshCaps<K(!new)>(capBytes: nat)
    ensures var c := Fresh<K>(capBytes);
            && c.Valid() && c.All() == [] && (capBytes > 0 ==> c.cap == capBytes)
            && (if capBytes < 10 then c.protectedCap == 1
                else 8 * capBytes - 80 < 10 * c.protectedCap <= 8 * capBytes)
  {
  }

  /** Demotion keeps the eviction order, and moves no more than it takes to bring protected under its cap. */
  lemma DemotedKeepsOrder<K(!new)>(c: State<K>)
    ensures Demoted(c).All() == c.All()
    ensures Weight(Demoted(c).protected) <= c.protectedCap
    ensures var n := |c.protected| - |Demoted(c).protected|;
            && 0 <= n && Demoted(c).protected == c.protected[n..]
            && forall i | 0 <= i < n :: Weight(c.protected[i..]) > c.protectedCap
    ensures Demoted(c).counters == c.counters
  {
    ExcessIsLeast(c.protected, c.protectedCap);
    hide Excess, Weight;
    var n := Excess(c.protected, c.protectedCap);
    assert c.protected == c.protected[..n] + c.protected[n..];
  }

  lemma TrimmedIsSuffix<K(!new)>(c: State<K>)
    ensures Trimmed(c).All() == c.All()[Excess(c.All(), c.cap)..]
    ensures Weight(Trimmed(c).All()) <= c.cap
  {
    ExcessIsLeast(c.All(), c.cap);
  }

  /** As long as the protected segment fits on its own, eviction only touches probation. */
  lemma TrimSparesProtected<K(!new)>(c: State<K>)
    requires Weight(c.protected) <= c.cap
    ensures Excess(c.All(), c.cap) <= |c.probation|
    ensures Trimmed(c).protected == c.protected
  {
    ExcessIsLeast(c.All(), c.cap);
    assert c.All()[|c.probation|..] == c.protected;
  }

  lemma OnlyEntry<K(!new)>(s: Segment<K>, k: K, v: ByteSeq)
    requires UniqueKeys(s) && Lookup(s, k) == Some(v)
    ensures (k, v) in s
    ensures forall e | e in s && e.0 == k :: e == (k, v)
  {
    LookupFinds(s, k);
  }

  /** Moving an entry to the recent end changes neither the residents nor their weight. */
  lemma MoveToBack<K(!new)>(s: Segment<K>, k: K, v: ByteSeq)
    requires UniqueKeys(s) && Lookup(s, k) == Some(v)
    ensures UniqueKeys(Without(s, k) + [(k, v)])
    ensures Weight(Without(s, k) + [(k, v)]) == Weight(s)
    ensures forall e | e in s :: e in Without(s, k) + [(k, v)]
    ensures forall e | e in Without(s, k) + [(k, v)] :: e in s
  {
    WithoutUnique(s, k);
    WithoutMembers(s, k);
    WeightWithout(s, k);
    WeightConcat(Without(s, k), [(k, v)]);
    assert Weight([(k, v)]) == |v|;
    OnlyEntry(s, k, v);
    PlaceUnique(Without(s, k), [], k, v);
    assert Without(s, k) + [(k, v)] + [] == Without(s, k) + [(k, v)];
    assert Without(s, k) + [] == Without(s, k);
  }

  /**
   * A lookup never evicts: it answers the resident value, leaves the same entries resident with that
   * value now the last to go, and keeps every budget.
   */
  lemma GetKeepsEverything<K(!new)>(c: State<K>, k: K)
    requires c.Valid()
    ensures Got(c, k).Valid()
    ensures Found(c, k) == Lookup(c.All(), k)
    ensures Found(c, k).None? ==> Got(c, k).All() == c.All()
    ensures Found(c, k).Some? ==> Got(c, k).All() == Without(c.All(), k) + [(k, Found(c, k).value)]
    ensures forall e :: e in c.All() <==> e in Got(c, k).All()
    ensures var n, n' := c.counters, Got(c, k).counters;
            && n'.evictions == n.evictions
            && n'.hits == n.hits + (if Lookup(c.All(), k).Some? then 1 else 0)
            && n'.misses == n.misses + (if Lookup(c.All(), k).Some? then 0 else 1)
            && n'.promotions == n.promotions + (if Lookup(c.probation, k).Some? then 1 else 0)
  {
    LookupConcat(c.probation, c.protected, k);
    WithoutConcat(c.probation, c.protected, k);
    if Found(c, k).Some? {
      var v := Found(c, k).value;
      if Lookup(c.protected, k).Some? {
        NotInBoth(c, k);
        SegmentUnique(c);
        WeightWithout(c.protected, k);
        WeightConcat(Without(c.protected, k), [(k, v)]);
        assert Weight([(k, v)]) == |v|;
      } else {
        PromotedAll(c, k, v);
      }
      MoveToBack(c.All(), k, v);
    }
  }

  lemma NotInBoth<K(!new)>(c: State<K>, k: K)
    requires UniqueKeys(c.All()) && Lookup(c.protected, k).Some?
    ensures Lookup(c.probation, k).None?
    ensures Found(c, k) == Lookup(c.All(), k)
    ensures Without(c.All(), k) + [(k, Found(c, k).value)]
            == c.probation + (Without(c.protected, k) + [(k, Found(c, k).value)])
  {
    LookupConcat(c.probation, c.protected, k);
    WithoutConcat(c.probation, c.protected, k);
    LookupFinds(c.probation, k);
    LookupFinds(c.protected, k);
    var j :| 0 <= j < |c.protected| && c.protected[j] == (k, Lookup(c.protected, k).value);
    assert c.All()[|c.probation| + j] == c.protected[j];
    assert forall i | 0 <= i < |c.probation| :: c.All()[i] == c.probation[i];
    WithoutAbsent(c.probation, k);
  }

  lemma PromotedAll<K(!new)>(c: State<K>, k: K, v: ByteSeq)
    requires c.Valid() && Lookup(c.protected, k).None? && Lookup(c.probation, k) == Some(v)
    ensures Got(c, k).All() == Without(c.All(), k) + [(k, v)]
    ensures Got(c, k) == Demoted(Promoted(c, k, v))
    ensures Weight(Got(c, k).protected) <= c.protectedCap
  {
    var p := Promoted(c, k, v);
    LookupConcat(c.probation, c.protected, k);
    WithoutConcat(c.probation, c.protected, k);
    WithoutAbsent(c.protected, k);
    assert p.All() == Without(c.All(), k) + [(k, v)];
    MoveToBack(c.All(), k, v);
    DemotedKeepsOrder(p);
    WeightConcat(Demoted(p).probation, Demoted(p).protected);
    NothingToTrim(Demoted(p));
  }

  /** A last entry stays in what fits exactly when it fits itself. */
  lemma LastStays<K(!new)>(s: Segment<K>, k: K, v: ByteSeq, budget: nat)
    ensures var all := s + [(k, v)];
            Excess(all, budget) <= |s| <==> |v| <= budget
  {
    var all := s + [(k, v)];
    ExcessIsLeast(all, budget);
    var n := Excess(all, budget);
    assert all[|s|..] == [(k, v)] && Weight([(k, v)]) == |v|;
    if n <= |s| {
      WeightOfTail(all[n..], |s| - n);
      assert all[n..][|s| - n..] == all[|s|..];
    }
  }

  /** A hit earns protection: the value read is the last protected one, unless it is too big to protect. */
  lemma HitIsProtected<K(!new)>(c: State<K>, k: K, v: ByteSeq)
    requires c.Valid() && Lookup(c.All(), k) == Some(v)
    ensures var hot := Got(c, k).protected;
            if |v| <= c.protectedCap then hot != [] && hot[|hot| - 1] == (k, v) else forall e | e in hot :: e.0 != k
  {
    LookupConcat(c.probation, c.protected, k);
    var rest := Without(c.protected, k);
    WithoutMembers(c.protected, k);
    if Lookup(c.protected, k).Some? {
      NotInBoth(c, k);
      SegmentUnique(c);
      WeightWithout(c.protected, k);
    } else {
      WithoutAbsent(c.protected, k);
      PromotedAll(c, k, v);
      LastStays(c.protected, k, v, c.protectedCap);
      hide Excess, Weight;
    }
  }

  /** A value that was read once survives any stream of inserts under other keys, however long. */
  lemma ReadValueSurvives<K(!new)>(c: State<K>, k: K, v: ByteSeq, calls: seq<Call<K>>)
    requires c.Valid() && Lookup(c.All(), k) == Some(v) && |v| <= c.protectedCap
    requires forall call | call in calls :: call.InsertCall? && call.k != k
    ensures (k, v) in Ran(After(c, GetCall(k)), calls).protected
    ensures Lookup(Ran(After(c, GetCall(k)), calls).All(), k) == Some(v)
  {
    HitIsProtected(c, k, v);
    GetKeepsEverything(c, k);
    HotEntrySurvivesColdStream(Got(c, k), (k, v), calls);
    RunKeepsValid(Got(c, k), calls);
    hide Ran;
    var last := Ran(After(c, GetCall(k)), calls);
    LookupIsUnique(last.All(), k, v);
  }

  lemma LookupIsUnique<K(!new)>(s: Segment<K>, k: K, v: ByteSeq)
    requires UniqueKeys(s) && (k, v) in s
    ensures Lookup(s, k) == Some(v)
  {
    LookupFinds(s, k);
  }

  /**
   * An insert keeps the budgets, never disturbs another protected entry, and evicts exactly the shortest
   * least-recently-used prefix of probation that makes the newcomer fit.
   */
  lemma InsertEvictsOnlyProbation<K(!new)>(c: State<K>, k: K, v: ByteSeq)
    requires c.Valid()
    ensures Inserted(c, k, v).Valid()
    ensures Inserted(c, k, v).protected == Without(c.protected, k)
    ensures forall e | e in Inserted(c, k, v).All() :: e == (k, v) || (e in c.All() && e.0 != k)
    ensures var waiting := Without(c.probation, k) + [(k, v)];
            var n := |waiting| - |Inserted(c, k, v).probation|;
            && 0 <= n && Inserted(c, k, v).probation == waiting[n..]
            && (forall i | 0 <= i < n :: Weight((waiting + Without(c.protected, k))[i..]) > c.cap)
            && Inserted(c, k, v).counters == c.counters.(evictions := c.counters.evictions + n)
    ensures Inserted(c, k, v).cap == c.cap && Inserted(c, k, v).protectedCap == c.protectedCap
  {
    var a := Admitted(c, k, v);
    AdmittedUnique(c, k, v);
    TrimmedIsSuffix(a);
    TrimSparesProtected(a);
    ExcessIsLeast(a.All(), c.cap);
    AdmittedMembers(c, k, v);
  }

  lemma WeightPrepend<K(!new)>(k: K, v: ByteSeq, s: Segment<K>)
    ensures Weight([(k, v)] + s) == |v| + Weight(s)
  {
    assert ([(k, v)] + s)[1..] == s;
  }

  /** What is left of probation still ends with the newcomer exactly when it fits beside what is protected. */
  lemma NewcomerFits<K(!new)>(c: State<K>, k: K, v: ByteSeq)
    requires c.Valid()
    ensures var p := Inserted(c, k, v).probation;
            if |v| + Weight(Without(c.protected, k)) <= c.cap then p != [] && p[|p| - 1] == (k, v) else p == []
  {
    hide Inserted, Without, Weight, UniqueKeys;
    InsertEvictsOnlyProbation(c, k, v);
    var waiting, hot := Without(c.probation, k) + [(k, v)], Without(c.protected, k);
    var p := Inserted(c, k, v).probation;
    assert (waiting + hot)[|waiting| - 1..] == [(k, v)] + hot;
    WeightPrepend(k, v, hot);
    if p != [] {
      WeightOfTail(p + hot, |p| - 1);
      assert (p + hot)[|p| - 1..] == [(k, v)] + hot;
    }
  }

  /** The newcomer is resident afterwards exactly when it fits beside what is protected. */
  lemma InsertedIsResident<K(!new)>(c: State<K>, k: K, v: ByteSeq)
    requires c.Valid()
    ensures Lookup(Inserted(c, k, v).All(), k)
            == if |v| + Weight(Without(c.protected, k)) <= c.cap then Some(v) else None
  {
    NewcomerFits(c, k, v);
    InsertEvictsOnlyProbation(c, k, v);
    WithoutMembers(c.protected, k);
    hide Inserted, Weight, Without;
    var s := Inserted(c, k, v);
    LookupFinds(s.All(), k);
    if s.probation != [] {
      assert s.All()[|s.probation| - 1] in s.All();
      LookupIsUnique(s.All(), k, s.probation[|s.probation| - 1].1);
    }
  }

  lemma InsertedValid<K(!new)>(c: State<K>, k: K, v: ByteSeq)
    requires c.Valid()
    ensures Inserted(c, k, v).Valid()
  {
    InsertEvictsOnlyProbation(c, k, v);
  }

  lemma AdmittedMembers<K(!new)>(c: State<K>, k: K, v: ByteSeq)
    ensures forall e | e in Admitted(c, k, v).All() :: e == (k, v) || (e in c.All() && e.0 != k)
  {
    WithoutMembers(c.probation, k);
    WithoutMembers(c.protected, k);
  }

  lemma AdmittedUnique<K(!new)>(c: State<K>, k: K, v: ByteSeq)
    requires c.Valid()
    ensures UniqueKeys(Admitted(c, k, v).All())
    ensures Weight(Without(c.protected, k)) <= c.protectedCap
  {
    WithoutConcat(c.probation, c.protected, k);
    WithoutUnique(c.All(), k);
    WithoutMembers(c.All(), k);
    PlaceUnique(Without(c.probation, k), Without(c.protected, k), k, v);
    SegmentUnique(c);
    WeightWithout(c.protected, k);
  }

  lemma SegmentUnique<K(!new)>(c: State<K>)
    requires UniqueKeys(c.All())
    ensures UniqueKeys(c.probation) && UniqueKeys(c.protected)
  {
    forall i, j | 0 <= i < j < |c.protected| ensures c.protected[i].0 != c.protected[j].0 {
      assert c.All()[|c.probation| + i] == c.protected[i] && c.All()[|c.probation| + j] == c.protected[j];
    }
    forall i, j | 0 <= i < j < |c.probation| ensures c.probation[i].0 != c.probation[j].0 {
      assert c.All()[i] == c.probation[i] && c.All()[j] == c.probation[j];
    }
  }

  lemma InvalidateRemovesExactly<K(!new)>(c: State<K>, k: K)
    requires c.Valid()
    ensures Invalidated(c, k).Valid()
    ensures Invalidated(c, k).All() == Without(c.All(), k)
  {
    WithoutConcat(c.probation, c.protected, k);
    WithoutUnique(c.All(), k);
    WeightWithout(c.All(), k);
    SegmentUnique(c);
    WeightWithout(c.protected, k);
  }

  lemma WithoutAbsentBoth<K(!new)>(a: Segment<K>, b: Segment<K>, k: K)
    ensures Lookup(a, k).None? ==> Without(a, k) == a
    ensures Lookup(b, k).None? ==> Without(b, k) == b
  {
    if Lookup(a, k).None? { WithoutAbsent(a, k); }
    if Lookup(b, k).None? { WithoutAbsent(b, k); }
  }

  /** How each edit of a segment moves the byte counters. */
  lemma EditWeights<K(!new)>(c: State<K>, k: K)
    requires c.Valid()
    ensures match Lookup(c.probation, k)
      case Some(v) => Weight(Without(c.probation, k)) + |v| == Weight(c.probation)
      case None => Without(c.probation, k) == c.probation
    ensures match Lookup(c.protected, k)
      case Some(v) => Weight(Without(c.protected, k)) + |v| == Weight(c.protected)
      case None => Without(c.protected, k) == c.protected
  {
    SegmentUnique(c);
    WeightWithout(c.probation, k);
    WeightWithout(c.protected, k);
    WithoutAbsentBoth(c.probation, c.protected, k);
  }

  lemma WeightAppend<K(!new)>(s: Segment<K>, k: K, v: ByteSeq)
    ensures Weight(s + [(k, v)]) == Weight(s) + |v|
  {
    WeightConcat(s, [(k, v)]);
    assert Weight([(k, v)]) == |v|;
  }

  /** A segment that is too heavy loses its first entry first. */
  lemma ExcessStep<K(!new)>(s: Segment<K>, budget: nat)
    requires Weight(s) > budget
    ensures s != [] && Weight(s) == |s[0].1| + Weight(s[1..])
    ensures Excess(s, budget) == 1 + Excess(s[1..], budget)
  {
  }

  /** One demotion is one step towards the demoted cache. */
  lemma DemoteStep<K(!new)>(c: State<K>)
    requires Weight(c.protected) > c.protectedCap
    ensures c.protected != [] && Weight(c.protected) == |c.protected[0].1| + Weight(c.protected[1..])
    ensures Demoted(c) == Demoted(c.(protected := c.protected[1..], probation := c.probation + [c.protected[0]]))
  {
    hide Weight, Excess;
    ExcessStep(c.protected, c.protectedCap);
    var n := Excess(c.protected, c.protectedCap);
    assert c.protected[1..][n - 1..] == c.protected[n..];
    assert c.probation + c.protected[..n] == c.probation + [c.protected[0]] + c.protected[1..][..n - 1];
  }

  lemma NothingToDemote<K(!new)>(c: State<K>)
    requires Weight(c.protected) <= c.protectedCap
    ensures Demoted(c) == c
  {
  }

  function EvictOldest<K(!new)>(c: State<K>): State<K>
    requires c.probation != [] || c.protected != []
  {
    var counted := c.counters.(evictions := c.counters.evictions + 1);
    if c.probation != [] then c.(probation := c.probation[1..], counters := counted)
    else c.(protected := c.protected[1..], counters := counted)
  }

  /** One eviction is one step towards the trimmed cache. */
  lemma TrimStep<K(!new)>(c: State<K>)
    requires Weight(c.probation) + Weight(c.protected) > c.cap
    requires c.probation != [] || c.protected != []
    ensures Trimmed(c) == Trimmed(EvictOldest(c))
  {
    WeightConcat(c.probation, c.protected);
    if c.probation != [] {
      TrimColdStep(c);
    } else {
      TrimHotStep(c);
    }
  }

  lemma TrimColdStep<K(!new)>(c: State<K>)
    requires Weight(c.probation + c.protected) > c.cap && c.probation != []
    ensures Trimmed(c) == Trimmed(EvictOldest(c))
  {
    hide Weight, Excess;
    var all := c.probation + c.protected;
    ExcessStep(all, c.cap);
    assert all[1..] == c.probation[1..] + c.protected;
    var n := Excess(all, c.cap);
    if n <= |c.probation| {
      assert c.probation[1..][n - 1..] == c.probation[n..];
    }
  }

  lemma TrimHotStep<K(!new)>(c: State<K>)
    requires Weight(c.probation + c.protected) > c.cap && c.probation == [] && c.protected != []
    ensures Trimmed(c) == Trimmed(EvictOldest(c))
  {
    hide Weight, Excess;
    assert [] + c.protected == c.protected;
    assert [] + c.protected[1..] == c.protected[1..];
    ExcessStep(c.protected, c.cap);
    var n := Excess(c.protected, c.cap);
    assert c.protected[1..][n - 1..] == c.protected[n..];
  }

  lemma NothingToTrim<K(!new)>(c: State<K>)
    requires Weight(c.probation) + Weight(c.protected) <= c.cap
    ensures Trimmed(c) == c
  {
    WeightConcat(c.probation, c.protected);
  }

  // ---- whole runs ----

  datatype Call<K> = GetCall(k: K) | InsertCall(k: K, v: ByteSeq) | InvalidateCall(k: K)

  function After<K(==, !new)>(c: State<K>, call: Call<K>): State<K> {
    match call
    case GetCall(k) => Got(c, k)
    case InsertCall(k, v) => Inserted(c, k, v)
    case InvalidateCall(k) => Invalidated(c, k)
  }

  function Ran<K(==, !new)>(c: State<K>, calls: seq<Call<K>>): State<K>
    decreases |calls|
  {
    if calls == [] then c else Ran(After(c, calls[0]), calls[1..])
  }

  /** After any run from an empty cache no key is resident twice and both byte budgets hold. */
  lemma {:induction false} BudgetsHoldForever<K(!new)>(capBytes: nat, calls: seq<Call<K>>)
    ensures Ran(Fresh(capBytes), calls).Valid()
  {
    RunKeepsValid(Fresh(capBytes), calls);
  }

  lemma {:induction false} RunKeepsValid<K(!new)>(c: State<K>, calls: seq<Call<K>>)
    requires c.Valid()
    ensures Ran(c, calls).Valid()
    decreases |calls|
  {
    if calls != [] {
      match calls[0] {
        case GetCall(k) => GetKeepsEverything(c, k);
        case InsertCall(k, v) => InsertEvictsOnlyProbation(c, k, v);
        case InvalidateCall(k) => InvalidateRemovesExactly(c, k);
      }
      RunKeepsValid(After(c, calls[0]), calls[1..]);
    }
  }

  /** A stream of inserts under other keys, however long, never removes a value that has earned protection. */
  lemma {:induction false} HotEntrySurvivesColdStream<K(!new)>(c: State<K>, hot: (K, ByteSeq), calls: seq<Call<K>>)
    requires c.Valid() && hot in c.protected
    requires forall call | call in calls :: call.InsertCall? && call.k != hot.0
    ensures hot in Ran(c, calls).protected
    decreases |calls|
  {
    if calls != [] {
      assert calls[0] in calls;
      InsertEvictsOnlyProbation(c, calls[0].k, calls[0].v);
      WithoutMembers(c.protected, calls[0].k);
      HotEntrySurvivesColdStream(After(c, calls[0]), hot, calls[1..]);
    }
  }

  // ---- the cache object ----

  class RamCache<K(==, !new)> {
    var probation: Segment<K>
    var protected: Segment<K>
    var bytesProb: nat
    var bytesProt: nat
    const cap: nat
    const protectedCap: nat
    var hits: nat
    var misses: nat
    var evictions: nat
    var promotions: nat

    function Abs(): State<K>
      reads this
    {
      State(probation, protected, cap, protectedCap, Counters(hits, misses, evictions, promotions))
    }

    ghost predicate Counted()
      reads this
    {
      bytesProb == Weight(probation) && bytesProt == Weight(protected)
    }

    ghost predicate Valid()
      reads this
    {
      Counted() && Abs().Valid()
    }

    constructor (capBytes: nat)
      ensures Valid() && Abs() == Fresh(capBytes)
    {
      probation, protected, bytesProb, bytesProt := [], [], 0, 0;
      cap := if capBytes < 1 then 1 else capBytes;
      protectedCap := if capBytes / 10 * 8 < 1 then 1 else capBytes / 10 * 8;
      hits, misses, evictions, promotions := 0, 0, 0, 0;
    }

    method Get(k: K) returns (r: Option<ByteSeq>)
      requires Valid()
      modifies this
      ensures Valid() && Abs() == Got(old(Abs()), k)
      ensures r == Lookup(old(Abs().All()), k)
      ensures r.Some? ==> ((k, r.value) in protected <==> |r.value| <= protectedCap)
    {
      hide UniqueKeys, Excess, Weight;
      ghost var c := Abs();
      EditWeights(c, k);
      r := Lookup(protected, k);
      if r.Some? {
        WeightAppend(Without(protected, k), k, r.value);
        protected := Without(protected, k);
        protected := protected + [(k, r.value)];
        hits := hits + 1;
      } else {
        r := Lookup(probation, k);
        if r.Some? {
          WeightAppend(protected, k, r.value);
          probation := Without(probation, k);
          bytesProb := bytesProb - |r.value|;
          protected := protected + [(k, r.value)];
          bytesProt := bytesProt + |r.value|;
          hits := hits + 1;
          promotions := promotions + 1;
          assert Abs() == Promoted(c, k, r.value);
          EnforceProtectedCap();
          EnforceTotalCap();
        } else {
          misses := misses + 1;
        }
      }
      assert Abs() == Got(c, k);
      GetKeepsEverything(c, k);
      if r.Some? {
        HitIsProtected(c, k, r.value);
      }
    }

    method Insert(k: K, value: ByteSeq)
      requires Valid()
      modifies this
      ensures Valid() && Abs() == Inserted(old(Abs()), k, value)
    {
      ghost var c := Abs();
      Invalidate(k);
      WeightAppend(probation, k, value);
      probation := probation + [(k, value)];
      bytesProb := bytesProb + |value|;
      assert Abs() == Admitted(c, k, value);
      EnforceTotalCap();
      InsertedValid(c, k, value);
    }

    method Invalidate(k: K)
      requires Valid()
      modifies `probation, `protected, `bytesProb, `bytesProt
      ensures Valid() && Abs() == Invalidated(old(Abs()), k)
    {
      ghost var c := Abs();
      EditWeights(c, k);
      var warm := Lookup(probation, k);
      if warm.Some? {
        probation := Without(probation, k);
        bytesProb := bytesProb - |warm.value|;
      }
      var hot := Lookup(protected, k);
      if hot.Some? {
        protected := Without(protected, k);
        bytesProt := bytesProt - |hot.value|;
      }
      assert Abs() == Invalidated(c, k);
      InvalidateRemovesExactly(c, k);
    }

    method EnforceProtectedCap()
      requires Counted()
      modifies `probation, `protected, `bytesProb, `bytesProt
      ensures Counted() && Abs() == Demoted(old(Abs()))
    {
      hide Weight, Demoted;
      while bytesProt > protectedCap
        invariant Counted()
        invariant Demoted(Abs()) == Demoted(old(Abs()))
        decreases |protected|
      {
        DemoteStep(Abs());
        if protected == [] {
          break;
        }
        var (k, v) := protected[0];
        WeightAppend(probation, k, v);
        protected := protected[1..];
        bytesProt := bytesProt - |v|;
        probation := probation + [(k, v)];
        bytesProb := bytesProb + |v|;
      }
      NothingToDemote(Abs());
    }

    method EnforceTotalCap()
      requires Counted()
      modifies `probation, `protected, `bytesProb, `bytesProt, `evictions
      ensures Counted() && Abs() == Trimmed(old(Abs()))
    {
      hide Trimmed;
      while bytesProb + bytesProt > cap
        invariant Counted()
        invariant Trimmed(Abs()) == Trimmed(old(Abs()))
        decreases |probation| + |protected|
      {
        ghost var c := Abs();
        if probation != [] {
          bytesProb := bytesProb - |probation[0].1|;
          probation := probation[1..];
          evictions := evictions + 1;
        } else if protected != [] {
          bytesProt := bytesProt - |protected[0].1|;
          protected := protected[1..];
          evictions := evictions + 1;
        } else {
          break;
        }
        assert Abs() == EvictOldest(c);
        TrimStep(c);
      }
      NothingToTrim(Abs());
    }
  }
}
