/** The sliding-TTL cache of query results, and why its background sweep cannot be observed. */
module PathCaches {
  import opened Prelude
  import opened Sums
  import opened Ranking

  datatype Entry = Entry(paths: seq<ScoredPath>, expires: nat, bytes: nat)

  type Entries = map<Text, Entry>

  function PathsBytes(paths: seq<ScoredPath>): nat {
    if paths == [] then 0 else |paths[0].path| + 24 + PathsBytes(paths[1..])
  }

  function EntryBytes(query: Text, paths: seq<ScoredPath>): nat {
    |query| + 64 + PathsBytes(paths)
  }

  function SizesOf(m: Entries): map<Text, nat> {
    map q | q in m :: m[q].bytes
  }

  ghost function Weight(m: Entries): nat {
    Total(SizesOf(m), m.Keys)
  }

  // ---- what each call does to the entries ----

  predicate Alive(m: Entries, q: Text, now: nat) {
    q in m && m[q].expires > now
  }

  function Answer(m: Entries, q: Text, now: nat): Option<seq<ScoredPath>> {
    if Alive(m, q, now) then Some(m[q].paths) else None
  }

  /** A hit pushes the expiry out; a lookup of an expired entry drops it. */
  function Got(m: Entries, ttl: nat, q: Text, now: nat): Entries {
    if Alive(m, q, now) then m[q := m[q].(expires := now + ttl)] else m - {q}
  }

  function Swept(m: Entries, now: nat): Entries {
    map q | q in m && m[q].expires > now :: m[q]
  }

  /** Nothing that stays would have expired before something that went. */
  ghost predicate OldestFirst(m: Entries, evicted: set<Text>) {
    forall a, b | a in evicted && a in m && b in m && b !in evicted :: m[a].expires <= m[b].expires
  }

  /** The evicted entry that would have lived longest, and was needed too: with it back, nothing fits. */
  ghost predicate NeededToo(m: Entries, room: nat, evicted: set<Text>, last: Text) {
    && last in evicted && last in m
    && (forall a | a in evicted && a in m :: m[a].expires <= m[last].expires)
    && Weight(m - (evicted - {last})) > room
  }

  /** `evicted` is the shortest soonest-to-expire part of `m` whose removal leaves at most `room` bytes. */
  ghost predicate Evicts(m: Entries, room: nat, evicted: set<Text>) {
    EvictsSoFar(m, room, evicted) && Weight(m - evicted) <= room
  }

  /** No more has been evicted than has to be. */
  ghost predicate EvictsSoFar(m: Entries, room: nat, evicted: set<Text>) {
    && evicted <= m.Keys
    && OldestFirst(m, evicted)
    && (evicted != {} ==> exists last :: NeededToo(m, room, evicted, last))
  }

  lemma NothingEvicted(m: Entries, room: nat)
    ensures EvictsSoFar(m, room, {}) && m - {} == m
  {
  }

  predicate Skipped(cap: nat, q: Text, paths: seq<ScoredPath>) {
    paths == [] || EntryBytes(q, paths) > cap
  }

  function Fresh(ttl: nat, q: Text, paths: seq<ScoredPath>, now: nat): Entry {
    Entry(paths, now + ttl, EntryBytes(q, paths))
  }

  ghost predicate InsertedBy(m: Entries, cap: nat, ttl: nat, q: Text, paths: seq<ScoredPath>, now: nat,
                             evicted: set<Text>, m': Entries) {
    if Skipped(cap, q, paths) then evicted == {} && m' == m
    else
      && Evicts(m - {q}, cap - EntryBytes(q, paths), evicted)
      && m' == ((m - {q}) - evicted)[q := Fresh(ttl, q, paths, now)]
  }

  ghost predicate Inserted(m: Entries, cap: nat, ttl: nat, q: Text, paths: seq<ScoredPath>, now: nat, m': Entries) {
    exists evicted :: InsertedBy(m, cap, ttl, q, paths, now, evicted, m')
  }

  // ---- byte accounting ----

  lemma WeightWithout(m: Entries, q: Text)
    ensures q in m ==> Weight(m) == m[q].bytes + Weight(m - {q})
    ensures q !in m ==> m - {q} == m
  {
    if q in m {
      TotalSplit(SizesOf(m), m.Keys, q);
      TotalAgree(SizesOf(m), SizesOf(m - {q}), m.Keys - {q});
      assert (m - {q}).Keys == m.Keys - {q};
    }
  }

  lemma WeightWith(m: Entries, q: Text, e: Entry)
    requires q !in m
    ensures Weight(m[q := e]) == Weight(m) + e.bytes
  {
    WeightWithout(m[q := e], q);
    assert m[q := e] - {q} == m;
  }

  lemma WeightNone()
    ensures Weight(map[]) == 0
  {
  }

  lemma WeightOfPart(m: Entries, m': Entries)
    requires forall q | q in m' :: q in m && m[q].bytes == m'[q].bytes
    ensures Weight(m') <= Weight(m)
  {
    TotalAgree(SizesOf(m'), SizesOf(m), m'.Keys);
    TotalMonotone(SizesOf(m), m'.Keys, m.Keys);
  }

  // ---- what the byte count bounds ----

  /** The bytes of the paths themselves. */
  function TextBytes(paths: seq<ScoredPath>): nat {
    if paths == [] then 0 else TextBytes(paths[..|paths| - 1]) + |paths[|paths| - 1].path|
  }

  lemma {:induction false} PathsBytesSplit(a: seq<ScoredPath>, b: seq<ScoredPath>)
    ensures PathsBytes(a + b) == PathsBytes(a) + PathsBytes(b)
    decreases |a|
  {
    if a == [] {
      assert a + b == b;
    } else {
      assert (a + b)[1..] == a[1..] + b;
      PathsBytesSplit(a[1..], b);
    }
  }

  /** An entry is charged for its query and paths, 64 bytes more, and 24 for each path. */
  lemma {:induction false} EntryBytesCharged(query: Text, paths: seq<ScoredPath>)
    ensures EntryBytes(query, paths) == |query| + TextBytes(paths) + 24 * |paths| + 64
    decreases |paths|
  {
    if paths != [] {
      var n := |paths| - 1;
      EntryBytesCharged(query, paths[..n]);
      PathsBytesSplit(paths[..n], [paths[n]]);
      assert paths == paths[..n] + [paths[n]];
      assert PathsBytes([paths[n]]) == |paths[n].path| + 24;
    }
  }

  function OwnBytes(m: Entries): map<Text, nat> {
    map q | q in m :: |q| + TextBytes(m[q].paths)
  }

  lemma {:induction false} OwnBytesBelow(m: Entries, s: set<Text>)
    requires s <= m.Keys && forall q | q in m :: m[q].bytes == EntryBytes(q, m[q].paths)
    ensures Total(OwnBytes(m), s) + 64 * |s| <= Total(SizesOf(m), s)
    decreases s
  {
    if q :| q in s {
      TotalSplit(OwnBytes(m), s, q);
      TotalSplit(SizesOf(m), s, q);
      EntryBytesCharged(q, m[q].paths);
      OwnBytesBelow(m, s - {q});
    }
  }

  /** The cap bounds what is really held: the bytes of all resident queries and paths, and 64 more for each entry. */
  lemma CapBoundsContents(cache: PathTtlCache)
    requires cache.Valid()
    ensures Total(OwnBytes(cache.entries), cache.entries.Keys) + 64 * |cache.entries| <= cache.capBytes
  {
    hide EntryBytes;
    OwnBytesBelow(cache.entries, cache.entries.Keys);
    assert |cache.entries.Keys| == |cache.entries|;
  }

  // ---- the cache object ----

  class PathTtlCache {
    const ttl: nat
    const capBytes: nat
    var entries: Entries
    var totalBytes: nat
    var hits: nat
    var misses: nat
    var expired: nat
    var evictions: nat

    /** The byte count is exact and within the budget. */
    ghost predicate Valid()
      reads this
    {
      && totalBytes == Weight(entries) <= capBytes
      && forall q | q in entries :: entries[q].bytes == EntryBytes(q, entries[q].paths) && entries[q].paths != []
    }

    constructor (ttl: nat, capBytes: nat)
      ensures Valid() && entries == map[] && this.ttl == ttl && this.capBytes == capBytes
      ensures hits == misses == expired == evictions == 0
    {
      this.ttl, this.capBytes := ttl, capBytes;
      entries, totalBytes, hits, misses, expired, evictions := map[], 0, 0, 0, 0, 0;
    }

    method Get(query: Text, now: nat) returns (r: Option<seq<ScoredPath>>)
      requires Valid()
      modifies this
      ensures Valid()
      ensures entries == Got(old(entries), ttl, query, now) && r == Answer(old(entries), query, now)
      ensures hits + misses == old(hits + misses) + 1 && (r.Some? <==> hits > old(hits))
      ensures expired == old(expired) + if query in old(entries) && r.None? then 1 else 0
      ensures evictions == old(evictions)
    {
      hide Weight, PathsBytes;
      WeightWithout(entries, query);
      if query !in entries {
        misses := misses + 1;
        return None;
      }
      var e := entries[query];
      if e.expires > now {
        WeightWith(entries - {query}, query, e.(expires := now + ttl));
        assert entries[query := e.(expires := now + ttl)] == (entries - {query})[query := e.(expires := now + ttl)];
        entries := entries[query := e.(expires := now + ttl)];
        hits := hits + 1;
        return Some(e.paths);
      }
      entries := entries - {query};
      totalBytes := totalBytes - e.bytes;
      expired := expired + 1;
      misses := misses + 1;
      return None;
    }

    method Insert(query: Text, paths: seq<ScoredPath>, now: nat)
      requires Valid()
      modifies `entries, `totalBytes, `evictions
      ensures Valid()
      ensures exists evicted ::
                && InsertedBy(old(entries), capBytes, ttl, query, paths, now, evicted, entries)
                && evictions == old(evictions) + |evicted|
    {
      hide Weight, PathsBytes, Evicts;
      if paths == [] {
        assert InsertedBy(entries, capBytes, ttl, query, paths, now, {}, entries);
        return;
      }
      var bytes := EntryBytes(query, paths);
      if bytes > capBytes {
        assert InsertedBy(entries, capBytes, ttl, query, paths, now, {}, entries);
        return;
      }
      ghost var m := entries;
      if query in entries {
        Drop(query);
      }
      assert entries == m - {query};
      ghost var evicted := InsertNew(query, Entry(paths, now + ttl, bytes));
      assert InsertedBy(m, capBytes, ttl, query, paths, now, evicted, entries);
    }

    method InsertNew(query: Text, e: Entry) returns (ghost evicted: set<Text>)
      requires Valid() && query !in entries
      requires e.bytes == EntryBytes(query, e.paths) <= capBytes && e.paths != []
      modifies `entries, `totalBytes, `evictions
      ensures Valid() && Evicts(old(entries), capBytes - e.bytes, evicted)
      ensures entries == (old(entries) - evicted)[query := e] && evictions == old(evictions) + |evicted|
    {
      evicted := MakeRoom(capBytes - e.bytes);
      WeightWith(entries, query, e);
      totalBytes := totalBytes + e.bytes;
      entries := entries[query := e];
    }

    /** Evict the entries closest to death until at most `room` bytes are left. */
    method MakeRoom(room: nat) returns (ghost evicted: set<Text>)
      requires Valid()
      modifies `entries, `totalBytes, `evictions
      ensures Valid() && entries == old(entries) - evicted && Evicts(old(entries), room, evicted)
      ensures evictions == old(evictions) + |evicted|
    {
      hide EvictsSoFar, EntryBytes, Weight;
      ghost var m := entries;
      evicted := {};
      NothingEvicted(m, room);
      WeightNone();
      while totalBytes > room
        invariant Valid() && entries == m - evicted && EvictsSoFar(m, room, evicted)
        invariant evictions == old(evictions) + |evicted|
        decreases |entries|
      {
        if entries == map[] {
          break;
        }
        var victim := SoonestToExpire();
        EvictStep(m, room, evicted, victim);
        Drop(victim);
        evictions := evictions + 1;
        evicted := evicted + {victim};
      }
    }

    method Drop(q: Text)
      requires Valid() && q in entries
      modifies `entries, `totalBytes
      ensures Valid() && entries == old(entries) - {q} && |entries| < |old(entries)|
    {
      WeightWithout(entries, q);
      FewerEntries(entries, q);
      totalBytes := totalBytes - entries[q].bytes;
      entries := entries - {q};
    }

    method SoonestToExpire() returns (victim: Text)
      requires entries != map[]
      ensures victim in entries && forall q | q in entries :: entries[victim].expires <= entries[q].expires
    {
      var todo := entries.Keys;
      victim :| victim in todo;
      todo := todo - {victim};
      while todo != {}
        invariant victim in entries && todo <= entries.Keys
        invariant forall q | q in entries && q !in todo :: entries[victim].expires <= entries[q].expires
      {
        var q :| q in todo;
        if entries[q].expires < entries[victim].expires {
          victim := q;
        }
        todo := todo - {q};
      }
    }

    method Sweep(now: nat)
      requires Valid()
      modifies `entries, `totalBytes, `expired
      ensures Valid()
      ensures entries == Swept(old(entries), now)
      ensures forall q :: q in entries <==> q in old(entries) && old(entries)[q].expires > now
      ensures forall q | q in entries :: entries[q] == old(entries)[q]
      ensures expired == old(expired) + |set q | q in old(entries) && old(entries)[q].expires <= now|
    {
      hide Weight, PathsBytes;
      ghost var m := entries;
      var dead := set q | q in entries && entries[q].expires <= now;
      ghost var count := |dead|;
      while dead != {}
        invariant Valid() && forall q | q in dead :: q in m && m[q].expires <= now
        invariant forall q :: q in entries <==> q in m && (q in dead || m[q].expires > now)
        invariant forall q | q in entries :: entries[q] == m[q]
        invariant expired == old(expired) + count - |dead|
      {
        var q :| q in dead;
        Drop(q);
        expired := expired + 1;
        dead := dead - {q};
      }
    }
  }

  /** Evicting the entry closest to death keeps the eviction minimal so far. */
  lemma EvictStep(m: Entries, room: nat, evicted: set<Text>, victim: Text)
    requires EvictsSoFar(m, room, evicted) && Weight(m - evicted) > room
    requires victim in m - evicted
    requires forall q | q in m - evicted :: m[victim].expires <= m[q].expires
    ensures EvictsSoFar(m, room, evicted + {victim})
    ensures m - (evicted + {victim}) == (m - evicted) - {victim} && |evicted + {victim}| == |evicted| + 1
  {
    assert evicted + {victim} - {victim} == evicted;
    assert NeededToo(m, room, evicted + {victim}, victim);
  }

  lemma FewerEntries(m: Entries, q: Text)
    requires q in m
    ensures |m - {q}| < |m|
  {
    assert (m - {q}).Keys == m.Keys - {q};
    assert |(m - {q}).Keys| == |m - {q}| && |m.Keys| == |m|;
  }
}

/** Two caches under the same requests, one of them swept at arbitrary moments, always answer alike. */
module SweepInvisible {
  import opened Prelude
  import opened PathCaches
  import opened Ranking

  datatype Request =
    | Get(q: Text, now: nat)
    | Insert(q: Text, paths: seq<ScoredPath>, now: nat)
    | Sweep(now: nat)

  ghost predicate Step(cap: nat, ttl: nat, m: Entries, r: Request, m': Entries) {
    match r
    case Get(q, now) => m' == Got(m, ttl, q, now)
    case Insert(q, paths, now) => Inserted(m, cap, ttl, q, paths, now, m')
    case Sweep(now) => m' == Swept(m, now)
  }

  /** A cache that ignores sweeps. */
  ghost predicate StepUnswept(cap: nat, ttl: nat, m: Entries, r: Request, m': Entries) {
    if r.Sweep? then m' == m else Step(cap, ttl, m, r, m')
  }

  /** Same entries, as far as anyone asking after `now` can tell. */
  ghost predicate SameLive(a: Entries, b: Entries, now: nat) {
    && (forall q | Alive(a, q, now) :: Alive(b, q, now) && b[q] == a[q])
    && (forall q | Alive(b, q, now) :: Alive(a, q, now))
  }

  /** No two entries expire at the same moment. */
  ghost predicate Distinct(m: Entries) {
    forall p, q | p in m && q in m && m[p].expires == m[q].expires :: p == q
  }

  ghost predicate ExpireBy(m: Entries, latest: int) {
    forall q | q in m :: m[q].expires <= latest
  }

  /**
   * With the same live entries and the same room to make, both caches evict the same live entries: expired
   * ones go first, and the live ones are ranked alike.
   */
  lemma EvictedLiveAlike(a: Entries, b: Entries, now: nat, room: nat, evA: set<Text>, evB: set<Text>, x: Text)
    requires SameLive(a, b, now) && Distinct(a) && Distinct(b)
    requires Evicts(a, room, evA) && Evicts(b, room, evB)
    requires Alive(b, x, now) && x in evB
    ensures x in evA
  {
    if x !in evA {
      var last :| NeededToo(b, room, evB, last);
      assert Alive(b, last, now) && Alive(a, last, now);
      assert last !in evA;
      var kept := b - (evB - {last});
      forall y | y in kept ensures y in a - evA && (a - evA)[y].bytes == kept[y].bytes {
        if y != last {
          assert b[last].expires <= b[y].expires;
          assert Alive(b, y, now);
        }
      }
      WeightOfPart(a - evA, kept);
      assert false;
    }
  }

  lemma InsertAlike(cap: nat, ttl: nat, a: Entries, b: Entries, q: Text, paths: seq<ScoredPath>, now: nat,
                    a': Entries, b': Entries)
    requires SameLive(a, b, now) && Distinct(a) && Distinct(b)
    requires Inserted(a, cap, ttl, q, paths, now, a') && Inserted(b, cap, ttl, q, paths, now, b')
    ensures SameLive(a', b', now)
  {
    if !Skipped(cap, q, paths) {
      var room := cap - EntryBytes(q, paths);
      var evA :| InsertedBy(a, cap, ttl, q, paths, now, evA, a');
      var evB :| InsertedBy(b, cap, ttl, q, paths, now, evB, b');
      BaseAlike(a, b, q, now);
      FittedAlike(a - {q}, b - {q}, now, room, evA, evB, q, Fresh(ttl, q, paths, now));
    }
  }

  lemma FittedAlike(a: Entries, b: Entries, now: nat, room: nat, evA: set<Text>, evB: set<Text>, q: Text, e: Entry)
    requires SameLive(a, b, now) && Distinct(a) && Distinct(b)
    requires Evicts(a, room, evA) && Evicts(b, room, evB)
    ensures SameLive((a - evA)[q := e], (b - evB)[q := e], now)
  {
    EvictedAlike(a, b, now, room, evA, evB);
    RestAlike(a, b, now, evA, evB);
    AddedAlike(a - evA, b - evB, now, q, e);
  }

  lemma AddedAlike(a: Entries, b: Entries, now: nat, q: Text, e: Entry)
    requires SameLive(a, b, now)
    ensures SameLive(a[q := e], b[q := e], now)
  {
    var a', b' := a[q := e], b[q := e];
    forall x | Alive(a', x, now) ensures Alive(b', x, now) && b'[x] == a'[x] {
      assert x != q ==> Alive(a, x, now);
    }
    forall x | Alive(b', x, now) ensures Alive(a', x, now) {
      assert x != q ==> Alive(b, x, now);
    }
  }

  lemma BaseAlike(a: Entries, b: Entries, q: Text, now: nat)
    requires SameLive(a, b, now) && Distinct(a) && Distinct(b)
    ensures SameLive(a - {q}, b - {q}, now) && Distinct(a - {q}) && Distinct(b - {q})
  {
    assert forall x | Alive(a - {q}, x, now) :: Alive(a, x, now);
    assert forall x | Alive(b - {q}, x, now) :: Alive(b, x, now);
  }

  lemma EvictedAlike(a: Entries, b: Entries, now: nat, room: nat, evA: set<Text>, evB: set<Text>)
    requires SameLive(a, b, now) && Distinct(a) && Distinct(b)
    requires Evicts(a, room, evA) && Evicts(b, room, evB)
    ensures forall x | Alive(a, x, now) :: x in evA <==> x in evB
  {
    forall x | Alive(a, x, now) ensures x in evA <==> x in evB {
      assert Alive(b, x, now);
      if x in evB {
        EvictedLiveAlike(a, b, now, room, evA, evB, x);
      }
      if x in evA {
        SameLiveBack(a, b, now);
        EvictedLiveAlike(b, a, now, room, evB, evA, x);
      }
    }
  }

  lemma SameLiveBack(a: Entries, b: Entries, now: nat)
    requires SameLive(a, b, now)
    ensures SameLive(b, a, now)
  {
  }

  lemma RestAlike(a: Entries, b: Entries, now: nat, evA: set<Text>, evB: set<Text>)
    requires SameLive(a, b, now) && forall x | Alive(a, x, now) :: x in evA <==> x in evB
    ensures SameLive(a - evA, b - evB, now)
  {
    forall x | Alive(a - evA, x, now) ensures Alive(b - evB, x, now) && (b - evB)[x] == (a - evA)[x] {
      assert Alive(a, x, now);
    }
    forall x | Alive(b - evB, x, now) ensures Alive(a - evA, x, now) {
      assert Alive(b, x, now) && Alive(a, x, now);
    }
  }

  /** What relates the two caches between requests, the last of which was at `t`. */
  ghost predicate Related(a: Entries, b: Entries, t: nat) {
    SameLive(a, b, t) && Distinct(a) && Distinct(b)
  }

  function TimeOf(r: Request): nat {
    r.now
  }

  /** Requests come in time order, and no two lookups or inserts at the same moment. */
  ghost predicate Timed(rs: seq<Request>) {
    forall i, j | 0 <= i < j < |rs| ::
      if rs[i].Sweep? || rs[j].Sweep? then TimeOf(rs[i]) <= TimeOf(rs[j]) else TimeOf(rs[i]) < TimeOf(rs[j])
  }

  lemma SameLiveLater(a: Entries, b: Entries, t: nat, now: nat)
    requires SameLive(a, b, t) && t <= now
    ensures SameLive(a, b, now)
  {
    forall q | Alive(a, q, now) ensures Alive(b, q, now) && b[q] == a[q] {
      assert Alive(a, q, t);
    }
    forall q | Alive(b, q, now) ensures Alive(a, q, now) {
      assert Alive(b, q, t);
      assert Alive(a, q, t);
    }
  }

  /** A touch at a later moment than all before it cannot collide with any expiry. */
  lemma TouchKeepsDistinct(cap: nat, ttl: nat, m: Entries, r: Request, m': Entries, touched: int)
    requires Step(cap, ttl, m, r, m') && Distinct(m) && ExpireBy(m, touched + ttl)
    requires r.Sweep? || touched < TimeOf(r)
    ensures Distinct(m')
    ensures ExpireBy(m', (if r.Sweep? then touched else TimeOf(r)) + ttl)
  {
    if r.Insert? && !Skipped(cap, r.q, r.paths) {
      var evicted :| InsertedBy(m, cap, ttl, r.q, r.paths, r.now, evicted, m');
    }
  }

  lemma StepRelated(cap: nat, ttl: nat, a: Entries, b: Entries, r: Request, a': Entries, b': Entries, t: nat,
                    touched: int)
    requires Related(a, b, t) && t <= TimeOf(r) && ExpireBy(a, touched + ttl) && ExpireBy(b, touched + ttl)
    requires r.Sweep? || touched < TimeOf(r)
    requires StepUnswept(cap, ttl, a, r, a') && Step(cap, ttl, b, r, b')
    ensures Related(a', b', TimeOf(r))
  {
    SameLiveLater(a, b, t, TimeOf(r));
    TouchKeepsDistinct(cap, ttl, b, r, b', touched);
    match r
    case Sweep(now) =>
      assert forall q :: Alive(b', q, now) <==> Alive(b, q, now);
    case Get(q, now) =>
      TouchKeepsDistinct(cap, ttl, a, r, a', touched);
      GetAlike(ttl, a, b, q, now);
    case Insert(q, paths, now) =>
      TouchKeepsDistinct(cap, ttl, a, r, a', touched);
      InsertAlike(cap, ttl, a, b, q, paths, now, a', b');
  }

  lemma GetAlike(ttl: nat, a: Entries, b: Entries, q: Text, now: nat)
    requires SameLive(a, b, now)
    ensures SameLive(Got(a, ttl, q, now), Got(b, ttl, q, now), now)
  {
    var a', b' := Got(a, ttl, q, now), Got(b, ttl, q, now);
    assert Alive(a, q, now) <==> Alive(b, q, now);
    forall x | Alive(a', x, now) ensures Alive(b', x, now) && b'[x] == a'[x] {
      assert x != q ==> Alive(a, x, now);
    }
    forall x | Alive(b', x, now) ensures Alive(a', x, now) {
      assert x != q ==> Alive(b, x, now);
    }
  }

  ghost predicate Runs(cap: nat, ttl: nat, rs: seq<Request>, unswept: seq<Entries>, swept: seq<Entries>) {
    && |unswept| == |swept| == |rs| + 1
    && unswept[0] == map[] && swept[0] == map[]
    && forall i | 0 <= i < |rs| ::
         StepUnswept(cap, ttl, unswept[i], rs[i], unswept[i + 1]) && Step(cap, ttl, swept[i], rs[i], swept[i + 1])
  }

  function LastTime(rs: seq<Request>, n: nat): nat
    requires n <= |rs|
  {
    if n == 0 then 0 else TimeOf(rs[n - 1])
  }

  /** The moment of the last lookup or insert among the first `n` requests. */
  function LastTouch(rs: seq<Request>, n: nat): int
    requires n <= |rs|
  {
    if n == 0 then -1
    else if rs[n - 1].Sweep? then LastTouch(rs, n - 1)
    else TimeOf(rs[n - 1])
  }

  lemma {:induction false} TouchedBefore(rs: seq<Request>, n: nat, k: nat)
    requires n <= k < |rs| && Timed(rs) && !rs[k].Sweep?
    ensures LastTouch(rs, n) < TimeOf(rs[k])
    decreases n
  {
    if n > 0 && rs[n - 1].Sweep? {
      TouchedBefore(rs, n - 1, k);
    }
  }

  lemma {:induction false} StaysRelated(
    cap: nat, ttl: nat, rs: seq<Request>, unswept: seq<Entries>, swept: seq<Entries>, n: nat)
    requires Runs(cap, ttl, rs, unswept, swept) && Timed(rs) && n <= |rs|
    ensures Related(unswept[n], swept[n], LastTime(rs, n))
    ensures ExpireBy(unswept[n], LastTouch(rs, n) + ttl) && ExpireBy(swept[n], LastTouch(rs, n) + ttl)
    decreases n
  {
    if n > 0 {
      StaysRelated(cap, ttl, rs, unswept, swept, n - 1);
      var r, touched := rs[n - 1], LastTouch(rs, n - 1);
      if !r.Sweep? {
        TouchedBefore(rs, n - 1, n - 1);
        TouchKeepsDistinct(cap, ttl, unswept[n - 1], r, unswept[n], touched);
      }
      TouchKeepsDistinct(cap, ttl, swept[n - 1], r, swept[n], touched);
      StepRelated(cap, ttl, unswept[n - 1], swept[n - 1], r, unswept[n], swept[n], LastTime(rs, n - 1), touched);
    }
  }

  /**
   * Sweeping is invisible: over any timed run, a cache that is swept at arbitrary moments and one that never
   * is answer every lookup alike, evictions included.
   */
  lemma SweepingIsInvisible(cap: nat, ttl: nat, rs: seq<Request>, unswept: seq<Entries>, swept: seq<Entries>, n: nat)
    requires Runs(cap, ttl, rs, unswept, swept) && Timed(rs) && n < |rs| && rs[n].Get?
    ensures Answer(unswept[n], rs[n].q, rs[n].now) == Answer(swept[n], rs[n].q, rs[n].now)
  {
    StaysRelated(cap, ttl, rs, unswept, swept, n);
    SameLiveLater(unswept[n], swept[n], LastTime(rs, n), rs[n].now);
  }

  // ---- sliding expiry ----

  /** The request stores or refreshes the entry for `q`. */
  ghost predicate Touches(cap: nat, m: Entries, r: Request, q: Text) {
    match r
    case Get(p, now) => p == q && Alive(m, q, now)
    case Insert(p, paths, _) => p == q && !Skipped(cap, p, paths)
    case Sweep(_) => false
  }

  ghost predicate Run(cap: nat, ttl: nat, rs: seq<Request>, ms: seq<Entries>) {
    |ms| == |rs| + 1 && ms[0] == map[] && forall i | 0 <= i < |rs| :: Step(cap, ttl, ms[i], rs[i], ms[i + 1])
  }

  lemma {:induction false} EntryRemembersTouch(cap: nat, ttl: nat, rs: seq<Request>, ms: seq<Entries>, n: nat, q: Text)
    returns (j: nat)
    requires Run(cap, ttl, rs, ms) && n <= |rs| && q in ms[n]
    ensures j < n && Touches(cap, ms[j], rs[j], q) && ms[n][q].expires == TimeOf(rs[j]) + ttl
    ensures q in ms[j + 1] && ms[j + 1][q].paths == ms[n][q].paths
    decreases n
  {
    var m, r := ms[n - 1], rs[n - 1];
    if Touches(cap, m, r, q) {
      if r.Insert? {
        var evicted :| InsertedBy(m, cap, ttl, r.q, r.paths, r.now, evicted, ms[n]);
      }
      j := n - 1;
    } else {
      if r.Insert? {
        var evicted :| InsertedBy(m, cap, ttl, r.q, r.paths, r.now, evicted, ms[n]);
      }
      assert q in m && ms[n][q] == m[q];
      j := EntryRemembersTouch(cap, ttl, rs, ms, n - 1, q);
    }
  }

  /**
   * A hit needs every gap to be short: the result was stored or last refreshed less than one TTL before, by
   * an insert, or by a hit that needed the same.
   */
  lemma HitNeedsRecentTouch(cap: nat, ttl: nat, rs: seq<Request>, ms: seq<Entries>, n: nat) returns (j: nat)
    requires Run(cap, ttl, rs, ms) && n < |rs| && rs[n].Get? && Answer(ms[n], rs[n].q, rs[n].now).Some?
    ensures j < n && Touches(cap, ms[j], rs[j], rs[n].q) && rs[n].now < TimeOf(rs[j]) + ttl
    ensures match rs[j]
            case Insert(_, paths, _) => Answer(ms[n], rs[n].q, rs[n].now) == Some(paths)
            case Get(q, now) => Answer(ms[n], rs[n].q, rs[n].now) == Answer(ms[j], q, now)
            case Sweep(_) => false
  {
    j := EntryRemembersTouch(cap, ttl, rs, ms, n, rs[n].q);
    if rs[j].Insert? {
      var evicted :| InsertedBy(ms[j], cap, ttl, rs[j].q, rs[j].paths, rs[j].now, evicted, ms[j + 1]);
    }
  }

  /**
   * Touches of `q` before request `n`: first an insert, then hits, each less than one TTL after the touch before
   * it.
   */
  ghost predicate Chain(cap: nat, ttl: nat, rs: seq<Request>, ms: seq<Entries>, q: Text, touches: seq<nat>, n: nat)
    requires |ms| == |rs| + 1 && n <= |rs|
    decreases |touches|
  {
    touches != [] &&
    var last := |touches| - 1;
    var k := touches[last];
    && k < n && Touches(cap, ms[k], rs[k], q)
    && if last == 0 then rs[k].Insert?
       else
         && rs[k].Get? && Chain(cap, ttl, rs, ms, q, touches[..last], k)
         && TimeOf(rs[k]) < TimeOf(rs[touches[last - 1]]) + ttl
  }

  /**
   * A hit answers what an insert stored, and needs every gap between successive touches since that insert to be
   * shorter than the TTL.
   */
  lemma {:induction false} HitNeedsUnbrokenChain(cap: nat, ttl: nat, rs: seq<Request>, ms: seq<Entries>, n: nat)
    returns (touches: seq<nat>)
    requires Run(cap, ttl, rs, ms) && n < |rs| && rs[n].Get? && Answer(ms[n], rs[n].q, rs[n].now).Some?
    ensures Chain(cap, ttl, rs, ms, rs[n].q, touches, n)
    ensures rs[n].now < TimeOf(rs[touches[|touches| - 1]]) + ttl
    ensures touches[0] < n && rs[touches[0]].Insert?
    ensures Answer(ms[n], rs[n].q, rs[n].now) == Some(rs[touches[0]].paths)
    decreases n
  {
    assert |ms| == |rs| + 1;
    hide Run, Answer;
    var j := HitNeedsRecentTouch(cap, ttl, rs, ms, n);
    if rs[j].Insert? {
      touches := [j];
    } else {
      AliveIsAnswered(ms[j], rs[j].q, rs[j].now);
      var earlier := HitNeedsUnbrokenChain(cap, ttl, rs, ms, j);
      touches := earlier + [j];
      assert touches[..|earlier|] == earlier;
    }
  }

  lemma AliveIsAnswered(m: Entries, q: Text, now: nat)
    requires Alive(m, q, now)
    ensures Answer(m, q, now).Some?
  {
  }

  // ---- when a lookup must hit ----

  /** What a request leaves cached under its query: what it stores, or what it is answered. */
  ghost function LeftBy(cap: nat, m: Entries, r: Request): Option<seq<ScoredPath>> {
    match r
    case Get(q, now) => Answer(m, q, now)
    case Insert(q, paths, _) => if paths != [] && EntryBytes(q, paths) <= cap then Some(paths) else None
    case Sweep(_) => None
  }

  /** The request stores nothing, or something under another query that fits beside everything resident. */
  ghost predicate LeavesRoom(cap: nat, m: Entries, r: Request, q: Text) {
    r.Insert? ==>
      r.paths == [] || EntryBytes(r.q, r.paths) > cap || (r.q != q && Weight(m) + EntryBytes(r.q, r.paths) <= cap)
  }

  /** With room enough, nothing is evicted. */
  lemma RoomEvictsNothing(m: Entries, q: Text, room: nat, evicted: set<Text>)
    requires Weight(m) <= room && Evicts(m - {q}, room, evicted)
    ensures evicted == {}
  {
    if last :| NeededToo(m - {q}, room, evicted, last) {
      hide Weight;
      WeightOfPart(m, (m - {q}) - (evicted - {last}));
    }
  }

  /** An entry that stays in the cache is only ever given a later expiry. */
  lemma StepKeepsEntry(cap: nat, ttl: nat, m: Entries, r: Request, m': Entries, q: Text)
    requires Step(cap, ttl, m, r, m') && LeavesRoom(cap, m, r, q) && Alive(m, q, TimeOf(r))
    ensures q in m' && m'[q].paths == m[q].paths
    ensures m'[q].expires == if r.Get? && r.q == q then TimeOf(r) + ttl else m[q].expires
  {
    hide Weight, EntryBytes, Evicts;
    if r.Insert? && !Skipped(cap, r.q, r.paths) {
      var evicted :| InsertedBy(m, cap, ttl, r.q, r.paths, r.now, evicted, m');
      RoomEvictsNothing(m, r.q, cap - EntryBytes(r.q, r.paths), evicted);
    }
  }

  lemma TouchStarts(cap: nat, ttl: nat, m: Entries, r: Request, m': Entries)
    requires Step(cap, ttl, m, r, m') && LeftBy(cap, m, r).Some?
    ensures r.q in m' && LeftBy(cap, m, r) == Some(m'[r.q].paths) && m'[r.q].expires == TimeOf(r) + ttl
  {
    hide Evicts;
    if r.Insert? {
      var evicted :| InsertedBy(m, cap, ttl, r.q, r.paths, r.now, evicted, m');
    }
  }

  /** For one TTL after it was stored or answered, an entry with room beside it is there, and unexpired. */
  lemma {:induction false} EntryOutlivesTtl(
    cap: nat, ttl: nat, rs: seq<Request>, ms: seq<Entries>, j: nat, n: nat)
    requires Run(cap, ttl, rs, ms) && Timed(rs) && j < n <= |rs| && LeftBy(cap, ms[j], rs[j]).Some?
    requires forall i | j < i < n :: TimeOf(rs[i]) < TimeOf(rs[j]) + ttl && LeavesRoom(cap, ms[i], rs[i], rs[j].q)
    ensures rs[j].q in ms[n] && LeftBy(cap, ms[j], rs[j]) == Some(ms[n][rs[j].q].paths)
    ensures ms[n][rs[j].q].expires >= TimeOf(rs[j]) + ttl
    decreases n
  {
    var q := rs[j].q;
    hide Step, LeftBy, LeavesRoom;
    if n == j + 1 {
      TouchStarts(cap, ttl, ms[j], rs[j], ms[n]);
    } else {
      EntryOutlivesTtl(cap, ttl, rs, ms, j, n - 1);
      StepKeepsEntry(cap, ttl, ms[n - 1], rs[n - 1], ms[n], q);
    }
  }

  /**
   * The expiry slides: a lookup less than one TTL after its result was stored or last answered is a hit, and
   * answers the same, however often sweeps, other lookups, and inserts that need no eviction come in between.
   */
  lemma LookupWithinTtlHits(cap: nat, ttl: nat, rs: seq<Request>, ms: seq<Entries>, j: nat, n: nat)
    requires Run(cap, ttl, rs, ms) && Timed(rs) && j < n < |rs| && LeftBy(cap, ms[j], rs[j]).Some?
    requires rs[n].Get? && rs[n].q == rs[j].q && rs[n].now < TimeOf(rs[j]) + ttl
    requires forall i | j < i < n :: LeavesRoom(cap, ms[i], rs[i], rs[j].q)
    ensures Answer(ms[n], rs[n].q, rs[n].now) == LeftBy(cap, ms[j], rs[j])
  {
    hide Step, LeftBy, LeavesRoom;
    forall i | j < i < n ensures TimeOf(rs[i]) < TimeOf(rs[j]) + ttl {
      assert TimeOf(rs[i]) <= TimeOf(rs[n]);
    }
    EntryOutlivesTtl(cap, ttl, rs, ms, j, n);
  }
}
