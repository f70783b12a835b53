/** The content-addressed, append-only block log: what is on disk, and what each operation does to it. */
module BlockLogs {
  import opened Prelude
  import opened Bytes
  import opened Digests
  import opened Sums

  const BLOCK_SIZE: nat := 65536
  const U32_LIMIT: nat := 0x1_0000_0000
  const U64_LIMIT: nat := 0x1_0000_0000_0000_0000

  /** Where a block's bytes lie in the log. */
  datatype Loc = Loc(offset: nat, len: nat)

  type Index = map<Digest, Loc>

  datatype Disk = Disk(log: ByteSeq, index: Index)

  // ---- the 12-byte index value ----

  function Enc(l: Loc): (v: ByteSeq)
    ensures |v| == 12
  {
    LittleEndian(l.offset, 8) + LittleEndian(l.len, 4)
  }

  function Dec(v: ByteSeq): Loc
    requires |v| == 12
  {
    Loc(FromLittleEndian(v[..8]), FromLittleEndian(v[8..12]))
  }

  /** Every location a 64-bit offset and 32-bit length can name survives the index encoding. */
  lemma DecEnc(l: Loc)
    requires l.offset < U64_LIMIT && l.len < U32_LIMIT
    ensures Dec(Enc(l)) == l
  {
    assert Enc(l)[..8] == LittleEndian(l.offset, 8);
    assert Enc(l)[8..12] == LittleEndian(l.len, 4);
    assert Pow256(2) == 0x1_0000;
    assert Pow256(4) == U32_LIMIT;
    assert Pow256(6) == 0x1_0000_0000_0000;
    assert Pow256(8) == U64_LIMIT;
    LittleEndianRoundTrip(l.offset, 8);
    LittleEndianRoundTrip(l.len, 4);
  }

  /** The layout: eight bytes of offset, then four of length, each least significant first. */
  lemma EncLayout(l: Loc, i: nat)
    requires i < 12
    ensures Enc(l)[i] as int == if i < 8 then l.offset / Pow256(i) % 256 else l.len / Pow256(i - 8) % 256
  {
    if i < 8 {
      LittleEndianByte(l.offset, 8, i);
    } else {
      LittleEndianByte(l.len, 4, i - 8);
    }
  }

  /** No two index values mean the same location. */
  lemma EncDec(v: ByteSeq)
    requires |v| == 12
    ensures Enc(Dec(v)) == v
  {
    FromLittleEndianRoundTrip(v[..8]);
    FromLittleEndianRoundTrip(v[8..12]);
    assert v == v[..8] + v[8..12];
  }

  // ---- reading ----

  /**
   * `read_exact` at a location: nothing if the bytes asked for reach past the end of the log. Reading no bytes at
   * all succeeds wherever the location points.
   */
  function ReadExact(log: ByteSeq, l: Loc): Option<ByteSeq> {
    if l.len == 0 then Some([])
    else if l.offset + l.len <= |log| then Some(log[l.offset..l.offset + l.len])
    else None
  }

  function ReadBlock(d: Disk, k: Digest): Option<ByteSeq> {
    if k in d.index then ReadExact(d.log, d.index[k]) else None
  }

  /** What an uncached read of an address answers, on any disk at all. */
  function Fetched(h: Hasher, d: Disk, k: Digest): Result<ByteSeq> {
    if k !in d.index then Err(BlockNotFound)
    else
      match ReadExact(d.log, d.index[k])
      case None => Err(ShortRead)
      case Some(b) => if h(b) == k then Ok(b) else Err(IntegrityFailure)
  }

  ghost predicate Intact(h: Hasher, d: Disk, k: Digest) {
    Fetched(h, d, k).Ok?
  }

  /** No stored block is damaged: every index entry leads to bytes that hash to its key. */
  ghost predicate Sound(h: Hasher, d: Disk) {
    forall k | k in d.index :: Intact(h, d, k)
  }

  function StoredBlocks(d: Disk): map<Digest, ByteSeq> {
    map k | k in d.index && ReadBlock(d, k).Some? :: ReadBlock(d, k).value
  }

  // ---- writing ----

  function Record(bytes: ByteSeq): (r: ByteSeq)
    ensures |r| == 4 + |bytes|
  {
    LittleEndian(|bytes|, 4) + bytes
  }

  function Appended(d: Disk, k: Digest, bytes: ByteSeq): Disk {
    Disk(d.log + Record(bytes), d.index[k := Loc(|d.log| + 4, |bytes|)])
  }

  /** Storing a block: nothing to do when its address is already indexed. */
  function Stored(h: Hasher, d: Disk, bytes: ByteSeq): Disk {
    if h(bytes) in d.index then d else Appended(d, h(bytes), bytes)
  }

  /** Appending leaves every earlier location readable as before, and the new one reads the new bytes. */
  lemma AppendReads(log: ByteSeq, bytes: ByteSeq, l: Loc)
    ensures ReadExact(log, l).Some? ==> ReadExact(log + Record(bytes), l) == ReadExact(log, l)
    ensures ReadExact(log + Record(bytes), Loc(|log| + 4, |bytes|)) == Some(bytes)
  {
    assert (log + Record(bytes))[|log| + 4..|log| + 4 + |bytes|] == bytes;
    if ReadExact(log, l).Some? && l.len > 0 {
      assert (log + Record(bytes))[l.offset..l.offset + l.len] == log[l.offset..l.offset + l.len];
    }
  }

  lemma StoredAt(h: Hasher, d: Disk, bytes: ByteSeq, x: Digest)
    requires Sound(h, d) && x in Stored(h, d, bytes).index
    ensures Intact(h, Stored(h, d, bytes), x)
    ensures ReadBlock(Stored(h, d, bytes), x) == if x == h(bytes) then Some(bytes) else ReadBlock(d, x)
  {
    if x in d.index {
      assert Intact(h, d, x);
      AppendReads(d.log, bytes, d.index[x]);
    } else {
      AppendReads(d.log, bytes, Loc(0, 0));
    }
  }

  /** A stored block is readable under its address, and every other block reads as before. */
  lemma StoredContents(h: Hasher, d: Disk, bytes: ByteSeq)
    requires Sound(h, d)
    ensures Sound(h, Stored(h, d, bytes))
    ensures StoredBlocks(Stored(h, d, bytes)) == StoredBlocks(d)[h(bytes) := bytes]
  {
    hide Intact, ReadBlock, Record;
    var k, d' := h(bytes), Stored(h, d, bytes);
    forall x | x in d'.index
      ensures Intact(h, d', x)
      ensures ReadBlock(d', x) == if x == k then Some(bytes) else ReadBlock(d, x)
    {
      StoredAt(h, d, bytes, x);
    }
  }

  // ---- how records tile the log ----

  /**
   * The log is exactly the records of the indexed blocks, in `order`, back to back: the last record is a
   * 4-byte length and then the data up to the very end, and what precedes it is tiled by the others.
   */
  ghost predicate Tiled(d: Disk, order: seq<Digest>)
    decreases |order|
  {
    if order == [] then d == Disk([], map[])
    else
      var k := order[|order| - 1];
      && k in d.index
      && var l := d.index[k];
      && 4 <= l.offset && l.offset + l.len == |d.log|
      && d.log[l.offset - 4..l.offset] == LittleEndian(l.len, 4)
      && Tiled(WithoutLast(d, k), order[..|order| - 1])
  }

  function WithoutLast(d: Disk, k: Digest): Disk
    requires k in d.index && 4 <= d.index[k].offset <= |d.log| + 4
  {
    Disk(d.log[..d.index[k].offset - 4], d.index - {k})
  }

  ghost predicate IsTiled(d: Disk) {
    exists order :: Tiled(d, order)
  }

  lemma AppendTiles(d: Disk, order: seq<Digest>, k: Digest, bytes: ByteSeq)
    requires Tiled(d, order) && k !in d.index
    ensures Tiled(Appended(d, k, bytes), order + [k])
  {
    var d' := Appended(d, k, bytes);
    assert (order + [k])[..|order|] == order;
    assert d'.log[..|d.log|] == d.log;
    assert d'.log[|d.log|..|d.log| + 4] == LittleEndian(|bytes|, 4);
    assert d'.index - {k} == d.index;
    assert WithoutLast(d', k) == d;
  }

  /** Every record of a tiled log lies inside it. */
  lemma {:induction false} TiledInRange(d: Disk, order: seq<Digest>, x: Digest)
    requires Tiled(d, order) && x in d.index
    ensures 4 <= d.index[x].offset && d.index[x].offset + d.index[x].len <= |d.log|
    decreases |order|
  {
    var k := order[|order| - 1];
    if x != k {
      TiledInRange(WithoutLast(d, k), order[..|order| - 1], x);
    }
  }

  /** Records, headers included, never overlap. */
  lemma {:induction false} TiledDisjoint(d: Disk, order: seq<Digest>, x: Digest, y: Digest)
    requires Tiled(d, order) && x in d.index && y in d.index && x != y
    ensures || d.index[x].offset + d.index[x].len <= d.index[y].offset - 4
            || d.index[y].offset + d.index[y].len <= d.index[x].offset - 4
    decreases |order|
  {
    var k := order[|order| - 1];
    var rest, short := WithoutLast(d, k), order[..|order| - 1];
    if x == k {
      TiledInRange(rest, short, y);
    } else if y == k {
      TiledInRange(rest, short, x);
    } else {
      TiledDisjoint(rest, short, x, y);
    }
  }

  function Lens(index: Index): map<Digest, nat> {
    map k | k in index :: index[k].len
  }

  /** Total data bytes of the indexed blocks, record headers excluded. */
  ghost function Physical(index: Index): nat {
    Total(Lens(index), index.Keys)
  }

  lemma PhysicalAdd(index: Index, k: Digest, l: Loc)
    requires k !in index
    ensures Physical(index[k := l]) == Physical(index) + l.len
  {
    var index' := index[k := l];
    assert index'.Keys == index.Keys + {k};
    TotalAdd(Lens(index'), index.Keys, k);
    TotalAgree(Lens(index), Lens(index'), index.Keys);
  }

  /** A tiled log holds no dead byte: it is as long as its live data plus one header per block. */
  lemma {:induction false} TiledLogHasNoGaps(d: Disk, order: seq<Digest>)
    requires Tiled(d, order)
    ensures |d.log| == Physical(d.index) + 4 * |d.index|
    decreases |order|
  {
    if order != [] {
      var k := order[|order| - 1];
      var rest := WithoutLast(d, k);
      TiledLogHasNoGaps(rest, order[..|order| - 1]);
      PhysicalAdd(rest.index, k, d.index[k]);
      assert d.index == rest.index[k := d.index[k]];
    }
  }

  // ---- compaction ----

  /** What rewriting the log down to `live` must achieve. */
  ghost predicate Compacted(d: Disk, live: set<Digest>, d': Disk) {
    && d'.index.Keys == d.index.Keys * live
    && (forall k | k in d'.index :: ReadBlock(d', k).Some? && ReadBlock(d', k) == ReadBlock(d, k))
    && IsTiled(d')
  }

  lemma CompactedContents(h: Hasher, d: Disk, live: set<Digest>, d': Disk)
    requires Compacted(d, live, d') && Sound(h, d)
    ensures Sound(h, d')
    ensures StoredBlocks(d') == map k | k in StoredBlocks(d) && k in live :: StoredBlocks(d)[k]
  {
    forall k | k in d'.index ensures Intact(h, d', k) {
      assert Intact(h, d, k);
    }
  }

  /** A block reads only bytes with its address, from any disk in any state; so what was stored, or nothing. */
  lemma NeverWrongBytes(h: Hasher, d: Disk, bytes: ByteSeq)
    ensures Fetched(h, d, h(bytes)).Ok? ==> Fetched(h, d, h(bytes)).value == bytes
  {
  }
}

/** The block store object. */
module BlockStores {
  import opened Prelude
  import opened Bytes
  import opened Digests
  import opened Sums
  import opened LinkedMaps
  import opened RamCaches
  import opened BlockLogs

  datatype CompactStats = CompactStats(keptBlocks: nat, droppedBlocks: nat, bytesReclaimed: nat)

  /** A compaction's side log, with the index that fits it and the blocks it leaves behind. */
  datatype Rewrite = Rewrite(log: ByteSeq, index: Index, drop: set<Digest>, stats: CompactStats)

  /** Some live block's record reaches past the end of the log. */
  ghost predicate LiveDamage(d: Disk, live: set<Digest>) {
    exists k :: k in d.index && k in live && ReadBlock(d, k).None?
  }

  ghost predicate IsRewrite(d: Disk, live: set<Digest>, w: Rewrite) {
    && Compacted(d, live, Disk(w.log, w.index))
    && w.drop == d.index.Keys - live
    && w.stats == CompactStats(|d.index.Keys * live|, |d.index.Keys - live|, Total(Lens(d.index), d.index.Keys - live))
  }

  class BlockStore {
    const hash: Hasher
    const cache: RamCache<Digest>
    var log: ByteSeq
    var logLen: nat
    var index: Index

    function OnDisk(): Disk
      reads this
    {
      Disk(log, index)
    }

    ghost function Cached(): Segment<Digest>
      reads cache
    {
      cache.Abs().All()
    }

    /** True in every state, damaged disks included: the RAM cache never holds bytes under a wrong address. */
    ghost predicate Honest()
      reads this, cache
    {
      && cache.Valid() && logLen == |log|
      && forall e | e in Cached() :: hash(e.1) == e.0
    }

    /** True as long as nothing damages the disk behind the store's back. */
    ghost predicate Valid()
      reads this, cache
    {
      && Honest() && Sound(hash, OnDisk())
      && forall e | e in Cached() :: e.0 in index
    }

    /** Open a store over whatever is on disk, with an empty RAM cache. */
    constructor (h: Hasher, disk: Disk, cacheBytes: nat)
      ensures Honest() && fresh(cache) && hash == h && OnDisk() == disk && Cached() == []
    {
      hash := h;
      cache := new RamCache<Digest>(cacheBytes);
      log, logLen, index := disk.log, |disk.log|, disk.index;
    }

    method Put(bytes: ByteSeq) returns (k: Digest)
      requires Honest() && |bytes| < U32_LIMIT
      modifies this, cache
      ensures Honest() && k == hash(bytes)
      ensures OnDisk() == Stored(hash, old(OnDisk()), bytes)
      ensures forall e | e in Cached() :: e == (k, bytes) || e in old(Cached())
      ensures old(Valid()) ==> Valid() && StoredBlocks(OnDisk()) == StoredBlocks(old(OnDisk()))[k := bytes]
      ensures IsTiled(old(OnDisk())) ==> IsTiled(OnDisk())
    {
      ghost var d := OnDisk();
      k := hash(bytes);
      StoredKeeps(hash, d, bytes);
      if k in index {
        return;
      }
      var writeAt := logLen;
      var dataOffset := writeAt + 4;
      var record := LittleEndian(|bytes|, 4) + bytes;
      log := log[..writeAt] + record;
      logLen := logLen + |record|;
      index := index[k := Loc(dataOffset, |bytes|)];
      assert OnDisk() == Stored(hash, d, bytes);
      InsertedMembers(cache.Abs(), k, bytes);
      cache.Insert(k, bytes);
    }

    /** A read answers from RAM, or re-reads and re-verifies; it never answers bytes with another address. */
    method Get(k: Digest) returns (r: Result<ByteSeq>)
      requires Honest()
      modifies cache
      ensures Honest() && OnDisk() == old(OnDisk())
      ensures r == match Lookup(old(Cached()), k)
                   case Some(b) => Ok(b)
                   case None => Fetched(hash, OnDisk(), k)
      ensures r.Ok? ==> hash(r.value) == k
      ensures old(Valid()) ==> Valid() && r == Fetched(hash, OnDisk(), k)
    {
      hide Got, Inserted, UniqueKeys, Weight;
      GetKeepsEverything(cache.Abs(), k);
      LookupFinds(Cached(), k);
      HitIsFetched(hash, OnDisk(), Cached(), k);
      var hit := cache.Get(k);
      if hit.Some? {
        return Ok(hit.value);
      }
      if k !in index {
        return Err(BlockNotFound);
      }
      var l := index[k];
      var buf := ReadExact(log, l);
      if buf.None? {
        return Err(ShortRead);
      }
      var actual := hash(buf.value);
      if actual != k {
        return Err(IntegrityFailure);
      }
      InsertedMembers(cache.Abs(), k, buf.value);
      cache.Insert(k, buf.value);
      return Ok(buf.value);
    }

    method PhysicalBytes() returns (total: nat)
      ensures total == Physical(index)
    {
      total := 0;
      var todo := index.Keys;
      while todo != {}
        invariant todo <= index.Keys
        invariant total + Total(Lens(index), todo) == Physical(index)
      {
        var k :| k in todo;
        TotalSplit(Lens(index), todo, k);
        total := total + index[k].len;
        todo := todo - {k};
      }
    }

    method LenFor(k: Digest) returns (len: nat)
      ensures len == if k in index then index[k].len else 0
    {
      if k in index {
        return index[k].len;
      }
      return 0;
    }

    /** Scrubbing checks every block once and reports exactly the damaged ones, whatever state the disk is in. */
    method Scrub() returns (checked: nat, bad: set<Digest>)
      ensures checked == |index|
      ensures forall k :: k in bad <==> k in index && !Intact(hash, OnDisk(), k)
      ensures Sound(hash, OnDisk()) <==> bad == {}
    {
      checked, bad := 0, {};
      var todo := index.Keys;
      while todo != {}
        invariant todo <= index.Keys && checked + |todo| == |index|
        invariant forall k :: k in bad <==> k in index && k !in todo && !Intact(hash, OnDisk(), k)
      {
        var k :| k in todo;
        todo := todo - {k};
        checked := checked + 1;
        var buf := ReadExact(log, index[k]);
        if buf.None? {
          bad := bad + {k};
          continue;
        }
        if hash(buf.value) != k {
          bad := bad + {k};
        }
      }
    }

    /**
     * Rewrite the log down to the blocks in `live`. Fails, changing nothing, exactly when a live record
     * cannot be read; otherwise every live block reads the same bytes as before, the rest are gone, the new
     * log is tiled by what was kept, and the report is exact.
     */
    method Compact(live: set<Digest>) returns (r: Result<CompactStats>)
      requires Honest()
      modifies this, cache
      ensures Honest()
      ensures r.Err? <==> LiveDamage(old(OnDisk()), live)
      ensures r.Err? ==> OnDisk() == old(OnDisk()) && Cached() == old(Cached())
      ensures r.Ok? ==> Compacted(old(OnDisk()), live, OnDisk())
      ensures r.Ok? ==> r.value.keptBlocks == |old(index).Keys * live|
      ensures r.Ok? ==> r.value.droppedBlocks == |old(index).Keys - live|
      ensures r.Ok? ==> r.value.bytesReclaimed == Total(Lens(old(index)), old(index).Keys - live)
      ensures r.Ok? ==> forall e :: e in Cached() <==> e in old(Cached()) && e.0 !in old(index).Keys - live
      ensures old(Valid()) ==> Valid()
    {
      ghost var d := OnDisk();
      var rewritten := CopyLive(OnDisk(), live);
      if rewritten.Err? {
        return Err(rewritten.error);
      }
      var Rewrite(newLog, newIndex, drop, stats) := rewritten.value;
      Install(newLog, newIndex, drop);
      assert index == newIndex;
      CompactedKeeps(hash, d, live, OnDisk());
      return Ok(stats);
    }

    /** The copying pass: write the live records, one after the other, to a side log. */
    static method CopyLive(d: Disk, live: set<Digest>) returns (r: Result<Rewrite>)
      ensures r.Err? <==> LiveDamage(d, live)
      ensures r.Ok? ==> IsRewrite(d, live, r.value)
    {
      var todo := d.index.Keys;
      var w := Rewrite([], map[], {}, CompactStats(0, 0, 0));
      NothingDone(d, live);
      while todo != {}
        invariant todo <= d.index.Keys && Copied(d, todo, live, w) && Tallied(d, w)
      {
        var k :| k in todo;
        var step := CopyOne(d, live, w, k, todo);
        if step.Err? {
          return step;
        }
        w := step.value;
        todo := todo - {k};
      }
      CopiedAll(d, live, w);
      return Ok(w);
    }

    static method CopyOne(d: Disk, live: set<Digest>, w: Rewrite, k: Digest, ghost todo: set<Digest>)
      returns (r: Result<Rewrite>)
      requires k in d.index && k in todo && Copied(d, todo, live, w) && Tallied(d, w)
      ensures r.Err? ==> LiveDamage(d, live)
      ensures r.Ok? ==> Copied(d, todo - {k}, live, r.value) && Tallied(d, r.value)
    {
      if k in live {
        var buf := ReadExact(d.log, d.index[k]);
        if buf.None? {
          assert ReadBlock(d, k).None?;
          return Err(ShortRead);
        }
        KeepStep(d, todo, live, w, k, buf.value);
        return Ok(Kept(w, k, buf.value));
      }
      DropStep(d, todo, live, w, k);
      return Ok(Dropped(w, k, d.index[k].len));
    }

    /** Swap the rewritten log in, apply the index batch, and forget the dropped blocks. */
    method Install(newLog: ByteSeq, newIndex: Index, drop: set<Digest>)
      requires Honest()
      modifies this, cache
      ensures Honest() && OnDisk() == Disk(newLog, (old(index) + newIndex) - drop)
      ensures forall e :: e in Cached() <==> e in old(Cached()) && e.0 !in drop
    {
      log, logLen := newLog, |newLog|;
      index := (index + newIndex) - drop;
      EvictDropped(drop);
    }

    method EvictDropped(drop: set<Digest>)
      requires Honest()
      modifies cache
      ensures Honest()
      ensures forall e :: e in Cached() <==> e in old(Cached()) && e.0 !in drop
    {
      var todo := drop;
      while todo != {}
        invariant Honest() && todo <= drop
        invariant forall e :: e in Cached() <==> e in old(Cached()) && e.0 !in drop - todo
      {
        var k :| k in todo;
        InvalidateRemovesExactly(cache.Abs(), k);
        WithoutMembers(Cached(), k);
        cache.Invalidate(k);
        todo := todo - {k};
      }
    }
  }

  lemma HitIsFetched(h: Hasher, d: Disk, cached: Segment<Digest>, k: Digest)
    requires forall e | e in cached :: h(e.1) == e.0
    ensures Sound(h, d) && k in d.index && Lookup(cached, k).Some?
            ==> Fetched(h, d, k) == Ok(Lookup(cached, k).value)
  {
    LookupFinds(cached, k);
    if Sound(h, d) && k in d.index {
      assert Intact(h, d, k);
    }
  }

  lemma InsertedMembers(c: State<Digest>, k: Digest, v: ByteSeq)
    requires c.Valid()
    ensures forall e | e in Inserted(c, k, v).All() :: e == (k, v) || e in c.All()
  {
    InsertEvictsOnlyProbation(c, k, v);
  }

  lemma StoredKeeps(h: Hasher, d: Disk, bytes: ByteSeq)
    ensures Sound(h, d) ==> Sound(h, Stored(h, d, bytes))
    ensures Sound(h, d) ==> StoredBlocks(Stored(h, d, bytes)) == StoredBlocks(d)[h(bytes) := bytes]
    ensures IsTiled(d) ==> IsTiled(Stored(h, d, bytes))
  {
    if Sound(h, d) {
      StoredContents(h, d, bytes);
    }
    if IsTiled(d) && h(bytes) !in d.index {
      var order :| Tiled(d, order);
      AppendTiles(d, order, h(bytes), bytes);
    }
  }

  lemma CompactedKeeps(h: Hasher, d: Disk, live: set<Digest>, d': Disk)
    requires Compacted(d, live, d')
    ensures Sound(h, d) ==> Sound(h, d')
  {
    if Sound(h, d) {
      CompactedContents(h, d, live, d');
    }
  }

  /** Copy one live record to the end of the side log. */
  function Kept(w: Rewrite, k: Digest, buf: ByteSeq): Rewrite {
    var d := Appended(Disk(w.log, w.index), k, buf);
    Rewrite(d.log, d.index, w.drop, w.stats.(keptBlocks := w.stats.keptBlocks + 1))
  }

  /** Leave one dead block behind. */
  function Dropped(w: Rewrite, k: Digest, len: nat): Rewrite {
    w.(drop := w.drop + {k},
       stats := w.stats.(droppedBlocks := w.stats.droppedBlocks + 1, bytesReclaimed := w.stats.bytesReclaimed + len))
  }

  /** What a rewrite has achieved once only the blocks in `todo` are left to deal with. */
  ghost predicate Copied(d: Disk, todo: set<Digest>, live: set<Digest>, w: Rewrite) {
    && (forall k :: k in w.index <==> k in d.index && k !in todo && k in live)
    && (forall k | k in w.index ::
          ReadExact(w.log, w.index[k]).Some? && ReadExact(w.log, w.index[k]) == ReadBlock(d, k))
    && IsTiled(Disk(w.log, w.index))
    && (forall k :: k in w.drop <==> k in d.index && k !in todo && k !in live)
  }

  ghost predicate Tallied(d: Disk, w: Rewrite) {
    && w.drop <= d.index.Keys
    && w.stats == CompactStats(|w.index|, |w.drop|, Total(Lens(d.index), w.drop))
  }

  lemma NothingDone(d: Disk, live: set<Digest>)
    ensures Copied(d, d.index.Keys, live, Rewrite([], map[], {}, CompactStats(0, 0, 0)))
    ensures Tallied(d, Rewrite([], map[], {}, CompactStats(0, 0, 0)))
  {
    assert Tiled(Disk([], map[]), []);
  }

  lemma KeepStep(d: Disk, todo: set<Digest>, live: set<Digest>, w: Rewrite, k: Digest, buf: ByteSeq)
    requires Copied(d, todo, live, w) && Tallied(d, w)
    requires k in d.index && k in todo && k in live && ReadBlock(d, k) == Some(buf)
    ensures Copied(d, todo - {k}, live, Kept(w, k, buf)) && Tallied(d, Kept(w, k, buf))
  {
    var copy := Disk(w.log, w.index);
    var w' := Kept(w, k, buf);
    assert IsTiled(Disk(w'.log, w'.index)) by {
      var order :| Tiled(copy, order);
      AppendTiles(copy, order, k, buf);
    }
    forall x | x in w'.index
      ensures ReadExact(w'.log, w'.index[x]).Some? && ReadExact(w'.log, w'.index[x]) == ReadBlock(d, x)
    {
      if x == k {
        AppendReads(w.log, buf, Loc(0, 0));
      } else {
        AppendReads(w.log, buf, w.index[x]);
      }
    }
  }

  /** Undamaged live blocks can always be rewritten, whatever is still to be copied. */
  lemma {:induction false} CopyCanFinish(d: Disk, todo: set<Digest>, live: set<Digest>, w: Rewrite)
    returns (w': Rewrite)
    requires !LiveDamage(d, live) && todo <= d.index.Keys && Copied(d, todo, live, w) && Tallied(d, w)
    ensures IsRewrite(d, live, w')
    decreases todo
  {
    hide Copied, Tallied, IsRewrite;
    if todo == {} {
      CopiedAll(d, live, w);
      w' := w;
    } else {
      var k :| k in todo;
      if k in live {
        assert ReadBlock(d, k).Some?;
        KeepStep(d, todo, live, w, k, ReadBlock(d, k).value);
        w' := CopyCanFinish(d, todo - {k}, live, Kept(w, k, ReadBlock(d, k).value));
      } else {
        DropStep(d, todo, live, w, k);
        w' := CopyCanFinish(d, todo - {k}, live, Dropped(w, k, d.index[k].len));
      }
    }
  }

  lemma CompactionExists(d: Disk, live: set<Digest>) returns (image: Disk)
    requires !LiveDamage(d, live)
    ensures Compacted(d, live, image)
  {
    hide Copied, Tallied, Compacted;
    NothingDone(d, live);
    var w := CopyCanFinish(d, d.index.Keys, live, Rewrite([], map[], {}, CompactStats(0, 0, 0)));
    image := Disk(w.log, w.index);
  }

  lemma DropStep(d: Disk, todo: set<Digest>, live: set<Digest>, w: Rewrite, k: Digest)
    requires Copied(d, todo, live, w) && Tallied(d, w)
    requires k in d.index && k in todo && k !in live
    ensures Copied(d, todo - {k}, live, Dropped(w, k, d.index[k].len)) && Tallied(d, Dropped(w, k, d.index[k].len))
  {
    TotalAdd(Lens(d.index), w.drop, k);
  }

  lemma CopiedAll(d: Disk, live: set<Digest>, w: Rewrite)
    requires Copied(d, {}, live, w) && Tallied(d, w)
    ensures IsRewrite(d, live, w) && !LiveDamage(d, live)
  {
    assert w.index.Keys == d.index.Keys * live;
    assert w.drop == d.index.Keys - live;
    forall k | k in d.index && k in live ensures ReadBlock(d, k).Some? {
      assert k in w.index;
    }
  }
}
