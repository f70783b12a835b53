/** What a crash inside a compaction leaves readable. */
module CompactionCrashes {
  import opened Prelude
  import opened Bytes
  import opened Digests
  import opened Sums
  import opened BlockLogs

  /** Between log swap and index batch: the new log under the old index. */
  function Torn(d: Disk, image: Disk): Disk {
    Disk(image.log, d.index)
  }

  /**
   * Before the swap nothing has changed; after the batch exactly the live blocks are left, all readable; and in
   * between a read still answers the right bytes or an error.
   */
  lemma CrashInCompaction(h: Hasher, d: Disk, live: set<Digest>, image: Disk, k: Digest)
    requires Sound(h, d) && Compacted(d, live, image)
    ensures Fetched(h, d, k).Ok? <==> k in d.index
    ensures Fetched(h, image, k).Ok? <==> k in d.index && k in live
    ensures Fetched(h, image, k).Ok? ==> Fetched(h, image, k) == Fetched(h, d, k)
    ensures Fetched(h, Torn(d, image), k).Ok? ==> Fetched(h, Torn(d, image), k) == Fetched(h, d, k)
    ensures k in d.index ==>
              (Fetched(h, Torn(d, image), k).Ok? <==> ReadExact(image.log, d.index[k]) == ReadExact(d.log, d.index[k]))
  {
    CompactedContents(h, d, live, image);
    FetchedWhenSound(h, d, k);
    FetchedWhenSound(h, image, k);
    hide Fetched, ReadExact, Sound, IsTiled;
    TornReads(h, d, image, k);
    FetchedAgree(h, image, d, k);
    FetchedAgree(h, Torn(d, image), d, k);
  }

  lemma FetchedWhenSound(h: Hasher, d: Disk, k: Digest)
    requires Sound(h, d)
    ensures Fetched(h, d, k).Ok? <==> k in d.index
  {
    if k in d.index {
      assert Intact(h, d, k);
    }
  }

  /** Two disks that both answer an address answer alike. */
  lemma FetchedAgree(h: Hasher, d: Disk, e: Disk, k: Digest)
    requires Fetched(h, d, k).Ok? ==> Fetched(h, e, k).Ok?
    ensures Fetched(h, d, k).Ok? ==> Fetched(h, d, k) == Fetched(h, e, k)
  {
    hide ReadExact;
    if Fetched(h, d, k).Ok? {
      assert h(Fetched(h, d, k).value) == k == h(Fetched(h, e, k).value);
    }
  }

  lemma TornReads(h: Hasher, d: Disk, image: Disk, k: Digest)
    requires k in d.index ==> Fetched(h, d, k).Ok?
    ensures Fetched(h, Torn(d, image), k).Ok? ==> k in d.index
    ensures k in d.index ==>
              (Fetched(h, Torn(d, image), k).Ok? <==> ReadExact(image.log, d.index[k]) == ReadExact(d.log, d.index[k]))
  {
    hide ReadExact;
  }

  // ---- blocks the new log is too short for ----

  /** Bytes the records of these blocks take, headers included. */
  ghost function RecordBytes(index: Index, ks: set<Digest>): nat
    requires ks <= index.Keys
  {
    Total(Lens(index), ks) + 4 * |ks|
  }

  function End(index: Index, k: Digest): nat
    requires k in index
  {
    index[k].offset + index[k].len
  }

  lemma CompactedSameLengths(d: Disk, live: set<Digest>, image: Disk)
    requires Compacted(d, live, image)
    ensures forall k | k in image.index :: k in d.index && image.index[k].len == d.index[k].len
  {
    hide IsTiled;
    forall k | k in image.index ensures image.index[k].len == d.index[k].len {
      assert |ReadBlock(image, k).value| == image.index[k].len;
      assert |ReadBlock(d, k).value| == d.index[k].len;
    }
  }

  lemma CompactedLength(d: Disk, live: set<Digest>, image: Disk)
    requires Compacted(d, live, image)
    ensures |image.log| == RecordBytes(d.index, d.index.Keys * live)
  {
    var order :| Tiled(image, order);
    TiledLogHasNoGaps(image, order);
    CompactedSameLengths(d, live, image);
    TotalAgree(Lens(image.index), Lens(d.index), image.index.Keys);
    assert |image.index.Keys| == |image.index|;
  }

  /**
   * In the window a block cannot be read at all exactly when it has bytes and its old record ends behind the bytes
   * that all live records take together.
   */
  lemma TornShortReadIff(h: Hasher, d: Disk, live: set<Digest>, image: Disk, k: Digest)
    requires Compacted(d, live, image) && k in d.index
    ensures Fetched(h, Torn(d, image), k) == Err(ShortRead)
            <==> d.index[k].len > 0 && End(d.index, k) > RecordBytes(d.index, d.index.Keys * live)
  {
    CompactedLength(d, live, image);
  }

  /** Records, headers included, lie behind one another in some order, with or without gaps. */
  ghost predicate Separate(index: Index) {
    && (forall k | k in index :: 4 <= index[k].offset)
    && forall j, k | j in index && k in index && j != k ::
         End(index, j) <= index[k].offset - 4 || End(index, k) <= index[j].offset - 4
  }

  lemma TiledSeparate(d: Disk, order: seq<Digest>)
    requires Tiled(d, order)
    ensures Separate(d.index)
  {
    forall k | k in d.index ensures 4 <= d.index[k].offset {
      TiledInRange(d, order, k);
    }
    forall j, k | j in d.index && k in d.index && j != k
      ensures End(d.index, j) <= d.index[k].offset - 4 || End(d.index, k) <= d.index[j].offset - 4
    {
      TiledDisjoint(d, order, j, k);
    }
  }

  lemma {:induction false} LastRecord(index: Index, ks: set<Digest>) returns (last: Digest)
    requires ks <= index.Keys && ks != {}
    ensures last in ks && forall k | k in ks :: index[k].offset <= index[last].offset
    decreases ks
  {
    var k :| k in ks;
    last := k;
    if ks != {k} {
      var rest := LastRecord(index, ks - {k});
      if index[k].offset < index[rest].offset {
        last := rest;
      }
    }
  }

  /** Separate records up to some place take no more bytes than there are up to it. */
  lemma {:induction false} RecordsFit(index: Index, ks: set<Digest>, end: int)
    requires Separate(index) && ks <= index.Keys && 0 <= end
    requires forall k | k in ks :: End(index, k) <= end
    ensures RecordBytes(index, ks) <= end
    decreases ks
  {
    if ks != {} {
      var last := LastRecord(index, ks);
      RecordsFit(index, ks - {last}, index[last].offset - 4);
      TotalSplit(Lens(index), ks, last);
    }
  }

  /** Garbage ahead of the last of these records: what they take together ends before the last one does. */
  lemma GarbageTakesRoom(index: Index, kept: set<Digest>, garbage: Digest, last: Digest)
    requires Separate(index) && kept <= index.Keys && last in kept
    requires forall k | k in kept :: End(index, k) <= End(index, last)
    requires garbage in index && garbage !in kept && End(index, garbage) <= index[last].offset - 4
    ensures End(index, last) > RecordBytes(index, kept)
  {
    RecordsFit(index, kept + {garbage}, End(index, last));
    hide Separate;
    TotalAdd(Lens(index), kept, garbage);
  }

  /**
   * The window loses data whenever garbage lies ahead of a live block: the live block stored last is then
   * unreadable, unless it is empty, whatever order the live blocks are copied in.
   */
  lemma LastLiveBlockLost(h: Hasher, d: Disk, live: set<Digest>, image: Disk, garbage: Digest, last: Digest)
    requires Separate(d.index) && Compacted(d, live, image)
    requires last in d.index && last in live
    requires forall k | k in d.index && k in live :: End(d.index, k) <= End(d.index, last)
    requires garbage in d.index && garbage !in live && End(d.index, garbage) <= d.index[last].offset - 4
    ensures Fetched(h, Torn(d, image), last) == Err(ShortRead) <==> d.index[last].len > 0
  {
    TornShortReadIff(h, d, live, image, last);
    hide Compacted, Torn, Fetched;
    GarbageTakesRoom(d.index, d.index.Keys * live, garbage, last);
  }

  /** Later in the order is later in the log. */
  lemma {:induction false} TiledInOrder(d: Disk, order: seq<Digest>, i: nat, j: nat)
    requires Tiled(d, order) && i < j < |order|
    ensures order[i] in d.index && order[j] in d.index
    ensures End(d.index, order[i]) <= d.index[order[j]].offset - 4
    decreases |order|
  {
    var n := |order| - 1;
    var rest := WithoutLast(d, order[n]);
    if j < n {
      TiledInOrder(rest, order[..n], i, j);
    } else {
      TiledMembers(rest, order[..n], order[i]);
      TiledInRange(rest, order[..n], order[i]);
    }
  }

  lemma {:induction false} TiledMembers(d: Disk, order: seq<Digest>, k: Digest)
    requires Tiled(d, order)
    ensures k in order <==> k in d.index
    decreases |order|
  {
    if order != [] {
      var n := |order| - 1;
      TiledMembers(WithoutLast(d, order[n]), order[..n], k);
      assert k in order <==> k in order[..n] || k == order[n];
    }
  }

  lemma EndsBefore(d: Disk, order: seq<Digest>, live: set<Digest>, m: nat, k: Digest)
    requires Tiled(d, order) && m < |order| && forall i | m < i < |order| :: order[i] !in live
    requires k in d.index && k in live
    ensures order[m] in d.index && End(d.index, k) <= End(d.index, order[m])
  {
    hide Tiled;
    TiledMembers(d, order, k);
    TiledMembers(d, order, order[m]);
    var i :| 0 <= i < |order| && order[i] == k;
    if i < m {
      TiledInOrder(d, order, i, m);
    }
  }

  /**
   * So on a log without gaps, with a dropped block stored before a live one, the last live block does not survive a
   * crash in the window unless it is empty.
   */
  lemma LiveBehindGarbageLost(h: Hasher, d: Disk, order: seq<Digest>, live: set<Digest>, image: Disk, g: nat, m: nat)
    requires Tiled(d, order) && Compacted(d, live, image)
    requires g < m < |order| && order[g] !in live && order[m] in live
    requires forall i | m < i < |order| :: order[i] !in live
    ensures order[m] in d.index
    ensures Fetched(h, Torn(d, image), order[m]) == Err(ShortRead) <==> d.index[order[m]].len > 0
  {
    hide Compacted, Separate, Tiled, Fetched;
    TiledSeparate(d, order);
    TiledInOrder(d, order, g, m);
    forall k | k in d.index && k in live ensures End(d.index, k) <= End(d.index, order[m]) {
      EndsBefore(d, order, live, m, k);
    }
    LastLiveBlockLost(h, d, live, image, order[g], order[m]);
  }

  // ---- blocks that survive ----

  /** The same blocks in the same order lie at the same places. */
  lemma {:induction false} SameOrderSamePlaces(d: Disk, e: Disk, order: seq<Digest>)
    requires Tiled(d, order) && Tiled(e, order)
    requires forall k | k in d.index && k in e.index :: e.index[k].len == d.index[k].len
    ensures e.index == d.index && |e.log| == |d.log|
    decreases |order|
  {
    if order != [] {
      var n := |order| - 1;
      var k := order[n];
      SameOrderSamePlaces(WithoutLast(d, k), WithoutLast(e, k), order[..n]);
      assert d.index == (d.index - {k})[k := d.index[k]];
      assert e.index == (e.index - {k})[k := e.index[k]];
    }
  }

  /** The first `n` blocks of a log without gaps make up a log of their own. */
  lemma {:induction false} TiledFront(d: Disk, order: seq<Digest>, n: nat) returns (front: Disk)
    requires Tiled(d, order) && n <= |order|
    ensures Tiled(front, order[..n])
    ensures forall k | k in front.index :: k in d.index && front.index[k] == d.index[k]
    decreases |order|
  {
    if n == |order| {
      assert order[..n] == order;
      front := d;
    } else {
      var last := |order| - 1;
      front := TiledFront(WithoutLast(d, order[last]), order[..last], n);
      assert order[..last][..n] == order[..n];
    }
  }

  /**
   * Conversely, when the live blocks are the first ones stored and are copied in the order they were stored in,
   * the window does no harm: every live block stays readable.
   */
  lemma LiveInFrontSurvive(h: Hasher, d: Disk, order: seq<Digest>, n: nat, live: set<Digest>, image: Disk, k: Digest)
    requires Sound(h, d) && Tiled(d, order) && n <= |order| && Compacted(d, live, image)
    requires Tiled(image, order[..n])
    requires k in d.index && k in live
    ensures Fetched(h, Torn(d, image), k).Ok? && Fetched(h, Torn(d, image), k) == Fetched(h, d, k)
  {
    hide Tiled, Sound;
    var front := TiledFront(d, order, n);
    CompactedSameLengths(d, live, image);
    SameOrderSamePlaces(front, image, order[..n]);
    CrashInCompaction(h, d, live, image, k);
  }

  // ---- every block, exactly ----

  /** The records of these blocks, in this order. */
  function Records(blocks: map<Digest, ByteSeq>, order: seq<Digest>): ByteSeq
    requires forall k | k in order :: k in blocks
  {
    if order == [] then []
    else
      var n := |order| - 1;
      assert order[n] in order;
      Records(blocks, order[..n]) + Record(blocks[order[n]])
  }

  lemma {:induction false} TiledIsRecords(d: Disk, order: seq<Digest>, blocks: map<Digest, ByteSeq>)
    requires Tiled(d, order) && forall k | k in d.index :: k in blocks && ReadBlock(d, k) == Some(blocks[k])
    ensures (forall k | k in order :: k in blocks) && d.log == Records(blocks, order)
    decreases |order|
  {
    if order != [] {
      var n := |order| - 1;
      var k := order[n];
      var rest := WithoutLast(d, k);
      forall x | x in rest.index ensures ReadBlock(rest, x) == Some(blocks[x]) {
        FrontReads(d, order, x);
      }
      TiledIsRecords(rest, order[..n], blocks);
      LastRecordSplits(d, order);
      assert |blocks[k]| == d.index[k].len;
    }
  }

  lemma FrontReads(d: Disk, order: seq<Digest>, x: Digest)
    requires Tiled(d, order) && order != []
    ensures var rest := WithoutLast(d, order[|order| - 1]);
            x in rest.index && ReadBlock(d, x).Some? ==> ReadBlock(rest, x) == ReadBlock(d, x)
  {
    var rest := WithoutLast(d, order[|order| - 1]);
    if x in rest.index {
      TiledInRange(rest, order[..|order| - 1], x);
      var l := d.index[x];
      assert rest.index[x] == l && End(rest.index, x) <= |rest.log| <= |d.log|;
      assert rest.log == d.log[..|rest.log|];
      hide Tiled;
      PrefixSlice(d.log, |rest.log|, l.offset, l.offset + l.len);
    }
  }

  lemma PrefixSlice(s: ByteSeq, n: nat, i: nat, j: nat)
    requires i <= j <= n <= |s|
    ensures s[..n][i..j] == s[i..j]
  {
  }

  lemma LastRecordSplits(d: Disk, order: seq<Digest>)
    requires Tiled(d, order) && order != []
    ensures var k := order[|order| - 1];
            var l := d.index[k];
            && ReadBlock(d, k).Some?
            && d.log == WithoutLast(d, k).log + (LittleEndian(l.len, 4) + ReadBlock(d, k).value)
  {
    var l := d.index[order[|order| - 1]];
    assert 4 <= l.offset && l.offset + l.len == |d.log| && d.log[l.offset - 4..l.offset] == LittleEndian(l.len, 4);
    hide LittleEndian, Tiled;
    SplitTwice(d.log, l.offset - 4, l.offset);
    assert d.log[l.offset..] == d.log[l.offset..l.offset + l.len];
  }

  lemma SplitTwice(s: ByteSeq, i: nat, j: nat)
    requires i <= j <= |s|
    ensures s == s[..i] + (s[i..j] + s[j..])
  {
  }

  /**
   * In the window a block reads exactly when the log of the live records, in the order they are copied, holds its
   * bytes at its old place: a matter of the old disk, the live set and the copying order alone.
   */
  lemma TornReadIff(h: Hasher, d: Disk, live: set<Digest>, image: Disk, order: seq<Digest>, k: Digest)
    requires Sound(h, d) && Compacted(d, live, image) && Tiled(image, order) && k in d.index
    ensures k in StoredBlocks(d) && forall x | x in order :: x in StoredBlocks(d)
    ensures Fetched(h, Torn(d, image), k).Ok?
            <==> ReadExact(Records(StoredBlocks(d), order), d.index[k]) == Some(StoredBlocks(d)[k])
  {
    assert Intact(h, d, k);
    forall x | x in image.index ensures x in StoredBlocks(d) && ReadBlock(image, x) == Some(StoredBlocks(d)[x]) {
      assert Intact(h, d, x);
    }
    hide Tiled, Record;
    TiledIsRecords(image, order, StoredBlocks(d));
  }
}
