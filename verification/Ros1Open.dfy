/** `Rosbag1Backend::open`: the index loops, proved against the exact condition for a consistent bag. */
module Ros1Open {
  import opened StableOrder
  import opened Ros1Cursor
  import opened Ros1Index
  import R = Records

  type Indexes = map<nat, seq<Timed<Entry>>>

  function IndexOf(indexes: Indexes, id: nat): seq<Timed<Entry>> {
    if id in indexes then indexes[id] else []
  }

  // ----- every message is counted for exactly one connection -----

  function SumDeclared(ids: seq<nat>, counts: seq<Count>): nat {
    if ids == [] then 0 else SumDeclared(ids[..|ids| - 1], counts) + Declared(counts, ids[|ids| - 1])
  }

  lemma {:induction false} NoCounts(ids: seq<nat>)
    ensures SumDeclared(ids, []) == 0
  {
    if ids != [] {
      NoCounts(ids[..|ids| - 1]);
    }
  }

  lemma {:induction false} OneMoreCount(ids: seq<nat>, counts: seq<Count>)
    requires Distinct(ids) && counts != []
    ensures var last := counts[|counts| - 1];
            SumDeclared(ids, counts)
            == SumDeclared(ids, counts[..|counts| - 1]) + if last.id in ids then last.messages else 0
  {
    if ids != [] {
      var front, id := ids[..|ids| - 1], ids[|ids| - 1];
      assert ids == front + [id];
      assert id !in front;
      OneMoreCount(front, counts);
    }
  }

  /** The counts of all connections add up to the total declared. */
  lemma {:induction false} CountsAreConserved(ids: seq<nat>, counts: seq<Count>)
    requires Distinct(ids) && forall c :: c in counts ==> c.id in ids
    ensures SumDeclared(ids, counts) == Total(counts)
  {
    if counts == [] {
      NoCounts(ids);
    } else {
      CountsAreConserved(ids, counts[..|counts| - 1]);
      OneMoreCount(ids, counts);
      assert counts[|counts| - 1] in counts;
    }
  }

  /** Every entry names the chunk whose records it was read with. */
  lemma {:induction false} EntriesNameChunks(chunks: seq<Chunk>, id: nat, x: Timed<Entry>)
    requires x in EntriesOf(AllRecords(chunks), id)
    ensures x.data.chunk < |chunks|
    decreases |chunks|
  {
    var last := |chunks| - 1;
    var p := RecordOf(AllRecords(chunks), id, x);
    if p in AllRecords(chunks[..last]) {
      assert AllRecords(chunks) == AllRecords(chunks[..last]) + PlacedAt(last, chunks[last].records);
      PlacedBelow(chunks[..last], p);
    }
  }

  lemma {:induction false} RecordOf(records: seq<Placed>, id: nat, x: Timed<Entry>) returns (p: Placed)
    requires x in EntriesOf(records, id)
    ensures p in records && p.chunk == x.data.chunk
  {
    var front, last := records[..|records| - 1], records[|records| - 1];
    if x in EntriesOf(front, id) {
      p := RecordOf(front, id, x);
    } else {
      p := last;
    }
  }

  lemma {:induction false} PlacedBelow(chunks: seq<Chunk>, p: Placed)
    requires p in AllRecords(chunks)
    ensures p.chunk < |chunks|
  {
    var last := |chunks| - 1;
    if p in AllRecords(chunks[..last]) {
      PlacedBelow(chunks[..last], p);
    }
  }

  // ----- the loops -----

  lemma {:induction false} QuotientTest(messages: nat, room: nat)
    ensures messages > room / ENTRY_BYTES <==> messages * ENTRY_BYTES > room
  {
  }

  class Builder {
    const ids: seq<nat>
    const chunkCount: nat
    const maxMessages: nat
    const maxIndexBytes: nat
    var indexBytes: nat
    var expectedTotal: nat
    var expected: map<nat, nat>
    var indexes: Indexes
    ghost var counts: seq<Count>
    ghost var records: seq<Placed>

    ghost predicate Declaring()
      reads this
    {
      && expectedTotal == Total(counts)
      && indexBytes == Cost(chunkCount, Total(counts))
      && CountsFit(ids, chunkCount, counts, maxMessages, maxIndexBytes)
      && Expecting()
    }

    ghost predicate Expecting()
      reads this`expected, this`counts
    {
      && (forall id :: id in expected <==> Mentioned(counts, id))
      && forall id :: id in expected ==> expected[id] == Declared(counts, id)
    }

    ghost predicate Recording()
      reads this`expected, this`indexes, this`counts, this`records
    {
      && Expecting() && indexes.Keys == expected.Keys
      && (forall id :: id in indexes ==> indexes[id] == EntriesOf(records, id) && |indexes[id]| <= expected[id])
      && forall p :: p in records ==> Mentioned(counts, p.record.connection) && Timely(p)
    }

    constructor (ids: seq<nat>, chunkCount: nat, maxMessages: nat, maxIndexBytes: nat)
      requires Cost(chunkCount, 0) <= maxIndexBytes
      ensures this.ids == ids && this.chunkCount == chunkCount
      ensures this.maxMessages == maxMessages && this.maxIndexBytes == maxIndexBytes
      ensures Declaring() && counts == [] && records == []
    {
      this.ids, this.chunkCount, this.maxMessages, this.maxIndexBytes := ids, chunkCount, maxMessages, maxIndexBytes;
      indexBytes, expectedTotal, expected, indexes := chunkCount * CHUNK_BYTES, 0, map[], map[];
      counts, records := [], [];
    }

    /** One pair of a CHUNK_INFO body: refused exactly if the pairs up to it can fit no bag. */
    method Declare(c: Count) returns (r: Outcome)
      requires Declaring()
      modifies this`indexBytes, this`expectedTotal, this`expected, this`counts
      ensures r.Accepted? ==> Declaring() && counts == old(counts) + [c]
      ensures r.Refused? ==> !CountsFit(ids, chunkCount, old(counts) + [c], maxMessages, maxIndexBytes)
    {
      ghost var before, more := counts, counts + [c];
      assert more[..|more| - 1] == before && c in more;
      if c.id !in ids || c.messages > maxMessages {
        return Refused(Malformed);
      }
      if c.messages > maxMessages - expectedTotal {
        return Refused(Malformed);
      }
      expectedTotal := expectedTotal + c.messages;
      QuotientTest(c.messages, maxIndexBytes - indexBytes);
      if c.messages > (maxIndexBytes - indexBytes) / ENTRY_BYTES {
        return Refused(OverLimit);
      }
      indexBytes := indexBytes + c.messages * ENTRY_BYTES;
      expected := expected[c.id := c.messages + if c.id in expected then expected[c.id] else 0];
      counts := more;
      Expect(before, c);
      r := Accepted;
    }

    /** The map keeps one sum per connection mentioned. */
    lemma {:induction false} Expect(before: seq<Count>, c: Count)
      ensures forall id :: Mentioned(before + [c], id) <==> Mentioned(before, id) || id == c.id
      ensures forall id :: Declared(before + [c], id) == Declared(before, id) + if c.id == id then c.messages else 0
      ensures !Mentioned(before, c.id) ==> Declared(before, c.id) == 0
    {
      var more := before + [c];
      assert more[..|more| - 1] == before && more[|before|] == c;
      forall id
        ensures Mentioned(more, id) <==> Mentioned(before, id) || id == c.id
      {
        if Mentioned(before, id) {
          var k :| 0 <= k < |before| && before[k].id == id;
          assert more[k].id == id;
        }
        if Mentioned(more, id) {
          var k :| 0 <= k < |more| && more[k].id == id;
          assert k < |before| ==> before[k].id == id;
        }
      }
      Unmentioned(before, c.id);
    }

    static lemma {:induction false} Unmentioned(cs: seq<Count>, id: nat)
      ensures !Mentioned(cs, id) ==> Declared(cs, id) == 0
    {
      if cs != [] && !Mentioned(cs, id) {
        var front := cs[..|cs| - 1];
        assert !Mentioned(front, id) by {
          forall k | 0 <= k < |front|
            ensures front[k].id != id
          {
            assert cs[k].id != id;
          }
        }
        Unmentioned(front, id);
      }
    }

    /** Between the passes: an empty index for every connection a chunk info mentions. */
    method Reserve()
      requires Declaring() && records == []
      modifies this`indexes
      ensures Recording()
    {
      indexes := map id | id in expected :: [];
    }

    /** All chunk infos. */
    method DeclareAll(chunks: seq<Chunk>) returns (r: Outcome)
      requires Declaring() && counts == [] && chunkCount == |chunks|
      modifies this`indexBytes, this`expectedTotal, this`expected, this`counts
      ensures r.Accepted? ==> Declaring() && counts == Counts(chunks)
      ensures r.Accepted? <==> (forall k :: 0 <= k < |chunks| ==> |chunks[k].counts| <= |ids|)
                               && CountsFit(ids, |chunks|, Counts(chunks), maxMessages, maxIndexBytes)
    {
      for i := 0 to |chunks|
        invariant Declaring() && counts == Counts(chunks[..i])
        invariant forall k :: 0 <= k < i ==> |chunks[k].counts| <= |ids|
      {
        if |chunks[i].counts| > |ids| {
          return Refused(Malformed);
        }
        assert chunks[..i + 1][..i] == chunks[..i];
        r := DeclareChunk(chunks[i].counts);
        if r.Refused? {
          ghost var rest := PrefixCounts(chunks, i + 1);
          if CountsFit(ids, |chunks|, Counts(chunks), maxMessages, maxIndexBytes) {
            CountsFitPrefix(ids, |chunks|, Counts(chunks[..i + 1]), rest, maxMessages, maxIndexBytes);
          }
          return;
        }
      }
      assert chunks[..|chunks|] == chunks;
      r := Accepted;
    }

    method DeclareChunk(pairs: seq<Count>) returns (r: Outcome)
      requires Declaring()
      modifies this`indexBytes, this`expectedTotal, this`expected, this`counts
      ensures r.Accepted? ==> Declaring() && counts == old(counts) + pairs
      ensures r.Refused? ==> !CountsFit(ids, chunkCount, old(counts) + pairs, maxMessages, maxIndexBytes)
    {
      ghost var before := counts;
      assert before + pairs[..0] == before;
      for k := 0 to |pairs|
        invariant Declaring() && counts == before + pairs[..k]
      {
        assert (before + pairs[..k]) + [pairs[k]] == before + pairs[..k + 1];
        r := Declare(pairs[k]);
        if r.Refused? {
          assert (before + pairs[..k + 1]) + pairs[k + 1..] == before + pairs;
          if CountsFit(ids, chunkCount, before + pairs, maxMessages, maxIndexBytes) {
            CountsFitPrefix(ids, chunkCount, before + pairs[..k + 1], pairs[k + 1..], maxMessages, maxIndexBytes);
          }
          return;
        }
      }
      assert pairs[..|pairs|] == pairs;
      r := Accepted;
    }

    /** One IDXDATA record: refused exactly if no consistent bag begins with the records up to it. */
    method Record(chunk: nat, record: IndexRecord) returns (r: Outcome)
      requires Recording()
      modifies this`indexes, this`records
      ensures r.Accepted? ==> Recording() && records == old(records) + [Placed(chunk, record)]
      ensures r.Refused? ==> !RecordsAllowed(counts, old(records) + [Placed(chunk, record)])
    {
      var id := record.connection;
      ghost var placed := Placed(chunk, record);
      ghost var before, more := records, records + [placed];
      assert more[..|more| - 1] == before && placed in more;
      if id !in expected {
        return Refused(Malformed);
      }
      var entries := indexes[id];
      if |record.entries| > expected[id] - |entries| {
        assert |EntriesOf(more, id)| > Declared(counts, id);
        return Refused(Malformed);
      }
      var timely, stamped := StampAll(chunk, record.entries);
      if !timely {
        assert !Timely(placed);
        return Refused(Malformed);
      }
      indexes, records := indexes[id := entries + stamped], more;
      r := Accepted;
    }

    /** The entries of one index record, with the check of their nanoseconds. */
    static method StampAll(chunk: nat, raws: seq<RawEntry>) returns (ok: bool, entries: seq<Timed<Entry>>)
      ensures ok <==> forall k :: 0 <= k < |raws| ==> raws[k].nsec < 1_000_000_000
      ensures ok ==> entries == Stamped(chunk, raws)
      ensures ok ==> forall k :: 0 <= k < |raws| ==>
        entries[k] == Timed(raws[k].sec * 1_000_000_000 + raws[k].nsec, Entry(chunk, raws[k].offset))
    {
      entries := [];
      for k := 0 to |raws|
        invariant |entries| == k && forall j :: 0 <= j < k ==> entries[j] == Stamp(chunk, raws[j])
        invariant forall j :: 0 <= j < k ==> raws[j].nsec < R.NANOSECONDS
      {
        if raws[k].nsec >= R.NANOSECONDS {
          return false, [];
        }
        entries := entries + [Stamp(chunk, raws[k])];
      }
      ok := true;
    }

    /** All index records, chunk after chunk. */
    method RecordAll(chunks: seq<Chunk>) returns (r: Outcome)
      requires Recording() && records == []
      modifies this`indexes, this`records
      ensures r.Accepted? ==> Recording() && records == AllRecords(chunks)
      ensures r.Refused? ==> !RecordsFit(counts, AllRecords(chunks))
    {
      for i := 0 to |chunks|
        invariant Recording() && records == AllRecords(chunks[..i])
      {
        assert chunks[..i + 1][..i] == chunks[..i];
        r := RecordChunk(i, chunks[i].records);
        if r.Refused? {
          ghost var rest := PrefixRecords(chunks, i + 1);
          if RecordsFit(counts, AllRecords(chunks)) {
            RecordsFitPrefix(counts, AllRecords(chunks[..i + 1]), rest);
          }
          return;
        }
      }
      assert chunks[..|chunks|] == chunks;
      r := Accepted;
    }

    method RecordChunk(chunk: nat, more: seq<IndexRecord>) returns (r: Outcome)
      requires Recording()
      modifies this`indexes, this`records
      ensures r.Accepted? ==> Recording() && records == old(records) + PlacedAt(chunk, more)
      ensures r.Refused? ==> !RecordsAllowed(counts, old(records) + PlacedAt(chunk, more))
    {
      ghost var before, placed := records, PlacedAt(chunk, more);
      for k := 0 to |more|
        invariant Recording() && records == before + placed[..k]
      {
        assert (before + placed[..k]) + [Placed(chunk, more[k])] == before + placed[..k + 1];
        r := Record(chunk, more[k]);
        if r.Refused? {
          assert (before + placed[..k + 1]) + placed[k + 1..] == before + placed;
          if RecordsAllowed(counts, before + placed) {
            RecordsAllowedPrefix(counts, before + placed[..k + 1], placed[k + 1..]);
          }
          return;
        }
      }
      assert placed[..|placed|] == placed;
      r := Accepted;
    }

    /** After the last chunk: every connection must have got exactly what was declared; then the sorts. */
    method Finish() returns (r: Outcome)
      requires Recording()
      modifies this`indexes
      ensures r.Accepted? <==> RecordsFit(counts, records)
      ensures r.Accepted? ==> forall id :: IndexOf(indexes, id) == StableSort(EntriesOf(records, id))
    {
      if id :| id in expected && |indexes[id]| != expected[id] {
        return Refused(Malformed);
      }
      forall id | !Mentioned(counts, id)
        ensures EntriesOf(records, id) == []
      {
        NoEntries(records, id);
      }
      indexes := map id | id in indexes :: StableSort(indexes[id]);
      r := Accepted;
    }
  }

  lemma {:induction false} NoEntries(records: seq<Placed>, id: nat)
    requires forall p :: p in records ==> p.record.connection != id
    ensures EntriesOf(records, id) == []
  {
    if records != [] {
      NoEntries(records[..|records| - 1], id);
      assert records[|records| - 1] in records;
    }
  }

  lemma {:induction false} SortKeepsLength<T>(xs: seq<Timed<T>>)
    ensures |StableSort(xs)| == |xs|
  {
    if xs != [] {
      SortKeepsLength(xs[1..]);
      InsertLength(xs[0], StableSort(xs[1..]));
    }
  }

  lemma {:induction false} InsertLength<T>(x: Timed<T>, ys: seq<Timed<T>>)
    ensures |Insert(x, ys)| == |ys| + 1
  {
    if ys != [] && x.time > ys[0].time {
      InsertLength(x, ys[1..]);
    }
  }

  predicate HeaderFits(connectionCount: nat, chunkCount: nat, fileSize: nat, indexPos: nat) {
    && 0 < indexPos <= fileSize
    && connectionCount <= (fileSize - indexPos) / 8 && chunkCount <= (fileSize - indexPos) / 8
  }

  /** The header's counts against the file and the budget. */
  method CheckHeader(connectionCount: nat, chunkCount: nat, fileSize: nat, indexPos: nat, maxIndexBytes: nat)
      returns (r: Outcome)
    ensures r.Accepted?
      <==> HeaderFits(connectionCount, chunkCount, fileSize, indexPos) && Cost(chunkCount, 0) <= maxIndexBytes
    ensures r == Refused(OverLimit) ==> HeaderFits(connectionCount, chunkCount, fileSize, indexPos)
  {
    if indexPos == 0 || indexPos > fileSize {
      return Refused(Malformed);
    }
    if connectionCount > (fileSize - indexPos) / 8 || chunkCount > (fileSize - indexPos) / 8 {
      return Refused(Malformed);
    }
    if chunkCount > maxIndexBytes / CHUNK_BYTES {
      return Refused(OverLimit);
    }
    r := Accepted;
  }

  method CheckIds(ids: seq<nat>) returns (ok: bool)
    ensures ok <==> Distinct(ids)
  {
    var seen: set<nat> := {};
    for k := 0 to |ids|
      invariant Distinct(ids[..k]) && forall id :: id in seen <==> id in ids[..k]
    {
      if ids[k] in seen {
        assert ids[k] in ids[..k];
        return false;
      }
      seen := seen + {ids[k]};
    }
    ok := true;
  }

  method CountMessages(ids: seq<nat>, indexes: Indexes, ghost counts: seq<Count>) returns (n: nat)
    requires forall id :: |IndexOf(indexes, id)| == Declared(counts, id)
    ensures n == SumDeclared(ids, counts)
  {
    n := 0;
    for k := 0 to |ids|
      invariant n == SumDeclared(ids[..k], counts)
    {
      assert ids[..k + 1][..k] == ids[..k];
      n := n + |IndexOf(indexes, ids[k])|;
    }
    assert ids[..|ids|] == ids;
  }

  /**
   `open`: the bag is accepted exactly if it is consistent; then each connection's index is its
   entries stably sorted, as many as were declared, and all of them together are the total declared.
   */
  method Open(ids: seq<nat>, chunks: seq<Chunk>, fileSize: nat, indexPos: nat, maxIndexBytes: nat)
      returns (r: Outcome, indexes: Indexes, messageCount: nat)
    ensures r.Accepted?
      <==> HeaderFits(|ids|, |chunks|, fileSize, indexPos) && Consistent(ids, chunks, fileSize, maxIndexBytes)
    ensures r.Accepted? ==> forall id ::
      && IndexOf(indexes, id) == StableSort(EntriesOf(AllRecords(chunks), id))
      && |IndexOf(indexes, id)| == Declared(Counts(chunks), id)
    ensures r.Accepted? ==> messageCount == Total(Counts(chunks))
  {
    indexes, messageCount := map[], 0;
    r := CheckHeader(|ids|, |chunks|, fileSize, indexPos, maxIndexBytes);
    if r.Refused? {
      return;
    }
    var distinct := CheckIds(ids);
    if !distinct {
      return Refused(Malformed), map[], 0;
    }
    var builder := new Builder(ids, |chunks|, MaxMessages(fileSize), maxIndexBytes);
    r := builder.DeclareAll(chunks);
    if r.Refused? {
      return;
    }
    builder.Reserve();
    r := builder.RecordAll(chunks);
    if r.Refused? {
      return;
    }
    r := builder.Finish();
    if r.Refused? {
      return;
    }
    indexes := builder.indexes;
    forall id
      ensures |IndexOf(indexes, id)| == Declared(Counts(chunks), id)
    {
      SortKeepsLength(EntriesOf(AllRecords(chunks), id));
      if !Mentioned(Counts(chunks), id) {
        NoEntries(AllRecords(chunks), id);
        Builder.Unmentioned(Counts(chunks), id);
      }
    }
    messageCount := CountMessages(ids, indexes, Counts(chunks));
    CountsAreConserved(ids, Counts(chunks));
  }
}
