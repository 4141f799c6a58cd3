/** Building the ROS1 index: the counts the chunk infos declare against the entries the index records hold. */
module Ros1Index {
  import opened StableOrder
  import opened Ros1Cursor
  import R = Records

  /** One pair of a CHUNK_INFO body: so many messages of this connection. */
  datatype Count = Count(id: nat, messages: nat)

  datatype RawEntry = RawEntry(sec: nat, nsec: nat, offset: nat)
  datatype IndexRecord = IndexRecord(connection: nat, entries: seq<RawEntry>)

  /** A chunk as the file describes it: what its CHUNK_INFO declares and the IDXDATA records after it. */
  datatype Chunk = Chunk(counts: seq<Count>, records: seq<IndexRecord>)

  /** An index record with the position of its chunk. */
  datatype Placed = Placed(chunk: nat, record: IndexRecord)

  datatype Failure = Malformed | OverLimit
  datatype Outcome = Accepted | Refused(f: Failure)

  /** `sizeof(ChunkInfo) + sizeof(Chunk)` and `sizeof(IndexEntry)` of a 64-bit build. */
  const CHUNK_BYTES := 88
  const ENTRY_BYTES := 16

  // ----- what the file declares -----

  function Total(counts: seq<Count>): nat {
    if counts == [] then 0 else Total(counts[..|counts| - 1]) + counts[|counts| - 1].messages
  }

  function Declared(counts: seq<Count>, id: nat): nat {
    if counts == [] then 0
    else
      var last := counts[|counts| - 1];
      Declared(counts[..|counts| - 1], id) + if last.id == id then last.messages else 0
  }

  predicate Mentioned(counts: seq<Count>, id: nat) {
    exists k :: 0 <= k < |counts| && counts[k].id == id
  }

  /** All pairs of all chunk infos, in file order. */
  function Counts(chunks: seq<Chunk>): seq<Count> {
    if chunks == [] then [] else Counts(chunks[..|chunks| - 1]) + chunks[|chunks| - 1].counts
  }

  // ----- what the file records -----

  function Stamp(chunk: nat, raw: RawEntry): Timed<Entry> {
    Timed(raw.sec * R.NANOSECONDS + raw.nsec, Entry(chunk, raw.offset))
  }

  function Stamped(chunk: nat, raws: seq<RawEntry>): (xs: seq<Timed<Entry>>)
    ensures |xs| == |raws|
    ensures forall k :: 0 <= k < |raws| ==> xs[k] == Stamp(chunk, raws[k])
  {
    seq(|raws|, k requires 0 <= k < |raws| => Stamp(chunk, raws[k]))
  }

  function PlacedAt(chunk: nat, records: seq<IndexRecord>): (ps: seq<Placed>)
    ensures |ps| == |records|
    ensures forall k :: 0 <= k < |records| ==> ps[k] == Placed(chunk, records[k])
  {
    seq(|records|, k requires 0 <= k < |records| => Placed(chunk, records[k]))
  }

  /** All index records of all chunks, in file order. */
  function AllRecords(chunks: seq<Chunk>): seq<Placed> {
    if chunks == [] then []
    else
      var last := |chunks| - 1;
      AllRecords(chunks[..last]) + PlacedAt(last, chunks[last].records)
  }

  /** One connection's entries, in file order. */
  function EntriesOf(records: seq<Placed>, id: nat): seq<Timed<Entry>> {
    if records == [] then []
    else
      var last := records[|records| - 1];
      EntriesOf(records[..|records| - 1], id)
      + if last.record.connection == id then Stamped(last.chunk, last.record.entries) else []
  }

  predicate Timely(p: Placed) {
    forall k :: 0 <= k < |p.record.entries| ==> p.record.entries[k].nsec < R.NANOSECONDS
  }

  // ----- prefixes -----

  lemma {:induction false} PrefixTotal(a: seq<Count>, b: seq<Count>)
    ensures Total(a) <= Total(a + b)
    decreases |b|
  {
    if b == [] {
      assert a + b == a;
    } else {
      var front := b[..|b| - 1];
      PrefixTotal(a, front);
      assert (a + b)[..|a + b| - 1] == a + front;
    }
  }

  lemma {:induction false} PrefixEntries(a: seq<Placed>, b: seq<Placed>, id: nat)
    ensures |EntriesOf(a, id)| <= |EntriesOf(a + b, id)|
    decreases |b|
  {
    if b == [] {
      assert a + b == a;
    } else {
      var front := b[..|b| - 1];
      PrefixEntries(a, front, id);
      assert (a + b)[..|a + b| - 1] == a + front;
    }
  }

  lemma {:induction false} PrefixCounts(chunks: seq<Chunk>, n: nat) returns (rest: seq<Count>)
    requires n <= |chunks|
    ensures Counts(chunks) == Counts(chunks[..n]) + rest
    decreases |chunks|
  {
    if n == |chunks| {
      assert chunks[..n] == chunks;
      rest := [];
    } else {
      var front, last := chunks[..|chunks| - 1], chunks[|chunks| - 1];
      rest := PrefixCounts(front, n);
      assert front[..n] == chunks[..n];
      assert (Counts(chunks[..n]) + rest) + last.counts == Counts(chunks[..n]) + (rest + last.counts);
      rest := rest + last.counts;
    }
  }

  lemma {:induction false} PrefixRecords(chunks: seq<Chunk>, n: nat) returns (rest: seq<Placed>)
    requires n <= |chunks|
    ensures AllRecords(chunks) == AllRecords(chunks[..n]) + rest
    decreases |chunks|
  {
    if n == |chunks| {
      assert chunks[..n] == chunks;
      rest := [];
    } else {
      var last := |chunks| - 1;
      var more := PlacedAt(last, chunks[last].records);
      rest := PrefixRecords(chunks[..last], n);
      assert chunks[..last][..n] == chunks[..n];
      assert (AllRecords(chunks[..n]) + rest) + more == AllRecords(chunks[..n]) + (rest + more);
      rest := rest + more;
    }
  }

  // ----- the exact condition for opening -----

  /** What `max_index_bytes` has to cover. */
  function Cost(chunkCount: nat, messages: nat): nat {
    chunkCount * CHUNK_BYTES + messages * ENTRY_BYTES
  }

  /** An index entry takes 12 bytes of the file. */
  function MaxMessages(fileSize: nat): nat {
    fileSize / 12
  }

  ghost predicate Distinct(ids: seq<nat>) {
    forall j, k :: 0 <= j < k < |ids| ==> ids[j] != ids[k]
  }

  ghost predicate CountsFit(ids: seq<nat>, chunkCount: nat, counts: seq<Count>, maxMessages: nat, maxIndexBytes: nat) {
    && (forall c :: c in counts ==> c.id in ids)
    && Total(counts) <= maxMessages
    && Cost(chunkCount, Total(counts)) <= maxIndexBytes
  }

  ghost predicate RecordsFit(counts: seq<Count>, records: seq<Placed>) {
    && (forall p :: p in records ==> Mentioned(counts, p.record.connection) && Timely(p))
    && forall id :: Mentioned(counts, id) ==> |EntriesOf(records, id)| == Declared(counts, id)
  }

  /** What holds of every prefix of the records of a consistent bag. */
  ghost predicate RecordsAllowed(counts: seq<Count>, records: seq<Placed>) {
    && (forall p :: p in records ==> Mentioned(counts, p.record.connection) && Timely(p))
    && forall id :: Mentioned(counts, id) ==> |EntriesOf(records, id)| <= Declared(counts, id)
  }

  lemma {:induction false} CountsFitPrefix(ids: seq<nat>, chunkCount: nat, a: seq<Count>, b: seq<Count>,
      maxMessages: nat, maxIndexBytes: nat)
    requires CountsFit(ids, chunkCount, a + b, maxMessages, maxIndexBytes)
    ensures CountsFit(ids, chunkCount, a, maxMessages, maxIndexBytes)
  {
    PrefixTotal(a, b);
    forall c | c in a
      ensures c.id in ids
    {
      assert c in a + b;
    }
  }

  lemma {:induction false} RecordsFitPrefix(counts: seq<Count>, a: seq<Placed>, b: seq<Placed>)
    requires RecordsFit(counts, a + b)
    ensures RecordsAllowed(counts, a)
  {
    RecordsAllowedPrefix(counts, a, b);
  }

  lemma {:induction false} RecordsAllowedPrefix(counts: seq<Count>, a: seq<Placed>, b: seq<Placed>)
    requires RecordsAllowed(counts, a + b)
    ensures RecordsAllowed(counts, a)
  {
    forall p | p in a
      ensures Mentioned(counts, p.record.connection) && Timely(p)
    {
      assert p in a + b;
    }
    forall id | Mentioned(counts, id)
      ensures |EntriesOf(a, id)| <= Declared(counts, id)
    {
      PrefixEntries(a, b, id);
    }
  }

  ghost predicate Consistent(ids: seq<nat>, chunks: seq<Chunk>, fileSize: nat, maxIndexBytes: nat) {
    && Distinct(ids)
    && (forall k :: 0 <= k < |chunks| ==> |chunks[k].counts| <= |ids|)
    && CountsFit(ids, |chunks|, Counts(chunks), MaxMessages(fileSize), maxIndexBytes)
    && RecordsFit(Counts(chunks), AllRecords(chunks))
  }

  /** Consistency in numbers. */
  lemma {:induction false} ConsistencyIs(ids: seq<nat>, chunks: seq<Chunk>, fileSize: nat, maxIndexBytes: nat)
    ensures Consistent(ids, chunks, fileSize, maxIndexBytes)
      <==>
      && (forall j, k :: 0 <= j < k < |ids| ==> ids[j] != ids[k])
      && (forall k :: 0 <= k < |chunks| ==> |chunks[k].counts| <= |ids|)
      && (forall c :: c in Counts(chunks) ==> c.id in ids)
      && Total(Counts(chunks)) <= fileSize / 12
      && |chunks| * 88 + Total(Counts(chunks)) * 16 <= maxIndexBytes
      && RecordsFit(Counts(chunks), AllRecords(chunks))
  {
  }

  /** Every record's connection is declared and its times are times; every connection gets what it declares. */
  lemma {:induction false} RecordsFitIs(counts: seq<Count>, records: seq<Placed>)
    ensures RecordsFit(counts, records)
      <==>
      && (forall p :: p in records ==>
            && (exists c :: c in counts && c.id == p.record.connection)
            && forall k :: 0 <= k < |p.record.entries| ==> p.record.entries[k].nsec < 1_000_000_000)
      && forall c :: c in counts ==> |EntriesOf(records, c.id)| == Declared(counts, c.id)
  {
    MentionedIsMember(counts);
    forall p: Placed
      ensures Timely(p) == (forall k :: 0 <= k < |p.record.entries| ==> p.record.entries[k].nsec < 1_000_000_000)
    {
    }
  }

  lemma {:induction false} MentionedIsMember(counts: seq<Count>)
    ensures forall id :: Mentioned(counts, id) <==> exists c :: c in counts && c.id == id
  {
    forall id
      ensures Mentioned(counts, id) <==> exists c :: c in counts && c.id == id
    {
      if Mentioned(counts, id) {
        var k :| 0 <= k < |counts| && counts[k].id == id;
        assert counts[k] in counts;
      }
    }
  }

  /** Counts and entries are added up record by record. */
  lemma {:induction false} SumsAre(counts: seq<Count>, c: Count, records: seq<Placed>, p: Placed, id: nat)
    ensures Total([]) == 0 && Total(counts + [c]) == Total(counts) + c.messages
    ensures Declared([], id) == 0
    ensures Declared(counts + [c], id) == if c.id == id then Declared(counts, id) + c.messages else Declared(counts, id)
    ensures EntriesOf([], id) == []
    ensures EntriesOf(records + [p], id)
         == if p.record.connection == id then EntriesOf(records, id) + Stamped(p.chunk, p.record.entries)
            else EntriesOf(records, id)
  {
    assert (counts + [c])[..|counts|] == counts && (records + [p])[..|records|] == records;
  }
}
