/**
 A ROS1 bag as it is written: chunks of records, and for each chunk the counts and index entries of
 its messages.  Such a bag opens, and reads back to its messages.
 */
module Ros1Written {
  import opened Wrappers
  import opened Bytes
  import opened Lists
  import opened StableOrder
  import opened Filters
  import opened Ros1Cursor
  import opened Ros1Index
  import opened Ros1Reading
  import B = Backends
  import M = Ros1Message
  import O = Ros1Open
  import R = Records

  /** A record of a chunk: a message of the connection at this position, or the record of a connection. */
  datatype Item =
    | Said(connection: nat, sec: nat, nsec: nat, header: List<R.Field>, body: seq<byte>)
    | Declaration(header: List<R.Field>, body: seq<byte>)

  function ItemBytes(x: Item): seq<byte> {
    R.RecordBytes(x.header, x.body)
  }

  function ChunkBytes(items: seq<Item>): seq<byte> {
    if items == [] then [] else ChunkBytes(items[..|items| - 1]) + ItemBytes(items[|items| - 1])
  }

  /** The index entries of connection `c` in a chunk: each at the offset of its own record. */
  function RawOf(items: seq<Item>, c: nat): seq<RawEntry> {
    if items == [] then []
    else
      var front, x := items[..|items| - 1], items[|items| - 1];
      RawOf(front, c)
      + if x.Said? && x.connection == c then [RawEntry(x.sec, x.nsec, |ChunkBytes(front)|)] else []
  }

  /** The messages of connection `c` in a chunk. */
  function MessagesOf(items: seq<Item>, c: nat): seq<Timed<Message>> {
    if items == [] then [] else MessagesOf(items[..|items| - 1], c) + ItemMessage(items[|items| - 1], c)
  }

  function ItemMessage(x: Item, c: nat): seq<Timed<Message>> {
    if x.Said? && x.connection == c then [Timed(x.sec * 1_000_000_000 + x.nsec, Message(c, x.body))] else []
  }

  function ItemSlot(k: nat, offset: nat, x: Item, c: nat): seq<Timed<Slot>> {
    if x.Said? && x.connection == c then [Timed(x.sec * 1_000_000_000 + x.nsec, Slot(c, Entry(k, offset)))] else []
  }

  /** What is written can be: header and body fit their words and the limits, and the header says what it must. */
  predicate Writable(ids: seq<nat>, headerLimit: nat, messageLimit: nat, x: Item) {
    x.Said? ==>
      && x.connection < |ids| && ids[x.connection] <= U32_MAX
      && x.sec <= U32_MAX && x.nsec < 1_000_000_000
      && |x.body| <= U32_MAX && |x.body| <= messageLimit
      && R.AllWritable(x.header) && M.Says(x.header, ids[x.connection], x.sec, x.nsec)
      && |R.HeaderBytes(x.header)| <= U32_MAX && |R.HeaderBytes(x.header)| <= headerLimit
  }

  predicate AllWritable(ids: seq<nat>, headerLimit: nat, messageLimit: nat, items: seq<Item>) {
    forall x :: x in items ==> Writable(ids, headerLimit, messageLimit, x)
  }

  // ----- the description of a chunk -----

  function CountsOf(ids: seq<nat>, items: seq<Item>, n: nat): (counts: seq<Count>)
    requires n <= |ids|
    ensures |counts| == n && forall c :: 0 <= c < n ==> counts[c] == Count(ids[c], |RawOf(items, c)|)
  {
    if n == 0 then [] else CountsOf(ids, items, n - 1) + [Count(ids[n - 1], |RawOf(items, n - 1)|)]
  }

  function RecordsOf(ids: seq<nat>, items: seq<Item>, n: nat): (records: seq<IndexRecord>)
    requires n <= |ids|
    ensures |records| == n && forall c :: 0 <= c < n ==> records[c] == IndexRecord(ids[c], RawOf(items, c))
  {
    if n == 0 then [] else RecordsOf(ids, items, n - 1) + [IndexRecord(ids[n - 1], RawOf(items, n - 1))]
  }

  function Described(ids: seq<nat>, written: seq<seq<Item>>): (chunks: seq<Chunk>)
    ensures |chunks| == |written|
    ensures forall k :: 0 <= k < |chunks| ==>
      chunks[k] == Chunk(CountsOf(ids, written[k], |ids|), RecordsOf(ids, written[k], |ids|))
  {
    seq(|written|, k requires 0 <= k < |written| =>
      Chunk(CountsOf(ids, written[k], |ids|), RecordsOf(ids, written[k], |ids|)))
  }

  function Loaded(written: seq<seq<Item>>): (loaded: seq<Option<seq<byte>>>)
    ensures |loaded| == |written| && forall k :: 0 <= k < |loaded| ==> loaded[k] == Some(ChunkBytes(written[k]))
  {
    seq(|written|, k requires 0 <= k < |written| => Some(ChunkBytes(written[k])))
  }

  function EntriesIn(written: seq<seq<Item>>, c: nat): seq<Timed<Entry>> {
    if written == [] then []
    else
      var last := |written| - 1;
      EntriesIn(written[..last], c) + Stamped(last, RawOf(written[last], c))
  }

  function MessagesIn(written: seq<seq<Item>>, c: nat): seq<Timed<Message>> {
    if written == [] then []
    else
      var last := |written| - 1;
      MessagesIn(written[..last], c) + MessagesOf(written[last], c)
  }

  /** All messages of the bag, connection after connection. */
  function Contents(written: seq<seq<Item>>, n: nat): seq<Timed<Message>> {
    if n == 0 then [] else Contents(written, n - 1) + MessagesIn(written, n - 1)
  }

  function MessagesBelow(items: seq<Item>, n: nat): nat {
    if items == [] then 0
    else
      var x := items[|items| - 1];
      MessagesBelow(items[..|items| - 1], n) + if x.Said? && x.connection < n then 1 else 0
  }

  function MessageCount(written: seq<seq<Item>>, n: nat): nat {
    if written == [] then 0
    else MessageCount(written[..|written| - 1], n) + MessagesBelow(written[|written| - 1], n)
  }

  // ----- it opens -----

  lemma {:induction false} SameId(ids: seq<nat>, i: nat, j: nat)
    requires Distinct(ids) && i < |ids| && j < |ids|
    ensures ids[i] == ids[j] <==> i == j
  {
  }

  lemma {:induction false} EntriesConcat(a: seq<Placed>, b: seq<Placed>, id: nat)
    ensures EntriesOf(a + b, id) == EntriesOf(a, id) + EntriesOf(b, id)
    decreases |b|
  {
    if b == [] {
      assert a + b == a;
    } else {
      var front, last := b[..|b| - 1], b[|b| - 1];
      EntriesConcat(a, front, id);
      assert a + b == (a + front) + [last] && b == front + [last];
      LastRecord(a + front, last, id);
      LastRecord(front, last, id);
    }
  }

  lemma {:induction false} LastRecord(front: seq<Placed>, last: Placed, id: nat)
    ensures EntriesOf(front + [last], id)
         == EntriesOf(front, id) + if last.record.connection == id then Stamped(last.chunk, last.record.entries) else []
  {
    assert (front + [last])[..|front|] == front;
  }

  /** With one record for each of distinct ids, an id's entries are those of its record. */
  lemma {:induction false} EntriesOfOne(ids: seq<nat>, records: seq<Placed>, c: nat)
    requires Distinct(ids) && c < |ids| && |records| <= |ids|
    requires forall j :: 0 <= j < |records| ==> records[j].record.connection == ids[j]
    ensures EntriesOf(records, ids[c])
         == if c < |records| then Stamped(records[c].chunk, records[c].record.entries) else []
  {
    if records != [] {
      EntriesOfOne(ids, records[..|records| - 1], c);
      SameId(ids, |records| - 1, c);
    }
  }

  lemma {:induction false} EntriesAreWritten(ids: seq<nat>, written: seq<seq<Item>>, c: nat)
    requires Distinct(ids) && c < |ids|
    ensures EntriesOf(AllRecords(Described(ids, written)), ids[c]) == EntriesIn(written, c)
  {
    if written != [] {
      var last, chunks := |written| - 1, Described(ids, written);
      EntriesAreWritten(ids, written[..last], c);
      assert chunks[..last] == Described(ids, written[..last]);
      EntriesConcat(AllRecords(chunks[..last]), PlacedAt(last, chunks[last].records), ids[c]);
      ChunkEntries(ids, written[last], last, c);
    }
  }

  lemma {:induction false} ChunkEntries(ids: seq<nat>, items: seq<Item>, k: nat, c: nat)
    requires Distinct(ids) && c < |ids|
    ensures EntriesOf(PlacedAt(k, RecordsOf(ids, items, |ids|)), ids[c]) == Stamped(k, RawOf(items, c))
  {
    EntriesOfOne(ids, PlacedAt(k, RecordsOf(ids, items, |ids|)), c);
  }

  lemma {:induction false} DeclaredConcat(a: seq<Count>, b: seq<Count>, id: nat)
    ensures Declared(a + b, id) == Declared(a, id) + Declared(b, id)
    ensures Total(a + b) == Total(a) + Total(b)
    decreases |b|
  {
    if b == [] {
      assert a + b == a;
    } else {
      var front := b[..|b| - 1];
      DeclaredConcat(a, front, id);
      assert (a + b)[..|a + b| - 1] == a + front;
    }
  }

  lemma {:induction false} DeclaredOfOne(ids: seq<nat>, counts: seq<Count>, c: nat)
    requires Distinct(ids) && c < |ids| && |counts| <= |ids|
    requires forall j :: 0 <= j < |counts| ==> counts[j].id == ids[j]
    ensures Declared(counts, ids[c]) == if c < |counts| then counts[c].messages else 0
  {
    if counts != [] {
      DeclaredOfOne(ids, counts[..|counts| - 1], c);
      SameId(ids, |counts| - 1, c);
    }
  }

  lemma {:induction false} CountsOfLast(ids: seq<nat>, written: seq<seq<Item>>, front: seq<seq<Item>>)
    requires written != [] && front == written[..|written| - 1]
    ensures Counts(Described(ids, written))
         == Counts(Described(ids, front)) + Described(ids, written)[|written| - 1].counts
  {
    var chunks := Described(ids, written);
    assert chunks[..|written| - 1] == Described(ids, front);
  }

  lemma {:induction false} CountsAreWritten(ids: seq<nat>, written: seq<seq<Item>>, c: nat)
    requires Distinct(ids) && c < |ids|
    ensures Declared(Counts(Described(ids, written)), ids[c]) == |EntriesIn(written, c)|
  {
    if written != [] {
      var front, counts := written[..|written| - 1], Described(ids, written)[|written| - 1].counts;
      CountsAreWritten(ids, front, c);
      CountsOfLast(ids, written, front);
      DeclaredConcat(Counts(Described(ids, front)), counts, ids[c]);
      DeclaredOfOne(ids, counts, c);
    }
  }

  lemma {:induction false} OneMoreConnection(items: seq<Item>, n: nat)
    ensures MessagesBelow(items, n + 1) == MessagesBelow(items, n) + |RawOf(items, n)|
    ensures MessagesBelow(items, 0) == 0
  {
    if items != [] {
      OneMoreConnection(items[..|items| - 1], n);
    }
  }

  lemma {:induction false} TotalOfChunk(ids: seq<nat>, items: seq<Item>, n: nat)
    requires n <= |ids|
    ensures Total(CountsOf(ids, items, n)) == MessagesBelow(items, n)
  {
    if n == 0 {
      OneMoreConnection(items, 0);
    } else {
      TotalOfChunk(ids, items, n - 1);
      OneMoreConnection(items, n - 1);
      assert CountsOf(ids, items, n)[..n - 1] == CountsOf(ids, items, n - 1);
    }
  }

  lemma {:induction false} TotalIsWritten(ids: seq<nat>, written: seq<seq<Item>>)
    ensures Total(Counts(Described(ids, written))) == MessageCount(written, |ids|)
  {
    if written != [] {
      var last, chunks := |written| - 1, Described(ids, written);
      TotalIsWritten(ids, written[..last]);
      assert chunks[..last] == Described(ids, written[..last]);
      DeclaredConcat(Counts(chunks[..last]), chunks[last].counts, 0);
      TotalOfChunk(ids, written[last], |ids|);
    }
  }

  lemma {:induction false} CountIsKnown(ids: seq<nat>, written: seq<seq<Item>>, k: nat)
    requires k < |Counts(Described(ids, written))|
    ensures Counts(Described(ids, written))[k].id in ids
  {
    var last, chunks := |written| - 1, Described(ids, written);
    assert chunks[..last] == Described(ids, written[..last]);
    if k < |Counts(chunks[..last])| {
      CountIsKnown(ids, written[..last], k);
    } else {
      assert Counts(chunks)[k] == CountsOf(ids, written[last], |ids|)[k - |Counts(chunks[..last])|];
    }
  }

  lemma {:induction false} RawIsTimely(ids: seq<nat>, headerLimit: nat, messageLimit: nat, items: seq<Item>,
      c: nat, e: RawEntry)
    requires AllWritable(ids, headerLimit, messageLimit, items) && e in RawOf(items, c)
    ensures e.nsec < 1_000_000_000
  {
    var front, x := items[..|items| - 1], items[|items| - 1];
    assert x in items && forall y :: y in front ==> y in items;
    if e in RawOf(front, c) {
      RawIsTimely(ids, headerLimit, messageLimit, front, c, e);
    }
  }

  lemma {:induction false} RecordIsTimely(ids: seq<nat>, headerLimit: nat, messageLimit: nat, items: seq<Item>,
      k: nat, c: nat)
    requires c < |ids| && AllWritable(ids, headerLimit, messageLimit, items)
    ensures Timely(Placed(k, IndexRecord(ids[c], RawOf(items, c))))
  {
    forall i | 0 <= i < |RawOf(items, c)|
      ensures RawOf(items, c)[i].nsec < 1_000_000_000
    {
      RawIsTimely(ids, headerLimit, messageLimit, items, c, RawOf(items, c)[i]);
    }
  }

  lemma {:induction false} MentionedInMore(a: seq<Count>, b: seq<Count>, id: nat)
    requires Mentioned(a, id) || Mentioned(b, id)
    ensures Mentioned(a + b, id)
  {
    if Mentioned(a, id) {
      var k :| 0 <= k < |a| && a[k].id == id;
      assert (a + b)[k] == a[k];
    } else {
      var k :| 0 <= k < |b| && b[k].id == id;
      assert (a + b)[|a| + k] == b[k];
    }
  }

  lemma {:induction false} RecordIsKnown(ids: seq<nat>, headerLimit: nat, messageLimit: nat,
      written: seq<seq<Item>>, p: Placed)
    requires forall k :: 0 <= k < |written| ==> AllWritable(ids, headerLimit, messageLimit, written[k])
    requires p in AllRecords(Described(ids, written))
    ensures Mentioned(Counts(Described(ids, written)), p.record.connection) && Timely(p)
  {
    var last, chunks := |written| - 1, Described(ids, written);
    assert chunks[..last] == Described(ids, written[..last]);
    if p in AllRecords(chunks[..last]) {
      RecordIsKnown(ids, headerLimit, messageLimit, written[..last], p);
    } else {
      var c :| 0 <= c < |ids| && p == Placed(last, IndexRecord(ids[c], RawOf(written[last], c)));
      RecordIsTimely(ids, headerLimit, messageLimit, written[last], last, c);
      assert chunks[last].counts[c].id == ids[c];
    }
    MentionedInMore(Counts(chunks[..last]), chunks[last].counts, p.record.connection);
  }

  lemma {:induction false} EntriesAreCounted(ids: seq<nat>, written: seq<seq<Item>>, id: nat)
    requires Distinct(ids) && Mentioned(Counts(Described(ids, written)), id)
    ensures |EntriesOf(AllRecords(Described(ids, written)), id)| == Declared(Counts(Described(ids, written)), id)
  {
    var counts := Counts(Described(ids, written));
    var k :| 0 <= k < |counts| && counts[k].id == id;
    CountIsKnown(ids, written, k);
    var c :| 0 <= c < |ids| && ids[c] == id;
    EntriesAreWritten(ids, written, c);
    CountsAreWritten(ids, written, c);
  }

  lemma {:induction false} CountsAreKnown(ids: seq<nat>, written: seq<seq<Item>>)
    ensures forall c :: c in Counts(Described(ids, written)) ==> c.id in ids
  {
    forall c | c in Counts(Described(ids, written))
      ensures c.id in ids
    {
      var k :| 0 <= k < |Counts(Described(ids, written))| && Counts(Described(ids, written))[k] == c;
      CountIsKnown(ids, written, k);
    }
  }

  /** A written bag is consistent exactly if its ids differ and its messages fit the file and the index budget. */
  lemma {:induction false} WrittenIsConsistent(ids: seq<nat>, headerLimit: nat, messageLimit: nat,
      written: seq<seq<Item>>, fileSize: nat, maxIndexBytes: nat)
    requires forall k :: 0 <= k < |written| ==> AllWritable(ids, headerLimit, messageLimit, written[k])
    ensures Consistent(ids, Described(ids, written), fileSize, maxIndexBytes)
      <==>
      && Distinct(ids) && MessageCount(written, |ids|) <= fileSize / 12
      && |written| * 88 + MessageCount(written, |ids|) * 16 <= maxIndexBytes
  {
    TotalIsWritten(ids, written);
    CountsAreKnown(ids, written);
    if Distinct(ids) {
      RecordsAreCounted(ids, headerLimit, messageLimit, written);
    }
  }

  lemma {:induction false} RecordsAreCounted(ids: seq<nat>, headerLimit: nat, messageLimit: nat,
      written: seq<seq<Item>>)
    requires Distinct(ids)
    requires forall k :: 0 <= k < |written| ==> AllWritable(ids, headerLimit, messageLimit, written[k])
    ensures RecordsFit(Counts(Described(ids, written)), AllRecords(Described(ids, written)))
  {
    var chunks := Described(ids, written);
    forall p | p in AllRecords(chunks)
      ensures Mentioned(Counts(chunks), p.record.connection) && Timely(p)
    {
      RecordIsKnown(ids, headerLimit, messageLimit, written, p);
    }
    forall id | Mentioned(Counts(chunks), id)
      ensures |EntriesOf(AllRecords(chunks), id)| == Declared(Counts(chunks), id)
    {
      EntriesAreCounted(ids, written, id);
    }
  }

  // ----- and reads back -----

  /** The items `xs` lead to the items `ys`, one by one. */
  ghost predicate Leads<A, C>(g: Timed<A> -> Option<Timed<C>>, xs: seq<Timed<A>>, ys: seq<Timed<C>>) {
    |xs| == |ys| && forall k :: 0 <= k < |xs| ==> g(xs[k]) == Some(ys[k])
  }

  ghost predicate KeepsTime<A(!new), C(!new)>(g: Timed<A> -> Option<Timed<C>>) {
    forall x, y :: g(x) == Some(y) ==> x.time == y.time
  }

  lemma {:induction false} LeadsConcat<A, C>(g: Timed<A> -> Option<Timed<C>>, a: seq<Timed<A>>, c: seq<Timed<C>>,
      b: seq<Timed<A>>, d: seq<Timed<C>>)
    requires Leads(g, a, c) && Leads(g, b, d)
    ensures Leads(g, a + b, c + d)
  {
  }

  lemma {:induction false} InsertLeads<A(!new), C(!new)>(g: Timed<A> -> Option<Timed<C>>, x: Timed<A>,
      y: Timed<C>, xs: seq<Timed<A>>, ys: seq<Timed<C>>)
    requires KeepsTime(g) && g(x) == Some(y) && Leads(g, xs, ys)
    ensures Leads(g, Insert(x, xs), Insert(y, ys))
  {
    if xs != [] {
      assert g(xs[0]) == Some(ys[0]);
      if x.time > xs[0].time {
        InsertLeads(g, x, y, xs[1..], ys[1..]);
        LeadsConcat(g, [xs[0]], [ys[0]], Insert(x, xs[1..]), Insert(y, ys[1..]));
      } else {
        LeadsConcat(g, [x], [y], xs, ys);
      }
    }
  }

  lemma {:induction false} SortLeads<A(!new), C(!new)>(g: Timed<A> -> Option<Timed<C>>, xs: seq<Timed<A>>,
      ys: seq<Timed<C>>)
    requires KeepsTime(g) && Leads(g, xs, ys)
    ensures Leads(g, StableSort(xs), StableSort(ys))
  {
    if xs != [] {
      SortLeads(g, xs[1..], ys[1..]);
      InsertLeads(g, xs[0], ys[0], StableSort(xs[1..]), StableSort(ys[1..]));
    }
  }

  lemma {:induction false} FilterLeads<A, C>(g: Timed<A> -> Option<Timed<C>>, p: Timed<A> -> bool,
      q: Timed<C> -> bool, xs: seq<Timed<A>>, ys: seq<Timed<C>>)
    requires Leads(g, xs, ys) && forall k :: 0 <= k < |xs| ==> p(xs[k]) == q(ys[k])
    ensures Leads(g, Filter(p, xs), Filter(q, ys))
  {
    if xs != [] {
      FilterLeads(g, p, q, xs[1..], ys[1..]);
      if p(xs[0]) {
        LeadsConcat(g, [xs[0]], [ys[0]], Filter(p, xs[1..]), Filter(q, ys[1..]));
      }
    }
  }

  function Fetching(bag: Bag): Timed<Slot> -> Option<Timed<Message>> {
    (x: Timed<Slot>) => Fetch(bag, x)
  }

  lemma {:induction false} FetchKeeps(bag: Bag, x: Timed<Slot>, m: Timed<Message>)
    requires Fetch(bag, x) == Some(m)
    ensures m.time == x.time && m.data.connection == x.data.connection
  {
  }

  lemma {:induction false} FetchingIsFetched(bag: Bag, xs: seq<Timed<Slot>>, ms: seq<Timed<Message>>)
    requires Leads(Fetching(bag), xs, ms)
    ensures Readable(bag, xs) && Fetched(bag, xs) == ms
  {
    if xs != [] {
      assert Fetching(bag)(xs[0]) == Some(ms[0]);
      FetchingIsFetched(bag, xs[1..], ms[1..]);
    }
  }

  function SlotsOf(k: nat, items: seq<Item>, c: nat): (xs: seq<Timed<Slot>>)
    ensures |xs| == |RawOf(items, c)|
  {
    Map(SlotOf(c), Stamped(k, RawOf(items, c)))
  }

  lemma {:induction false} LastSlot(k: nat, items: seq<Item>, c: nat)
    requires items != []
    ensures var front, x := items[..|items| - 1], items[|items| - 1];
            SlotsOf(k, items, c) == SlotsOf(k, front, c) + ItemSlot(k, |ChunkBytes(front)|, x, c)
  {
  }

  lemma {:induction false} ItemIsFound(bag: Bag, ids: seq<nat>, k: nat, before: seq<byte>, x: Item, after: seq<byte>)
    requires x.Said? && Writable(ids, bag.headerLimit, bag.messageLimit, x)
    requires |ids| == |bag.connections| && bag.connections[x.connection].id == ids[x.connection]
    requires k < |bag.chunks| && bag.chunks[k] == Some(before + ItemBytes(x) + after)
    ensures var time := x.sec * 1_000_000_000 + x.nsec;
            Fetching(bag)(Timed(time, Slot(x.connection, Entry(k, |before|))))
            == Some(Timed(time, Message(x.connection, x.body)))
  {
    M.MessageIsFound(bag, before, x.header, x.body, after, ids[x.connection], x.sec, x.nsec,
                     x.sec * 1_000_000_000 + x.nsec, ids[x.connection]);
  }

  lemma {:induction false} ItemsAreFound(bag: Bag, ids: seq<nat>, k: nat, items: seq<Item>, after: seq<byte>, c: nat)
    requires AllWritable(ids, bag.headerLimit, bag.messageLimit, items)
    requires |ids| == |bag.connections| && forall i :: 0 <= i < |ids| ==> bag.connections[i].id == ids[i]
    requires k < |bag.chunks| && bag.chunks[k] == Some(ChunkBytes(items) + after)
    ensures Leads(Fetching(bag), SlotsOf(k, items, c), MessagesOf(items, c))
  {
    if items != [] {
      var front, x := items[..|items| - 1], items[|items| - 1];
      assert x in items && forall y :: y in front ==> y in items;
      var before := ChunkBytes(front);
      assert ChunkBytes(items) + after == before + ItemBytes(x) + after == before + (ItemBytes(x) + after);
      ItemsAreFound(bag, ids, k, front, ItemBytes(x) + after, c);
      ItemLeads(bag, ids, k, before, x, after, c);
      LeadsConcat(Fetching(bag), SlotsOf(k, front, c), MessagesOf(front, c),
                  ItemSlot(k, |before|, x, c), ItemMessage(x, c));
      LastSlot(k, items, c);
    }
  }

  lemma {:induction false} ItemLeads(bag: Bag, ids: seq<nat>, k: nat, before: seq<byte>, x: Item,
      after: seq<byte>, c: nat)
    requires Writable(ids, bag.headerLimit, bag.messageLimit, x)
    requires |ids| == |bag.connections| && forall i :: 0 <= i < |ids| ==> bag.connections[i].id == ids[i]
    requires k < |bag.chunks| && bag.chunks[k] == Some(before + ItemBytes(x) + after)
    ensures Leads(Fetching(bag), ItemSlot(k, |before|, x, c), ItemMessage(x, c))
  {
    if x.Said? && x.connection == c {
      ItemIsFound(bag, ids, k, before, x, after);
    }
    ItemLeadsIf(Fetching(bag), k, |before|, x, c);
  }

  lemma {:induction false} ItemLeadsIf(g: Timed<Slot> -> Option<Timed<Message>>, k: nat, offset: nat, x: Item, c: nat)
    requires x.Said? && x.connection == c ==>
      var time := x.sec * 1_000_000_000 + x.nsec;
      g(Timed(time, Slot(c, Entry(k, offset)))) == Some(Timed(time, Message(c, x.body)))
    ensures Leads(g, ItemSlot(k, offset, x, c), ItemMessage(x, c))
  {
  }

  /** `bag` is what the cursor sees of the bag written as `written`. */
  ghost predicate Holds(bag: Bag, ids: seq<nat>, written: seq<seq<Item>>) {
    && |ids| == |bag.connections| == |bag.recorded|
    && (forall i :: 0 <= i < |ids| ==> bag.connections[i].id == ids[i])
    && (forall c :: 0 <= c < |ids| ==> bag.recorded[c] == EntriesIn(written, c))
    && bag.chunks == Loaded(written)
    && forall k :: 0 <= k < |written| ==> AllWritable(ids, bag.headerLimit, bag.messageLimit, written[k])
  }

  lemma {:induction false} ConnectionLeads(bag: Bag, ids: seq<nat>, written: seq<seq<Item>>, n: nat, c: nat)
    requires Holds(bag, ids, written) && n <= |written|
    ensures Leads(Fetching(bag), Map(SlotOf(c), EntriesIn(written[..n], c)), MessagesIn(written[..n], c))
  {
    if n > 0 {
      var k, items := n - 1, written[n - 1];
      assert written[..n][..k] == written[..k];
      ConnectionLeads(bag, ids, written, k, c);
      assert ChunkBytes(items) + [] == ChunkBytes(items);
      ItemsAreFound(bag, ids, k, items, [], c);
      MapConcat(SlotOf(c), EntriesIn(written[..k], c), Stamped(k, RawOf(items, c)));
      LeadsConcat(Fetching(bag), Map(SlotOf(c), EntriesIn(written[..k], c)), MessagesIn(written[..k], c),
                  SlotsOf(k, items, c), MessagesOf(items, c));
    }
  }

  lemma {:induction false} MapConcat<A, C>(g: A -> C, a: seq<Timed<A>>, b: seq<Timed<A>>)
    ensures Map(g, a + b) == Map(g, a) + Map(g, b)
  {
  }

  lemma {:induction false} RecordedLeads(bag: Bag, ids: seq<nat>, written: seq<seq<Item>>, c: nat)
    requires Holds(bag, ids, written) && c < |ids|
    ensures Leads(Fetching(bag), Map(SlotOf(c), bag.recorded[c]), MessagesIn(written, c))
  {
    assert written[..|written|] == written;
    ConnectionLeads(bag, ids, written, |written|, c);
  }

  /** `g` stands for fetching. */
  lemma {:induction false} FileLeads(g: Timed<Slot> -> Option<Timed<Message>>, bag: Bag, written: seq<seq<Item>>,
      n: nat)
    requires n <= |bag.recorded|
    requires forall c :: 0 <= c < n ==> Leads(g, Map(SlotOf(c), bag.recorded[c]), MessagesIn(written, c))
    ensures Leads(g, FileOrder(bag, n), Contents(written, n))
  {
    if n > 0 {
      FileLeads(g, bag, written, n - 1);
      LeadsConcat(g, FileOrder(bag, n - 1), Contents(written, n - 1),
                  Map(SlotOf(n - 1), bag.recorded[n - 1]), MessagesIn(written, n - 1));
    }
  }

  /** Every filter delivers from a written bag exactly its messages that pass, sorted by timestamp, and no failure. */
  lemma {:induction false} WrittenReadsBack(bag: Bag, ids: seq<nat>, written: seq<seq<Item>>, f: ReadFilter)
    requires Holds(bag, ids, written)
    ensures var plan := Filter(Wanted(bag, f), StableSort(FileOrder(bag, |ids|)));
            && Readable(bag, plan)
            && Fetched(bag, plan) == Filter(Passing(bag.connections, f), StableSort(Contents(written, |ids|)))
  {
    var sorted, contents := StableSort(FileOrder(bag, |ids|)), StableSort(Contents(written, |ids|));
    forall c | 0 <= c < |ids|
      ensures Leads(Fetching(bag), Map(SlotOf(c), bag.recorded[c]), MessagesIn(written, c))
    {
      RecordedLeads(bag, ids, written, c);
    }
    FileLeads(Fetching(bag), bag, written, |ids|);
    forall x: Timed<Slot>, m | Fetching(bag)(x) == Some(m)
      ensures x.time == m.time && Wanted(bag, f)(x) == Passing(bag.connections, f)(m)
    {
      FetchKeeps(bag, x, m);
    }
    SortLeads(Fetching(bag), FileOrder(bag, |ids|), Contents(written, |ids|));
    FilterLeads(Fetching(bag), Wanted(bag, f), Passing(bag.connections, f), sorted, contents);
    FetchingIsFetched(bag, Filter(Wanted(bag, f), sorted), Filter(Passing(bag.connections, f), contents));
  }

  /**
   A written bag opens exactly if its ids differ, the header's counts fit the file, and the messages
   fit the file and the index budget; and then reading it delivers its messages.
   */
  method WriteAndRead(connections: seq<Connection>, written: seq<seq<Item>>, headerLimit: nat, messageLimit: nat,
      fileSize: nat, indexPos: nat, maxIndexBytes: nat, f: ReadFilter)
      returns (accepted: bool, out: seq<Timed<Message>>, ok: bool)
    requires forall k :: 0 <= k < |written| ==>
      AllWritable(B.Ids(connections), headerLimit, messageLimit, written[k])
    ensures accepted
      <==>
      && DistinctIds(connections) && 0 < indexPos <= fileSize
      && |connections| <= (fileSize - indexPos) / 8 && |written| <= (fileSize - indexPos) / 8
      && MessageCount(written, |connections|) <= fileSize / 12
      && |written| * 88 + MessageCount(written, |connections|) * 16 <= maxIndexBytes
    ensures accepted ==> ok
    ensures accepted ==> out == Filter(Passing(connections, f), StableSort(Contents(written, |connections|)))
  {
    var ids := B.Ids(connections);
    var chunks := Described(ids, written);
    WrittenIsConsistent(ids, headerLimit, messageLimit, written, fileSize, maxIndexBytes);
    accepted, out, ok := B.OpenAndRead(connections, chunks, Loaded(written), headerLimit, messageLimit,
                                       fileSize, indexPos, maxIndexBytes, f);
    if accepted {
      OpenedReadsBack(connections, written, headerLimit, messageLimit, f);
    }
  }

  /** What is read of the bag that opening builds. */
  lemma {:induction false} OpenedReadsBack(connections: seq<Connection>, written: seq<seq<Item>>, headerLimit: nat,
      messageLimit: nat, f: ReadFilter)
    requires Distinct(B.Ids(connections))
    requires forall k :: 0 <= k < |written| ==>
      AllWritable(B.Ids(connections), headerLimit, messageLimit, written[k])
    ensures var bag := B.OpenedBag(connections, Described(B.Ids(connections), written), Loaded(written), headerLimit,
                                   messageLimit);
            var plan := Filter(Wanted(bag, f), StableSort(FileOrder(bag, |connections|)));
            && Readable(bag, plan)
            && Fetched(bag, plan) == Filter(Passing(connections, f), StableSort(Contents(written, |connections|)))
  {
    var ids := B.Ids(connections);
    var bag := B.OpenedBag(connections, Described(ids, written), Loaded(written), headerLimit, messageLimit);
    forall c | 0 <= c < |ids|
      ensures bag.recorded[c] == EntriesIn(written, c)
    {
      EntriesAreWritten(ids, written, c);
    }
    WrittenReadsBack(bag, ids, written, f);
  }
}
