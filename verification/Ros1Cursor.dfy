/** The ROS1 message cursor: a merge of per-connection indexes over chunks held one at a time. */
module Ros1Cursor {
  import opened Wrappers
  import opened Bytes
  import opened StableOrder
  import opened KWayMerge
  import opened Filters
  import opened Windows
  import DelayedMerge
  import R = Records

  /** An index entry: where in which chunk the message record is. */
  datatype Entry = Entry(chunk: nat, offset: nat)

  /** An index entry together with the position of its connection. */
  datatype Slot = Slot(connection: nat, entry: Entry)

  /**
   An opened bag: its connections, for each its index entries in file order, and what loading each
   chunk gives, if it succeeds.
   */
  datatype Bag = Bag(connections: seq<Connection>, recorded: seq<seq<Timed<Entry>>>,
                     chunks: seq<Option<seq<byte>>>, headerLimit: nat, messageLimit: nat)

  const OP: seq<byte> := [111, 112]
  const TIME: seq<byte> := [116, 105, 109, 101]
  const CONN: seq<byte> := [99, 111, 110, 110]

  const OP_MESSAGE := 2
  const OP_CONNECTION := 7

  // ----- one message -----

  function LoadChunk(bag: Bag, k: nat): Option<seq<byte>> {
    if k < |bag.chunks| then bag.chunks[k] else None
  }

  /** The first record from `pos` on that is no connection record: there may be any number of those. */
  function SkipConnections(chunk: seq<byte>, pos: nat, headerLimit: nat): R.Result<R.Record>
    requires pos <= |chunk|
    decreases |chunk| - pos
  {
    var r := R.RecordAt(chunk, pos, headerLimit);
    if r.Ok? && R.U8(r.value.fields, OP) == Some(OP_CONNECTION) then SkipConnections(chunk, r.value.next, headerLimit)
    else r
  }

  /** The checks on the record an index entry leads to. */
  function MessageIn(bag: Bag, record: R.Record, time: nat, connection: nat): Option<seq<byte>> {
    if R.U8(record.fields, OP) != Some(OP_MESSAGE) then None
    else if R.Time(record.fields, TIME) != Some(time) then None
    else if R.U32(record.fields, CONN) != Some(connection) then None
    else if |record.body| > bag.messageLimit then None
    else Some(record.body)
  }

  function MessageAt(bag: Bag, chunk: seq<byte>, offset: nat, time: nat, connection: nat): Option<seq<byte>> {
    if offset > |chunk| then None
    else
      match SkipConnections(chunk, offset, bag.headerLimit)
      case Error(_) => None
      case Ok(record) => MessageIn(bag, record, time, connection)
  }

  /** What an entry stands for, its chunk loaded for it alone. */
  function Fetch(bag: Bag, x: Timed<Slot>): Option<Timed<Message>> {
    if x.data.connection >= |bag.connections| then None
    else
      match LoadChunk(bag, x.data.entry.chunk)
      case None => None
      case Some(chunk) =>
        match MessageAt(bag, chunk, x.data.entry.offset, x.time, bag.connections[x.data.connection].id)
        case None => None
        case Some(body) => Some(Timed(x.time, Message(x.data.connection, body)))
  }

  /** The reading loop of `next`, from the entry's offset to the checked message. */
  method ReadMessage(bag: Bag, chunk: seq<byte>, offset: nat, time: nat, connection: nat)
      returns (body: Option<seq<byte>>)
    ensures body == MessageAt(bag, chunk, offset, time, connection)
  {
    if offset > |chunk| {
      return None;
    }
    var record := R.ReadRecord(chunk, offset, bag.headerLimit);
    var position := offset;
    while record.Ok? && R.U8(record.value.fields, OP) == Some(OP_CONNECTION)
      invariant position <= |chunk| && record == R.RecordAt(chunk, position, bag.headerLimit)
      invariant SkipConnections(chunk, position, bag.headerLimit) == SkipConnections(chunk, offset, bag.headerLimit)
      decreases |chunk| - position
    {
      position := record.value.next;
      record := R.ReadRecord(chunk, position, bag.headerLimit);
    }
    body := if record.Ok? then MessageIn(bag, record.value, time, connection) else None;
  }

  // ----- the queue -----

  datatype HeapItem = HeapItem(timestamp: nat, rank: nat, position: nat)

  predicate Precedes(a: HeapItem, b: HeapItem) {
    if a.timestamp != b.timestamp then a.timestamp < b.timestamp
    else if a.rank != b.rank then a.rank < b.rank
    else a.position <= b.position
  }

  /** The position of the queue item that comes first. */
  function Top(heap: seq<HeapItem>): (k: nat)
    requires heap != []
    ensures k < |heap|
    ensures forall j :: 0 <= j < |heap| ==> Precedes(heap[k], heap[j])
  {
    if |heap| == 1 then 0
    else
      var last := |heap| - 1;
      var k := Top(heap[..last]);
      if Precedes(heap[k], heap[last]) then k else last
  }

  ghost predicate Queued(streams: seq<seq<Timed<Slot>>>, stop: Option<nat>, item: HeapItem,
      left: seq<seq<Timed<Slot>>>)
  {
    && item.rank < |streams| == |left| && item.position < |streams[item.rank]|
    && item.timestamp == streams[item.rank][item.position].time && Open(stop, item.timestamp)
    && left[item.rank] == UpTo(streams[item.rank][item.position..], stop)
  }

  ghost predicate HasRank(heap: seq<HeapItem>, r: nat) {
    exists k :: 0 <= k < |heap| && heap[k].rank == r
  }

  /** `left` is what each rank still has to deliver; the queue has an item for each rank that has any. */
  ghost predicate QueueMatches(streams: seq<seq<Timed<Slot>>>, stop: Option<nat>, heap: seq<HeapItem>,
      left: seq<seq<Timed<Slot>>>)
  {
    && |left| == |streams|
    && (forall k :: 0 <= k < |heap| ==> Queued(streams, stop, heap[k], left))
    && (forall j, k :: 0 <= j < k < |heap| ==> heap[j].rank != heap[k].rank)
    && forall r :: 0 <= r < |left| && left[r] != [] ==> HasRank(heap, r)
  }

  lemma {:induction false} QueuedFront(streams: seq<seq<Timed<Slot>>>, stop: Option<nat>, item: HeapItem,
      left: seq<seq<Timed<Slot>>>)
    requires Queued(streams, stop, item, left)
    ensures left[item.rank] != [] && left[item.rank][0] == streams[item.rank][item.position]
    ensures left[item.rank][1..] == UpTo(streams[item.rank][item.position + 1..], stop)
  {
    var entries := streams[item.rank][item.position..];
    assert entries[1..] == streams[item.rank][item.position + 1..];
    assert UpTo(entries, stop) == [entries[0]] + UpTo(entries[1..], stop);
  }

  lemma {:induction false} TopIsLeast(streams: seq<seq<Timed<Slot>>>, stop: Option<nat>, heap: seq<HeapItem>,
      left: seq<seq<Timed<Slot>>>)
    requires QueueMatches(streams, stop, heap, left) && heap != []
    ensures IsLeast(left, heap[Top(heap)].rank)
  {
    var top := heap[Top(heap)];
    QueuedFront(streams, stop, top, left);
    forall r | 0 <= r < |left| && left[r] != []
      ensures Before(left[top.rank][0].time, top.rank, left[r][0].time, r)
    {
      assert HasRank(heap, r);
      var k :| 0 <= k < |heap| && heap[k].rank == r;
      QueuedFront(streams, stop, heap[k], left);
      assert Precedes(top, heap[k]);
    }
  }

  function Without(heap: seq<HeapItem>, k: nat): (rest: seq<HeapItem>)
    requires k < |heap|
    ensures |rest| == |heap| - 1
    ensures forall j :: 0 <= j < |rest| ==> rest[j] == heap[if j < k then j else j + 1]
  {
    heap[..k] + heap[k + 1..]
  }

  lemma {:induction false} Popped(streams: seq<seq<Timed<Slot>>>, stop: Option<nat>, heap: seq<HeapItem>,
      left: seq<seq<Timed<Slot>>>, k: nat)
    requires QueueMatches(streams, stop, heap, left) && k < |heap|
    ensures heap[k].rank < |left|
    ensures QueueMatches(streams, stop, Without(heap, k), left[heap[k].rank := []])
    ensures !HasRank(Without(heap, k), heap[k].rank)
  {
    var i := heap[k].rank;
    var rest, left' := Without(heap, k), left[i := []];
    forall j | 0 <= j < |rest|
      ensures Queued(streams, stop, rest[j], left') && rest[j].rank != i
    {
      assert Queued(streams, stop, heap[if j < k then j else j + 1], left);
    }
    forall r | 0 <= r < |left'| && left'[r] != []
      ensures HasRank(rest, r)
    {
      assert HasRank(heap, r);
      var j :| 0 <= j < |heap| && heap[j].rank == r;
      assert rest[if j < k then j else j - 1].rank == r;
    }
  }

  lemma {:induction false} Pushed(streams: seq<seq<Timed<Slot>>>, stop: Option<nat>, heap: seq<HeapItem>,
      left: seq<seq<Timed<Slot>>>, item: HeapItem, left': seq<seq<Timed<Slot>>>)
    requires QueueMatches(streams, stop, heap, left) && !HasRank(heap, item.rank)
    requires item.rank < |left| == |left'| && left' == left[item.rank := left'[item.rank]]
    requires Queued(streams, stop, item, left')
    ensures QueueMatches(streams, stop, heap + [item], left')
  {
    var more := heap + [item];
    forall k | 0 <= k < |more|
      ensures Queued(streams, stop, more[k], left')
    {
      if k < |heap| {
        assert Queued(streams, stop, heap[k], left) && heap[k].rank != item.rank;
      }
    }
    forall r | 0 <= r < |left'| && left'[r] != []
      ensures HasRank(more, r)
    {
      if r == item.rank {
        assert more[|heap|].rank == r;
      } else {
        assert HasRank(heap, r);
        var k :| 0 <= k < |heap| && heap[k].rank == r;
        assert more[k].rank == r;
      }
    }
  }

  lemma {:induction false} NothingLeft(streams: seq<seq<Timed<Slot>>>, stop: Option<nat>, left: seq<seq<Timed<Slot>>>)
    requires QueueMatches(streams, stop, [], left)
    ensures Merge(left) == []
  {
    forall r | 0 <= r < |left|
      ensures left[r] == []
    {
      if left[r] != [] {
        assert false;
      }
    }
    DelayedMerge.MergeNothing(left);
  }

  lemma {:induction false} Grown(streams: seq<seq<Timed<Slot>>>, stop: Option<nat>, heap: seq<HeapItem>,
      left: seq<seq<Timed<Slot>>>, stream: seq<Timed<Slot>>)
    requires QueueMatches(streams, stop, heap, left)
    ensures QueueMatches(streams + [stream], stop, heap, left + [[]]) && !HasRank(heap, |streams|)
  {
    forall k | 0 <= k < |heap|
      ensures Queued(streams + [stream], stop, heap[k], left + [[]]) && heap[k].rank != |streams|
    {
      assert Queued(streams, stop, heap[k], left);
    }
  }

  // ----- what is selected, and in which order -----

  function SlotOf(c: nat): Entry -> Slot {
    (e: Entry) => Slot(c, e)
  }

  /** A connection's index: its entries, stably sorted when the bag was opened. */
  function Index(bag: Bag, c: nat): seq<Timed<Slot>>
    requires c < |bag.recorded|
  {
    Map(SlotOf(c), StableSort(bag.recorded[c]))
  }

  /** The indexes of the selected ones among the first n connections; a rank is a position in this list. */
  function Selected(bag: Bag, f: ReadFilter, n: nat): seq<seq<Timed<Slot>>>
    requires n <= |bag.connections| == |bag.recorded|
  {
    if n == 0 then []
    else Selected(bag, f, n - 1) + if HasTopic(bag.connections[n - 1], f) then [Index(bag, n - 1)] else []
  }

  function AllWindows(streams: seq<seq<Timed<Slot>>>, f: ReadFilter): (w: seq<seq<Timed<Slot>>>)
    ensures |w| == |streams|
    ensures forall r :: 0 <= r < |w| ==> w[r] == Window(streams[r], f.start, f.stop)
  {
    seq(|streams|, r requires 0 <= r < |streams| => Window(streams[r], f.start, f.stop))
  }

  /** The entries the cursor visits, in the order it visits them. */
  function Plan(bag: Bag, f: ReadFilter): seq<Timed<Slot>>
    requires |bag.connections| == |bag.recorded|
  {
    Merge(AllWindows(Selected(bag, f, |bag.connections|), f))
  }

  datatype Next = Item(x: Timed<Message>) | End | Failed

  class Cursor {
    const bag: Bag
    const stop: Option<nat>
    var streams: seq<seq<Timed<Slot>>>
    var heap: seq<HeapItem>
    var cachedIndex: Option<nat>
    var cached: seq<byte>
    ghost var left: seq<seq<Timed<Slot>>>

    /** The cached chunk, if there is one, is what loading it again would give. */
    ghost predicate Valid()
      reads this
    {
      && QueueMatches(streams, stop, heap, left)
      && (cachedIndex.Some? ==> LoadChunk(bag, cachedIndex.value) == Some(cached))
    }

    constructor (bag: Bag, f: ReadFilter)
      requires |bag.connections| == |bag.recorded|
      ensures Valid() && this.bag == bag && this.stop == f.stop
      ensures left == AllWindows(Selected(bag, f, |bag.connections|), f)
    {
      this.bag, stop := bag, f.stop;
      streams, heap, left := [], [], [];
      cachedIndex, cached := None, [];
      new;
      for c := 0 to |bag.connections|
        invariant cachedIndex == None
        invariant streams == Selected(bag, f, c) && left == AllWindows(streams, f)
        invariant QueueMatches(streams, stop, heap, left)
      {
        if HasTopic(bag.connections[c], f) {
          AddRank(Index(bag, c), f);
        } else {
          assert streams + [] == streams;
        }
      }
    }

    method AddRank(entries: seq<Timed<Slot>>, f: ReadFilter)
      requires QueueMatches(streams, stop, heap, left) && left == AllWindows(streams, f) && stop == f.stop
      modifies this`streams, this`heap, this`left
      ensures streams == old(streams) + [entries] && left == AllWindows(streams, f)
      ensures QueueMatches(streams, stop, heap, left)
    {
      var rank, first := |streams|, First(entries, f.start);
      Grown(streams, stop, heap, left, entries);
      ghost var before := left + [[]];
      streams := streams + [entries];
      left := left + [Window(entries, f.start, f.stop)];
      if first < |entries| && Open(stop, entries[first].time) {
        var item := HeapItem(entries[first].time, rank, first);
        Pushed(streams, stop, heap, before, item, left);
        heap := heap + [item];
      } else {
        assert entries[first..] == [] || entries[first..][0] == entries[first];
        assert left == before;
      }
    }

    /**
     The next message is the fetched front of the merge, whatever the cache held: it only saves
     loading a chunk twice in a row.
     */
    method Next() returns (r: Next, ghost slot: Timed<Slot>)
      requires Valid()
      modifies this
      ensures r.Item? ==> Valid() && old(Merge(left)) == [slot] + Merge(left) && Fetch(bag, slot) == Some(r.x)
      ensures r.End? ==> Valid() && old(Merge(left)) == []
      ensures r.Failed? ==> old(Merge(left)) != [] && Fetch(bag, old(Merge(left))[0]) == None
    {
      slot := Timed(0, Slot(0, Entry(0, 0)));
      if heap == [] {
        NothingLeft(streams, stop, left);
        return End, slot;
      }
      var item := PopTop();
      slot := streams[item.rank][item.position];
      var message := Read(streams[item.rank][item.position]);
      if message.None? {
        return Failed, slot;
      }
      Advance(item);
      r := Item(message.value);
    }

    /** Takes the first item off the queue; its rank has no item until `Advance`. */
    method PopTop() returns (item: HeapItem)
      requires QueueMatches(streams, stop, heap, left) && heap != []
      modifies this`heap, this`left
      ensures item.rank < |streams| == |left| && item.position < |streams[item.rank]|
      ensures left[item.rank] == UpTo(streams[item.rank][item.position + 1..], stop)
      ensures QueueMatches(streams, stop, heap, left[item.rank := []]) && !HasRank(heap, item.rank)
      ensures old(Merge(left)) == [streams[item.rank][item.position]] + Merge(left)
    {
      var k := Top(heap);
      item := heap[k];
      TopIsLeast(streams, stop, heap, left);
      DelayedMerge.MergeStep(left, item.rank);
      QueuedFront(streams, stop, item, left);
      Popped(streams, stop, heap, left, k);
      heap := Without(heap, k);
      ghost var emptied := left[item.rank := []];
      left := left[item.rank := left[item.rank][1..]];
      assert left[item.rank := []] == emptied;
    }

    method Read(slot: Timed<Slot>) returns (message: Option<Timed<Message>>)
      requires cachedIndex.Some? ==> LoadChunk(bag, cachedIndex.value) == Some(cached)
      modifies this`cachedIndex, this`cached
      ensures message == Fetch(bag, slot)
      ensures message.Some? ==> cachedIndex.Some? && LoadChunk(bag, cachedIndex.value) == Some(cached)
    {
      var loaded := UseChunk(slot.data.entry.chunk);
      if !loaded || slot.data.connection >= |bag.connections| {
        return None;
      }
      var body := ReadMessage(bag, cached, slot.data.entry.offset, slot.time, bag.connections[slot.data.connection].id);
      message := if body.None? then None else Some(Timed(slot.time, Message(slot.data.connection, body.value)));
    }

    /** Makes the cached chunk the asked one; the old one is released first. */
    method UseChunk(index: nat) returns (ok: bool)
      requires cachedIndex.Some? ==> LoadChunk(bag, cachedIndex.value) == Some(cached)
      modifies this`cachedIndex, this`cached
      ensures ok <==> LoadChunk(bag, index).Some?
      ensures ok ==> cachedIndex == Some(index) && LoadChunk(bag, index) == Some(cached)
    {
      if cachedIndex != Some(index) {
        cached, cachedIndex := [], None;
        var chunk := LoadChunk(bag, index);
        if chunk.None? {
          return false;
        }
        cached, cachedIndex := chunk.value, Some(index);
      }
      ok := true;
    }

    /** Queues the entry after the delivered one, unless the index or the window ends there. */
    method Advance(item: HeapItem)
      requires item.rank < |streams| == |left| && item.position < |streams[item.rank]|
      requires left[item.rank] == UpTo(streams[item.rank][item.position + 1..], stop)
      requires QueueMatches(streams, stop, heap, left[item.rank := []]) && !HasRank(heap, item.rank)
      modifies this`heap
      ensures QueueMatches(streams, stop, heap, left)
    {
      ghost var before := left[item.rank := []];
      var entries, position := streams[item.rank], item.position + 1;
      if position < |entries| && Open(stop, entries[position].time) {
        var next := HeapItem(entries[position].time, item.rank, position);
        assert left == before[item.rank := left[item.rank]];
        Pushed(streams, stop, heap, before, next, left);
        heap := heap + [next];
      } else {
        assert entries[position..] == [] || entries[position..][0] == entries[position];
        assert left == before;
      }
    }
  }
}
