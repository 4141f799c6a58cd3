/** The SQLite cursor: a filter over unsigned times turned into a query over signed ones. */
module Sqlite {
  import opened Wrappers
  import opened Bytes
  import opened StableOrder
  import opened Filters

  /** A row of the messages table; a table is its rows in the order of their ids. */
  datatype Row = Row(topic: nat, bytes: seq<byte>)

  const INT64_MAX := 0x7FFF_FFFF_FFFF_FFFF

  /** `static_cast<sqlite3_int64>` of an unsigned 64-bit value. */
  function AsSigned(value: nat): int {
    if value <= INT64_MAX then value else value - (SIZE_MAX + 1)
  }

  /** A value and its signed form are the same 64 bits, and the form is in the signed range. */
  lemma {:induction false} SignedIs(value: nat)
    requires value < 0x1_0000_0000_0000_0000
    ensures -0x8000_0000_0000_0000 <= AsSigned(value) < 0x8000_0000_0000_0000
    ensures (value - AsSigned(value)) % 0x1_0000_0000_0000_0000 == 0
  {
    assert value - AsSigned(value) == 0 || value - AsSigned(value) == 1 * 0x1_0000_0000_0000_0000;
  }

  /** The parts of the prepared statement: topic ids, least time, first time past the end. */
  datatype Query = Query(ids: Option<seq<nat>>, lower: Option<int>, upper: Option<int>)

  function Where(q: Query): Timed<Row> -> bool {
    (x: Timed<Row>) =>
      && (q.ids.Some? ==> x.data.topic in q.ids.value)
      && (q.lower.Some? ==> q.lower.value <= x.time)
      && (q.upper.Some? ==> x.time < q.upper.value)
  }

  /** Where the connection with this id is, if there is one. */
  function PositionOf(connections: seq<Connection>, id: nat): (r: Option<nat>)
    ensures r.Some? ==> r.value < |connections| && connections[r.value].id == id
    ensures r.None? ==> forall c :: c in connections ==> c.id != id
  {
    if connections == [] then None
    else if connections[0].id == id then Some(0)
    else match PositionOf(connections[1..], id) case None => None case Some(k) => Some(k + 1)
  }

  /** The rows that survive the join with the topics table. */
  function Known(connections: seq<Connection>): Timed<Row> -> bool {
    (x: Timed<Row>) => PositionOf(connections, x.data.topic).Some?
  }

  function ToMessage(connections: seq<Connection>): Row -> Message {
    (row: Row) =>
      match PositionOf(connections, row.topic)
      case None => Message(0, row.bytes)
      case Some(k) => Message(k, row.bytes)
  }

  /** What the engine returns: the joined rows meeting the conditions, by timestamp and then id. */
  function Execute(connections: seq<Connection>, rows: seq<Timed<Row>>, q: Query): seq<Timed<Row>> {
    StableSort(Filter(Where(q), Filter(Known(connections), rows)))
  }

  /** The table as messages, in the order of the row ids. */
  function Stored(connections: seq<Connection>, rows: seq<Timed<Row>>): seq<Timed<Message>> {
    Map(ToMessage(connections), Filter(Known(connections), rows))
  }

  /** The stored messages row by row: those whose topic id some connection has, and that connection with them. */
  lemma {:induction false} StoredPlaces(connections: seq<Connection>, rows: seq<Timed<Row>>) returns (places: seq<nat>)
    ensures var out := Stored(connections, rows);
            && |places| == |out|
            && (forall j, k :: 0 <= j < k < |out| ==> places[j] < places[k])
            && forall k :: 0 <= k < |out| ==>
                 && places[k] < |rows| && out[k].time == rows[places[k]].time
                 && out[k].data.bytes == rows[places[k]].data.bytes
                 && out[k].data.connection < |connections|
                 && connections[out[k].data.connection].id == rows[places[k]].data.topic
    ensures forall n :: n in places <==>
      0 <= n < |rows| && exists c :: 0 <= c < |connections| && connections[c].id == rows[n].data.topic
  {
    places := FilterPlaces(Known(connections), rows, 0);
    assert rows[0..] == rows;
    forall n | 0 <= n < |rows|
      ensures Known(connections)(rows[n])
         <==> exists c :: 0 <= c < |connections| && connections[c].id == rows[n].data.topic
    {
      var position := PositionOf(connections, rows[n].data.topic);
      if position.None? {
        assert forall c :: 0 <= c < |connections| ==> connections[c] in connections;
      }
    }
  }

  ghost predicate FitsWord(f: ReadFilter) {
    (f.start.Some? ==> f.start.value <= SIZE_MAX) && (f.stop.Some? ==> f.stop.value <= SIZE_MAX)
  }

  /** `q` is the query for `f`; no query at all means that nothing can pass. */
  ghost predicate Answers(q: Option<Query>, connections: seq<Connection>, f: ReadFilter) {
    forall x: Timed<Row> :: x.time <= INT64_MAX && Known(connections)(x) ==>
      (q.Some? && Where(q.value)(x) <==> Passes(connections, f, MapItem(ToMessage(connections), x)))
  }

  /** The ids of the connections that pass: those and no others. */
  method TopicIds(connections: seq<Connection>, f: ReadFilter) returns (ids: seq<nat>)
    requires DistinctIds(connections)
    ensures forall k :: 0 <= k < |connections| ==> (connections[k].id in ids <==> HasTopic(connections[k], f))
    ensures ids == [] ==> forall k :: 0 <= k < |connections| ==> !HasTopic(connections[k], f)
  {
    ids := [];
    for i := 0 to |connections|
      invariant forall id :: id in ids ==> exists j :: 0 <= j < i && connections[j].id == id
      invariant forall k :: 0 <= k < i ==> (connections[k].id in ids <==> HasTopic(connections[k], f))
    {
      if HasTopic(connections[i], f) {
        ids := ids + [connections[i].id];
      }
    }
  }

  /** The constructor's clamping: a start beyond every signed time, an empty window, a stop that cuts nothing. */
  method MakeQuery(connections: seq<Connection>, f: ReadFilter) returns (q: Option<Query>)
    requires DistinctIds(connections) && FitsWord(f)
    ensures Answers(q, connections, f)
  {
    if (f.start.Some? && f.start.value > INT64_MAX)
       || (f.start.Some? && f.stop.Some? && f.start.value >= f.stop.value) {
      return None;
    }
    var bindStop := f.stop.Some? && f.stop.value <= INT64_MAX;
    var ids := None;
    if f.topics != [] || f.ids != [] {
      var topicIds := TopicIds(connections, f);
      if topicIds == [] {
        return None;
      }
      ids := Some(topicIds);
    }
    var lower := if f.start.Some? then Some(AsSigned(f.start.value)) else None;
    var upper := if bindStop then Some(AsSigned(f.stop.value)) else None;
    q := Some(Query(ids, lower, upper));
  }

  lemma {:induction false} SameRows(connections: seq<Connection>, f: ReadFilter, q: Option<Query>,
      rows: seq<Timed<Row>>)
    requires Answers(q, connections, f) && forall x :: x in rows ==> x.time <= INT64_MAX
    ensures Filter(Passing(connections, f), Stored(connections, rows))
         == if q.None? then []
            else Map(ToMessage(connections), Filter(Where(q.value), Filter(Known(connections), rows)))
  {
    if rows != [] {
      var x, rest := rows[0], rows[1..];
      assert x in rows && forall y :: y in rest ==> y in rows;
      SameRows(connections, f, q, rest);
      if Known(connections)(x) {
        var known := Filter(Known(connections), rest);
        assert ([x] + known)[1..] == known;
        var messages := Map(ToMessage(connections), known);
        assert Map(ToMessage(connections), [x] + known) == [MapItem(ToMessage(connections), x)] + messages;
        assert ([MapItem(ToMessage(connections), x)] + messages)[1..] == messages;
        if q.Some? {
          var kept := Filter(Where(q.value), known);
          assert ([x] + kept)[1..] == kept;
        }
      }
    }
  }

  /** A message that is not too large. */
  function Limited(maxMessage: nat): Message -> Option<Message> {
    (m: Message) => if |m.bytes| > maxMessage then None else Some(m)
  }

  /** The table's messages that pass by (timestamp, id), up to the first that is too large. */
  function TableRun(connections: seq<Connection>, rows: seq<Timed<Row>>, maxMessage: nat, f: ReadFilter): Run {
    var all := Filter(Passing(connections, f), StableSort(Stored(connections, rows)));
    var out := MapWhile(Limited(maxMessage), all);
    Run(out, |out| < |all|)
  }

  lemma {:induction false} TableRunIsHonest(connections: seq<Connection>, rows: seq<Timed<Row>>, maxMessage: nat,
      f: ReadFilter)
    ensures Honest(connections, StableSort(Stored(connections, rows)), f, TableRun(connections, rows, maxMessage, f))
  {
    var all := Filter(Passing(connections, f), StableSort(Stored(connections, rows)));
    MapWhileIsPrefix(Limited(maxMessage), all, all);
    assert Map(OrSame(Limited(maxMessage)), all) == all;
  }

  /** All of it, or what comes before the first message that is too large. */
  ghost predicate CutAtTooLarge(all: seq<Timed<Message>>, maxMessage: nat, out: seq<Timed<Message>>, ok: bool) {
    && out <= all && (forall k :: 0 <= k < |out| ==> |out[k].data.bytes| <= maxMessage)
    && if ok then out == all else |out| < |all| && |all[|out|].data.bytes| > maxMessage
  }

  lemma {:induction false} LimitedIsCut(all: seq<Timed<Message>>, maxMessage: nat)
    ensures var out := MapWhile(Limited(maxMessage), all);
            CutAtTooLarge(all, maxMessage, out, !(|out| < |all|))
  {
    var out := MapWhile(Limited(maxMessage), all);
    assert forall k :: 0 <= k < |out| ==> out[k] == all[k];
  }

  /**
   For every filter over unsigned 64-bit bounds, bounds past the largest signed time and reversed
   windows included, the query delivers the stored messages by (timestamp, id), restricted by topic,
   id and time, up to the first that is larger than allowed.
   */
  method ReadTable(connections: seq<Connection>, rows: seq<Timed<Row>>, maxMessage: nat, f: ReadFilter)
      returns (out: seq<Timed<Message>>, ok: bool)
    requires DistinctIds(connections) && FitsWord(f)
    requires forall x :: x in rows ==> x.time < 0x8000_0000_0000_0000
    ensures Run(out, !ok) == TableRun(connections, rows, maxMessage, f)
    ensures CutAtTooLarge(Filter(Passing(connections, f), StableSort(Stored(connections, rows))), maxMessage, out, ok)
  {
    ghost var all := Filter(Passing(connections, f), StableSort(Stored(connections, rows)));
    LimitedIsCut(all, maxMessage);
    var q := MakeQuery(connections, f);
    SameRows(connections, f, q, rows);
    FilterThenSort(Passing(connections, f), Stored(connections, rows));
    if q.None? {
      return [], true;
    }
    var result := Execute(connections, rows, q.value);
    MapThenSort(ToMessage(connections), Filter(Where(q.value), Filter(Known(connections), rows)));
    assert all == Map(ToMessage(connections), result);
    out, ok := Deliver(connections, result, maxMessage);
  }

  lemma {:induction false} WithinLimit(maxMessage: nat, all: seq<Timed<Message>>, n: nat)
    requires n <= |all| && forall k :: 0 <= k < n ==> |all[k].data.bytes| <= maxMessage
    requires n < |all| ==> |all[n].data.bytes| > maxMessage
    ensures MapWhile(Limited(maxMessage), all) == all[..n]
  {
    var ys := MapWhile(Limited(maxMessage), all);
    if |ys| > n {
      assert false;
    }
  }

  /** The calls of `next`: one message a row, until a blob is too large. */
  method Deliver(connections: seq<Connection>, result: seq<Timed<Row>>, maxMessage: nat)
      returns (out: seq<Timed<Message>>, ok: bool)
    ensures var all := Map(ToMessage(connections), result);
            out == MapWhile(Limited(maxMessage), all) && (ok <==> |out| == |all|)
  {
    out := [];
    ghost var all := Map(ToMessage(connections), result);
    for i := 0 to |result|
      invariant out == all[..i] && forall k :: 0 <= k < i ==> |all[k].data.bytes| <= maxMessage
    {
      if |result[i].data.bytes| > maxMessage {
        WithinLimit(maxMessage, all, i);
        return out, false;
      }
      out := out + [Timed(result[i].time, ToMessage(connections)(result[i].data))];
    }
    WithinLimit(maxMessage, all, |all|);
    ok := true;
  }

  /** Why the stop is clamped: bound as it is, a stop past the largest signed time would cut everything. */
  lemma {:induction false} UnclampedStopCutsAll(stop: nat, x: Timed<Row>)
    requires INT64_MAX < stop <= SIZE_MAX
    ensures !Where(Query(None, None, Some(AsSigned(stop))))(x)
  {
  }
}
