/** ROS1 message records as they are written, and that the cursor finds what they hold. */
module Ros1Message {
  import opened Wrappers
  import opened Bytes
  import opened Lists
  import opened Ros1Cursor
  import Filters
  import F = StableOrder
  import R = Records

  const OP_BYTE: byte := 2

  /** What the header of a message record has to say, whatever else it says and in whatever order. */
  predicate Says(header: List<R.Field>, connection: nat, sec: nat, nsec: nat) {
    var d := R.Dictionary(header);
    && OP in d && d[OP] == [OP_BYTE]
    && CONN in d && d[CONN] == R.Store32(connection)
    && TIME in d && d[TIME] == R.Store32(sec) + R.Store32(nsec)
  }

  /** The usual header of a message record. */
  function MessageHeader(connection: nat, sec: nat, nsec: nat): List<R.Field> {
    Cons(R.Field(OP, [OP_BYTE]), Cons(ConnectionField(connection), Cons(TimeField(sec, nsec), Nil)))
  }

  function ConnectionField(connection: nat): R.Field {
    R.Field(CONN, R.Store32(connection))
  }

  function TimeField(sec: nat, nsec: nat): R.Field {
    R.Field(TIME, R.Store32(sec) + R.Store32(nsec))
  }

  lemma {:induction false} NamesDiffer()
    ensures |OP| == 2 && |CONN| == 4 && |TIME| == 4
    ensures OP != CONN && OP != TIME && CONN != TIME
    ensures R.EQUALS !in OP && R.EQUALS !in CONN && R.EQUALS !in TIME
  {
    assert CONN[0] == 99 && TIME[0] == 116;
  }

  lemma {:induction false} FieldsAreWritable(connection: nat, sec: nat, nsec: nat)
    ensures R.Writable(R.Field(OP, [OP_BYTE]))
    ensures R.Writable(ConnectionField(connection)) && R.Writable(TimeField(sec, nsec))
  {
    NamesDiffer();
    assert R.Size(R.Field(OP, [OP_BYTE])) == 4;
    assert R.Size(ConnectionField(connection)) == 9;
    assert R.Size(TimeField(sec, nsec)) == 13;
  }

  /** The usual header can be written, and says what it should. */
  lemma {:induction false} HeaderSays(connection: nat, sec: nat, nsec: nat)
    ensures R.AllWritable(MessageHeader(connection, sec, nsec))
    ensures Says(MessageHeader(connection, sec, nsec), connection, sec, nsec)
  {
    var last := Cons(TimeField(sec, nsec), Nil);
    var rest := Cons(ConnectionField(connection), last);
    FieldsAreWritable(connection, sec, nsec);
    assert R.AllWritable(last) && R.AllWritable(rest);
    NamesDiffer();
    SayTime(R.Store32(sec) + R.Store32(nsec));
    SayMore(ConnectionField(connection), last);
    SayMore(R.Field(OP, [OP_BYTE]), rest);
  }

  lemma {:induction false} SayTime(time: seq<byte>)
    ensures R.Dictionary(Cons(R.Field(TIME, time), Nil)) == map[TIME := time]
  {
  }

  lemma {:induction false} SayMore(field: R.Field, rest: List<R.Field>)
    ensures var d := R.Dictionary(Cons(field, rest));
            && (field.name !in R.Dictionary(rest) ==> field.name in d && d[field.name] == field.data)
            && forall name :: name in R.Dictionary(rest) ==> name in d && d[name] == R.Dictionary(rest)[name]
  {
  }

  lemma {:induction false} TimeReadsBack(fields: R.Fields, sec: nat, nsec: nat)
    requires sec <= U32_MAX && nsec < 1_000_000_000
    requires TIME in fields && fields[TIME] == R.Store32(sec) + R.Store32(nsec)
    ensures R.Time(fields, TIME) == Some(sec * 1_000_000_000 + nsec)
  {
    var bytes := fields[TIME];
    assert At(bytes, 0, R.Store32(sec)) && At(bytes, 4, R.Store32(nsec));
    R.LoadStored32(bytes, 0, sec);
    R.LoadStored32(bytes, 4, nsec);
  }

  lemma {:induction false} ConnectionReadsBack(fields: R.Fields, connection: nat)
    requires connection <= U32_MAX && CONN in fields && fields[CONN] == R.Store32(connection)
    ensures R.U32(fields, CONN) == Some(connection)
  {
    assert At(fields[CONN], 0, R.Store32(connection));
    R.LoadStored32(fields[CONN], 0, connection);
  }

  /** The checks on a record whose header says so. */
  lemma {:induction false} MessageChecks(bag: Bag, header: List<R.Field>, body: seq<byte>, next: nat,
      connection: nat, sec: nat, nsec: nat, time: nat, wanted: nat)
    requires connection <= U32_MAX && sec <= U32_MAX && nsec < 1_000_000_000
    requires Says(header, connection, sec, nsec)
    ensures R.U8(R.Dictionary(header), OP) == Some(OP_MESSAGE)
    ensures MessageIn(bag, R.Record(R.Dictionary(header), body, next), time, wanted)
         == if time == sec * 1_000_000_000 + nsec && wanted == connection && |body| <= bag.messageLimit
            then Some(body) else None
  {
    TimeReadsBack(R.Dictionary(header), sec, nsec);
    ConnectionReadsBack(R.Dictionary(header), connection);
  }

  lemma {:induction false} MessageIsFoundAt(bag: Bag, chunk: seq<byte>, pos: nat, header: List<R.Field>,
      body: seq<byte>, next: nat, connection: nat, sec: nat, nsec: nat, time: nat, wanted: nat)
    requires connection <= U32_MAX && sec <= U32_MAX && nsec < 1_000_000_000
    requires Says(header, connection, sec, nsec) && pos <= |chunk|
    requires R.RecordAt(chunk, pos, bag.headerLimit) == R.Ok(R.Record(R.Dictionary(header), body, next))
    ensures MessageAt(bag, chunk, pos, time, wanted)
         == if time == sec * 1_000_000_000 + nsec && wanted == connection && |body| <= bag.messageLimit
            then Some(body) else None
  {
    MessageChecks(bag, header, body, next, connection, sec, nsec, time, wanted);
    StopsAt(chunk, pos, bag.headerLimit, R.Record(R.Dictionary(header), body, next));
  }

  /**
   The record of a message, wherever it stands in a chunk, is found exactly under its own time and
   connection, and yields its own body unless that is too large.
   */
  lemma {:induction false} MessageIsFound(bag: Bag, before: seq<byte>, header: List<R.Field>, body: seq<byte>,
      after: seq<byte>, connection: nat, sec: nat, nsec: nat, time: nat, wanted: nat)
    requires connection <= U32_MAX && sec <= U32_MAX && nsec < 1_000_000_000 && |body| <= U32_MAX
    requires R.AllWritable(header) && Says(header, connection, sec, nsec)
    requires |R.HeaderBytes(header)| <= U32_MAX && |R.HeaderBytes(header)| <= bag.headerLimit
    ensures MessageAt(bag, before + R.RecordBytes(header, body) + after, |before|, time, wanted)
         == if time == sec * 1_000_000_000 + nsec && wanted == connection && |body| <= bag.messageLimit
            then Some(body) else None
  {
    var record := R.RecordBytes(header, body);
    R.RecordReadsBack(before, header, body, after, bag.headerLimit);
    MessageIsFoundAt(bag, before + record + after, |before|, header, body, |before| + |record|,
                     connection, sec, nsec, time, wanted);
  }

  lemma {:induction false} StopsAt(chunk: seq<byte>, pos: nat, headerLimit: nat, record: R.Record)
    requires pos <= |chunk| && R.RecordAt(chunk, pos, headerLimit) == R.Ok(record)
    requires R.U8(record.fields, OP) != Some(OP_CONNECTION)
    ensures SkipConnections(chunk, pos, headerLimit) == R.Ok(record)
  {
  }

  lemma {:induction false} Skips(chunk: seq<byte>, pos: nat, headerLimit: nat, record: R.Record)
    requires pos <= |chunk| && R.RecordAt(chunk, pos, headerLimit) == R.Ok(record)
    requires R.U8(record.fields, OP) == Some(OP_CONNECTION)
    ensures record.next <= |chunk|
    ensures SkipConnections(chunk, pos, headerLimit) == SkipConnections(chunk, record.next, headerLimit)
  {
  }

  /** A connection record in front of what an entry leads to changes nothing. */
  lemma {:induction false} ConnectionIsSkipped(before: seq<byte>, header: List<R.Field>, body: seq<byte>,
      after: seq<byte>, headerLimit: nat)
    requires R.AllWritable(header) && |body| <= U32_MAX
    requires R.U8(R.Dictionary(header), [111, 112]) == Some(7)
    requires |R.HeaderBytes(header)| <= U32_MAX && |R.HeaderBytes(header)| <= headerLimit
    ensures var record := R.RecordBytes(header, body);
            SkipConnections(before + record + after, |before|, headerLimit)
            == SkipConnections(before + record + after, |before| + |record|, headerLimit)
  {
    var next := |before| + |R.RecordBytes(header, body)|;
    R.RecordReadsBack(before, header, body, after, headerLimit);
    Skips(before + R.RecordBytes(header, body) + after, |before|, headerLimit,
          R.Record(R.Dictionary(header), body, next));
  }

  /** The usual header in bytes: `op` is 2, `conn` and `time` have their least byte first. */
  lemma {:induction false} HeaderInBytes(connection: nat, sec: nat, nsec: nat)
    ensures MessageHeader(connection, sec, nsec)
         == Cons(R.Field([111, 112], [2]),
                 Cons(R.Field([99, 111, 110, 110], R.Store32(connection)),
                      Cons(R.Field([116, 105, 109, 101], R.Store32(sec) + R.Store32(nsec)), Nil)))
  {
  }

  /** A record passes the checks for an entry exactly if its fields say what the entry says and it is small enough. */
  lemma {:induction false} ChecksAreExact(bag: Bag, record: R.Record, time: nat, connection: nat)
    ensures MessageIn(bag, record, time, connection)
         == if && R.U8(record.fields, [111, 112]) == Some(2)
               && R.Time(record.fields, [116, 105, 109, 101]) == Some(time)
               && R.U32(record.fields, [99, 111, 110, 110]) == Some(connection)
               && |record.body| <= bag.messageLimit then Some(record.body)
            else None
  {
  }

  /** What an entry stands for: the message found in its own chunk, at its own offset, under its own time and id. */
  lemma {:induction false} FetchIsExact(bag: Bag, x: F.Timed<Slot>)
    ensures var c, e := x.data.connection, x.data.entry;
            Fetch(bag, x)
            == if c >= |bag.connections| || e.chunk >= |bag.chunks| || bag.chunks[e.chunk].None? then None
               else
                 match MessageAt(bag, bag.chunks[e.chunk].value, e.offset, x.time, bag.connections[c].id)
                 case None => None
                 case Some(body) => Some(F.Timed(x.time, Filters.Message(c, body)))
  {
  }
}
