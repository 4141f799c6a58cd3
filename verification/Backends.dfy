/**
 The storage backends as children of the merges: each delivers its stored messages stably sorted and
 restricted by one and the same filter, so what merges count on is what backends guarantee.
 */
module Backends {
  import opened Wrappers
  import opened Bytes
  import opened StableOrder
  import opened KWayMerge
  import opened Filters
  import Directory
  import AnyReader
  import Sqlite
  import Spool
  import SpoolCursor
  import Ros1Cursor
  import Ros1Index
  import Ros1Open
  import Ros1Reading

  /** Messages of known connections only. */
  ghost predicate KnownConnections(connections: seq<Connection>, xs: seq<Timed<Message>>) {
    forall x :: x in xs ==> x.data.connection < |connections|
  }

  lemma {:induction false} SortKeepsConnections(connections: seq<Connection>, xs: seq<Timed<Message>>)
    requires KnownConnections(connections, xs)
    ensures Sorted(StableSort(xs)) && KnownConnections(connections, StableSort(xs))
  {
    StableSortIsStable(xs);
    forall x | x in StableSort(xs)
      ensures x.data.connection < |connections|
    {
      SameTiesMember(StableSort(xs), xs, x);
    }
  }

  lemma {:induction false} TableIsKnown(connections: seq<Connection>, rows: seq<Timed<Sqlite.Row>>)
    ensures KnownConnections(connections, Sqlite.Stored(connections, rows))
  {
    var kept, stored := Filter(Sqlite.Known(connections), rows), Sqlite.Stored(connections, rows);
    forall x | x in stored
      ensures x.data.connection < |connections|
    {
      var k :| 0 <= k < |stored| && stored[k] == x;
      assert kept[k] in kept;
      FilterMember(Sqlite.Known(connections), rows, kept[k]);
    }
  }

  /** A SQLite file in a directory. */
  function SqliteFile(connections: seq<Connection>, rows: seq<Timed<Sqlite.Row>>, maxMessage: nat,
      places: seq<Option<nat>>): Directory.File
  {
    Directory.File(connections, StableSort(Sqlite.Stored(connections, rows)), places,
                   f => Sqlite.TableRun(connections, rows, maxMessage, f))
  }

  lemma {:induction false} SqliteFileIsOrdered(connections: seq<Connection>, rows: seq<Timed<Sqlite.Row>>,
      maxMessage: nat, places: seq<Option<nat>>)
    ensures Directory.Ordered(SqliteFile(connections, rows, maxMessage, places))
  {
    TableIsKnown(connections, rows);
    SortKeepsConnections(connections, Sqlite.Stored(connections, rows));
    forall f
      ensures Honest(connections, StableSort(Sqlite.Stored(connections, rows)), f,
                     Sqlite.TableRun(connections, rows, maxMessage, f))
    {
      Sqlite.TableRunIsHonest(connections, rows, maxMessage, f);
    }
  }

  /** `ReadTable` under the directory's filter is the run the directory merges, failing tables included. */
  method ReadSqliteFile(connections: seq<Connection>, rows: seq<Timed<Sqlite.Row>>, maxMessage: nat,
      places: seq<Option<nat>>, f: ReadFilter) returns (out: seq<Timed<Message>>, ok: bool)
    requires DistinctIds(connections) && Sqlite.FitsWord(f) && forall x :: x in rows ==> x.time <= Sqlite.INT64_MAX
    ensures Directory.Ordered(SqliteFile(connections, rows, maxMessage, places))
    ensures Run(out, !ok) == SqliteFile(connections, rows, maxMessage, places).run(Directory.Local(f))
  {
    SqliteFileIsOrdered(connections, rows, maxMessage, places);
    out, ok := Sqlite.ReadTable(connections, rows, maxMessage, Directory.Local(f));
  }

  lemma {:induction false} ScannedIsKnown(connections: seq<Connection>, channels: map<nat, nat>,
      messages: seq<Timed<Spool.Scanned>>)
    requires forall c :: c in channels ==> channels[c] < |connections|
    requires forall x :: x in messages ==> x.data.channel in channels
    ensures KnownConnections(connections, Map(SpoolCursor.AsMessage(channels), messages))
  {
    var stored := Map(SpoolCursor.AsMessage(channels), messages);
    forall x | x in stored
      ensures x.data.connection < |connections|
    {
      var k :| 0 <= k < |stored| && stored[k] == x;
      assert messages[k] in messages;
    }
  }

  /** What scanning an MCAP file for the fallback finds: the messages, whether cleanly, and how many are due. */
  datatype Scan = Scan(messages: seq<Timed<Spool.Scanned>>, clean: bool, expected: nat)

  predicate Spooled(channels: map<nat, nat>, options: Spool.Options, scan: Scan) {
    Spool.Fits(scan.messages, channels, options) && scan.clean && |scan.messages| == scan.expected
  }

  /** An MCAP file read through the fallback: a cursor that cannot build its spool delivers nothing. */
  function McapFile(connections: seq<Connection>, channels: map<nat, nat>, options: Spool.Options, scan: Scan,
      places: seq<Option<nat>>): Directory.File
  {
    var stored :=
      if Spooled(channels, options, scan) then StableSort(Map(SpoolCursor.AsMessage(channels), scan.messages)) else [];
    Directory.File(connections, stored, places,
                   f => Run(Filter(Passing(connections, f), stored), !Spooled(channels, options, scan)))
  }

  method ReadMcapFile(connections: seq<Connection>, channels: map<nat, nat>, options: Spool.Options, scan: Scan,
      places: seq<Option<nat>>, sort: seq<Timed<Spool.Where>> -> seq<Timed<Spool.Where>>, f: ReadFilter)
      returns (out: seq<Timed<Message>>, ok: bool)
    requires Spool.IsSort(sort) && forall c :: c in channels ==> channels[c] < |connections|
    ensures Directory.Ordered(McapFile(connections, channels, options, scan, places))
    ensures Run(out, !ok) == McapFile(connections, channels, options, scan, places).run(Directory.Local(f))
  {
    out, ok := SpoolCursor.ReadFallback(connections, channels, options, scan.messages, scan.clean, scan.expected,
                                        sort, Directory.Local(f));
    if ok {
      ScannedIsKnown(connections, channels, scan.messages);
      SortKeepsConnections(connections, Map(SpoolCursor.AsMessage(channels), scan.messages));
    }
  }

  // ----- ROS1 bags as readers -----

  /** What an entry stands for, and a message without bytes where it fails its checks. */
  function Guess(bag: Ros1Cursor.Bag, x: Timed<Ros1Cursor.Slot>): Timed<Message> {
    match Ros1Cursor.Fetch(bag, x)
    case None => Timed(x.time, Message(x.data.connection, []))
    case Some(m) => m
  }

  function Guesses(bag: Ros1Cursor.Bag, xs: seq<Timed<Ros1Cursor.Slot>>): (ms: seq<Timed<Message>>)
    ensures |ms| == |xs| && forall k :: 0 <= k < |xs| ==> ms[k] == Guess(bag, xs[k])
  {
    if xs == [] then [] else [Guess(bag, xs[0])] + Guesses(bag, xs[1..])
  }

  lemma {:induction false} FetchedIsPrefix(bag: Ros1Cursor.Bag, xs: seq<Timed<Ros1Cursor.Slot>>)
    ensures Ros1Reading.Fetched(bag, xs) <= Guesses(bag, xs)
    ensures Ros1Reading.Readable(bag, xs) ==> Ros1Reading.Fetched(bag, xs) == Guesses(bag, xs)
  {
    if xs != [] {
      ReadableTail(bag, xs);
      FetchedIsPrefix(bag, xs[1..]);
    }
  }

  lemma {:induction false} ReadableTail(bag: Ros1Cursor.Bag, xs: seq<Timed<Ros1Cursor.Slot>>)
    requires xs != []
    ensures Ros1Reading.Readable(bag, xs) ==>
      Ros1Cursor.Fetch(bag, xs[0]).Some? && Ros1Reading.Readable(bag, xs[1..])
  {
    assert xs[0] in xs && forall x :: x in xs[1..] ==> x in xs;
  }

  lemma {:induction false} GuessThenFilter(bag: Ros1Cursor.Bag, f: ReadFilter, xs: seq<Timed<Ros1Cursor.Slot>>)
    ensures Guesses(bag, Filter(Ros1Reading.Wanted(bag, f), xs))
         == Filter(Passing(bag.connections, f), Guesses(bag, xs))
  {
    if xs != [] {
      var x, rest := xs[0], xs[1..];
      GuessThenFilter(bag, f, rest);
      assert Guesses(bag, xs)[1..] == Guesses(bag, rest);
      assert Guess(bag, x).time == x.time && Guess(bag, x).data.connection == x.data.connection;
      var kept := Filter(Ros1Reading.Wanted(bag, f), rest);
      assert ([x] + kept)[1..] == kept;
    }
  }

  /** All messages a bag's index stands for, in order. */
  function BagContents(bag: Ros1Cursor.Bag): seq<Timed<Message>>
    requires |bag.connections| == |bag.recorded|
  {
    Guesses(bag, StableSort(Ros1Reading.FileOrder(bag, |bag.connections|)))
  }

  function BagRun(bag: Ros1Cursor.Bag, f: ReadFilter): Run
    requires |bag.connections| == |bag.recorded|
  {
    var plan := Filter(Ros1Reading.Wanted(bag, f), StableSort(Ros1Reading.FileOrder(bag, |bag.connections|)));
    Run(Ros1Reading.Fetched(bag, plan), exists x :: x in plan && Ros1Cursor.Fetch(bag, x).None?)
  }

  function Ros1Reader(bag: Ros1Cursor.Bag): AnyReader.Reader
    requires |bag.connections| == |bag.recorded|
  {
    AnyReader.Reader(bag.connections, BagContents(bag), f => BagRun(bag, f))
  }

  lemma {:induction false} BagRunIsHonest(bag: Ros1Cursor.Bag, f: ReadFilter)
    requires |bag.connections| == |bag.recorded|
    ensures Honest(bag.connections, BagContents(bag), f, BagRun(bag, f))
  {
    var sorted := StableSort(Ros1Reading.FileOrder(bag, |bag.connections|));
    GuessThenFilter(bag, f, sorted);
    FetchedIsPrefix(bag, Filter(Ros1Reading.Wanted(bag, f), sorted));
  }

  lemma {:induction false} FileOrderIsKnown(bag: Ros1Cursor.Bag, n: nat, x: Timed<Ros1Cursor.Slot>)
    requires n <= |bag.connections| == |bag.recorded| && x in Ros1Reading.FileOrder(bag, n)
    ensures x.data.connection < n
  {
    var xs := Map(Ros1Cursor.SlotOf(n - 1), bag.recorded[n - 1]);
    if x in xs {
      var i :| 0 <= i < |xs| && xs[i] == x;
    } else {
      FileOrderIsKnown(bag, n - 1, x);
    }
  }

  lemma {:induction false} Ros1IsWellBehaved(bag: Ros1Cursor.Bag)
    requires |bag.connections| == |bag.recorded| && DistinctIds(bag.connections)
    ensures AnyReader.WellBehaved(Ros1Reader(bag))
  {
    var file := Ros1Reading.FileOrder(bag, |bag.connections|);
    var sorted, contents := StableSort(file), BagContents(bag);
    StableSortIsStable(file);
    forall m | m in contents
      ensures m.data.connection < |bag.connections|
    {
      var k :| 0 <= k < |contents| && contents[k] == m;
      SameTiesMember(sorted, file, sorted[k]);
      FileOrderIsKnown(bag, |bag.connections|, sorted[k]);
    }
    forall f
      ensures Honest(bag.connections, contents, f, BagRun(bag, f))
    {
      BagRunIsHonest(bag, f);
    }
  }

  /** The cursor of any bag is a reader as `AnyReader` expects it, whatever the filter, failing entries included. */
  method ReadRos1(bag: Ros1Cursor.Bag, f: ReadFilter) returns (out: seq<Timed<Message>>, ok: bool)
    requires |bag.connections| == |bag.recorded| && DistinctIds(bag.connections)
    ensures AnyReader.WellBehaved(Ros1Reader(bag))
    ensures Run(out, !ok) == Ros1Reader(bag).run(f)
  {
    Ros1IsWellBehaved(bag);
    out, ok := Ros1Reading.ReadBag(bag, f);
  }

  function Ids(connections: seq<Connection>): (ids: seq<nat>)
    ensures |ids| == |connections| && forall c :: 0 <= c < |ids| ==> ids[c] == connections[c].id
  {
    seq(|connections|, c requires 0 <= c < |connections| => connections[c].id)
  }

  /** The bag a cursor sees after opening: the entries each connection's index was made from. */
  function OpenedBag(connections: seq<Connection>, chunks: seq<Ros1Index.Chunk>, loaded: seq<Option<seq<byte>>>,
      headerLimit: nat, messageLimit: nat): (bag: Ros1Cursor.Bag)
    ensures bag.connections == connections && bag.chunks == loaded && |bag.recorded| == |connections|
    ensures forall c :: 0 <= c < |connections| ==>
      bag.recorded[c] == Ros1Index.EntriesOf(Ros1Index.AllRecords(chunks), connections[c].id)
  {
    Ros1Cursor.Bag(connections,
                   seq(|connections|, c requires 0 <= c < |connections| =>
                     Ros1Index.EntriesOf(Ros1Index.AllRecords(chunks), connections[c].id)),
                   loaded, headerLimit, messageLimit)
  }

  /** The cursor's indexes are the ones `open` built, and no entry of theirs names a missing chunk. */
  lemma {:induction false} OpenedIndex(connections: seq<Connection>, chunks: seq<Ros1Index.Chunk>,
      loaded: seq<Option<seq<byte>>>, headerLimit: nat, messageLimit: nat, indexes: Ros1Open.Indexes, c: nat)
    requires c < |connections| && |loaded| == |chunks|
    requires Ros1Open.IndexOf(indexes, connections[c].id)
          == StableSort(Ros1Index.EntriesOf(Ros1Index.AllRecords(chunks), connections[c].id))
    ensures var bag := OpenedBag(connections, chunks, loaded, headerLimit, messageLimit);
            && Ros1Cursor.Index(bag, c) == Map(Ros1Cursor.SlotOf(c), Ros1Open.IndexOf(indexes, connections[c].id))
            && forall x :: x in Ros1Open.IndexOf(indexes, connections[c].id) ==> x.data.chunk < |bag.chunks|
  {
    var id := connections[c].id;
    var recorded := Ros1Index.EntriesOf(Ros1Index.AllRecords(chunks), id);
    StableSortIsStable(recorded);
    forall x | x in StableSort(recorded)
      ensures x.data.chunk < |chunks|
    {
      SameTiesMember(StableSort(recorded), recorded, x);
      Ros1Open.EntriesNameChunks(chunks, id, x);
    }
  }

  /**
   From opening to the last message: a consistent bag delivers exactly the messages of its own index
   entries that the filter asks for, by (timestamp, connection, file position), up to the first that fails.
   */
  method OpenAndRead(connections: seq<Connection>, chunks: seq<Ros1Index.Chunk>, loaded: seq<Option<seq<byte>>>,
      headerLimit: nat, messageLimit: nat, fileSize: nat, indexPos: nat, maxIndexBytes: nat, f: ReadFilter)
      returns (accepted: bool, out: seq<Timed<Message>>, ok: bool)
    requires |loaded| == |chunks|
    ensures accepted <==>
      && Ros1Open.HeaderFits(|connections|, |chunks|, fileSize, indexPos)
      && Ros1Index.Consistent(Ids(connections), chunks, fileSize, maxIndexBytes)
    ensures accepted ==>
      var bag := OpenedBag(connections, chunks, loaded, headerLimit, messageLimit);
      var plan := Filter(Ros1Reading.Wanted(bag, f), StableSort(Ros1Reading.FileOrder(bag, |connections|)));
      out == Ros1Reading.Fetched(bag, plan) && (ok <==> Ros1Reading.Readable(bag, plan))
  {
    out, ok := [], false;
    var r, indexes, messageCount := Ros1Open.Open(Ids(connections), chunks, fileSize, indexPos, maxIndexBytes);
    accepted := r.Accepted?;
    if accepted {
      var bag := OpenedBag(connections, chunks, loaded, headerLimit, messageLimit);
      out, ok := Ros1Reading.ReadBag(bag, f);
    }
  }

  // ----- down to the stored rows -----

  /** The files' messages in storage order, under the directory's connections. */
  function Raw(bag: Directory.Bag, raws: seq<seq<Timed<Message>>>): (xss: seq<seq<Timed<Message>>>)
    requires |raws| == |bag.files|
    ensures |xss| == |raws|
    ensures forall k :: 0 <= k < |raws| ==> xss[k] == Renamed(Directory.PlaceOf(bag.files[k]), raws[k])
  {
    seq(|raws|, k requires 0 <= k < |raws| => Renamed(Directory.PlaceOf(bag.files[k]), raws[k]))
  }

  /** Sorting each file first changes nothing: a directory reading is one stable sort of the stored messages. */
  lemma {:induction false} DirectoryOfTables(bag: Directory.Bag, raws: seq<seq<Timed<Message>>>)
    requires |raws| == |bag.files| && forall k :: 0 <= k < |raws| ==> bag.files[k].stored == StableSort(raws[k])
    ensures StableSort(Directory.Held(bag))
         == StableSort(Map(OrSame(Directory.Unpack(bag)), Flatten(Raw(bag, raws))))
  {
    var sorted, raw := Directory.Contents(bag), Raw(bag, raws);
    forall k | 0 <= k < |raws|
      ensures SameTies(sorted[k], raw[k])
    {
      StableSortIsStable(raws[k]);
      MapThenSort(Renaming(Directory.PlaceOf(bag.files[k])), raws[k]);
      StableSortIsStable(raw[k]);
    }
    var all := StableSort(Flatten(sorted));
    StableSortIsStable(Flatten(sorted));
    forall t
      ensures AtTime(all, t) == AtTime(Flatten(raw), t)
    {
      FlattenTies(sorted, raw, t);
      assert AtTime(all, t) == AtTime(Flatten(sorted), t);
    }
    IsTheStableSort(all, Flatten(raw));
    MapThenSort(OrSame(Directory.Unpack(bag)), Flatten(sorted));
    MapThenSort(OrSame(Directory.Unpack(bag)), Flatten(raw));
  }
}
