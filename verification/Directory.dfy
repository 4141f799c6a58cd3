/** A ROS2 bag directory: one storage file after another, merged under the directory's own connections. */
module Directory {
  import opened Wrappers
  import opened Bytes
  import opened StableOrder
  import opened KWayMerge
  import opened FailingMerge
  import opened DelayedMerge
  import opened Filters
  import opened FilteredMerge

  /**
   An opened storage file: its connections, its messages in delivery order, where each of its
   connections is in the directory's list (`connection_map_`), and what its cursor delivers under a filter.
   */
  datatype File = File(connections: seq<Connection>, stored: seq<Timed<Message>>, places: seq<Option<nat>>,
                       run: ReadFilter -> Run)

  /**
   An opened directory.  `decode` is what happens to a message's bytes when it is delivered:
   decompression, which may fail, if messages are compressed one by one, and nothing otherwise.
   */
  datatype Bag = Bag(connections: seq<Connection>, files: seq<File>, decode: seq<byte> -> Option<seq<byte>>)

  /** The filter a child gets: ids are those of the directory and mean nothing to a file. */
  function Local(f: ReadFilter): ReadFilter {
    f.(ids := [])
  }

  /** What a successful `open` establishes: every file connection has a place with the same topic. */
  ghost predicate Mapped(bag: Bag, file: File) {
    && |file.places| == |file.connections|
    && forall c :: 0 <= c < |file.connections| ==>
         && file.places[c].Some? && file.places[c].value < |bag.connections|
         && bag.connections[file.places[c].value].topic == file.connections[c].topic
  }

  /** What the file's own cursors guarantee: known connections, timestamp order, and an honest run. */
  ghost predicate Ordered(file: File) {
    && Sorted(file.stored) && (forall x :: x in file.stored ==> x.data.connection < |file.connections|)
    && forall f :: Honest(file.connections, file.stored, f, file.run(f))
  }

  ghost predicate Opened(bag: Bag) {
    forall k :: 0 <= k < |bag.files| ==> Mapped(bag, bag.files[k]) && Ordered(bag.files[k])
  }

  /** `map_connection`. */
  function PlaceOf(file: File): nat -> nat {
    (c: nat) => if c < |file.places| && file.places[c].Some? then file.places[c].value else 0
  }

  /** The verdict of `pull` on one message of file `k`. */
  function Judge(bag: Bag, f: ReadFilter): Accept<Message, Message> {
    (k: nat, x: Timed<Message>) =>
      if k < |bag.files| && x.data.connection < |bag.files[k].places|
         && bag.files[k].places[x.data.connection].Some? then
        var message := Message(bag.files[k].places[x.data.connection].value, x.data.bytes);
        if Passes(bag.connections, f, Timed(x.time, message)) then Keep(message) else Skip
      else Reject
  }

  /** The directory and the file judge a message alike, ids apart, and the directory checks ids itself. */
  lemma {:induction false} FileAgrees(bag: Bag, k: nat, f: ReadFilter, x: Timed<Message>)
    requires k < |bag.files| && Mapped(bag, bag.files[k]) && x.data.connection < |bag.files[k].connections|
    ensures Agrees(Judge(bag, f), k, Passing(bag.files[k].connections, Local(f)), Passing(bag.connections, f),
                   PlaceOf(bag.files[k]), x)
  {
    SameTopicPasses(bag.files[k].connections, bag.connections, f, x, Rename(PlaceOf(bag.files[k]), x));
  }

  lemma {:induction false} SameTopicPasses(local: seq<Connection>, all: seq<Connection>, f: ReadFilter,
      x: Timed<Message>, y: Timed<Message>)
    requires x.time == y.time && x.data.connection < |local| && y.data.connection < |all|
    requires local[x.data.connection].topic == all[y.data.connection].topic
    ensures Passes(all, f, y) ==> Passes(local, Local(f), x)
  {
  }

  /** The directory's messages file after file, under the directory's connections. */
  function Contents(bag: Bag): (xss: seq<seq<Timed<Message>>>)
    ensures |xss| == |bag.files|
    ensures forall k :: 0 <= k < |bag.files| ==> xss[k] == Renamed(PlaceOf(bag.files[k]), bag.files[k].stored)
  {
    seq(|bag.files|, k requires 0 <= k < |bag.files| => Renamed(PlaceOf(bag.files[k]), bag.files[k].stored))
  }

  /** What the directory's cursor makes of a message it delivers. */
  function Unpack(bag: Bag): Message -> Option<Message> {
    (m: Message) =>
      match bag.decode(m.bytes)
      case None => None
      case Some(bytes) => Some(m.(bytes := bytes))
  }

  /** Everything the directory holds, as it is to be delivered, file after file. */
  function Held(bag: Bag): seq<Timed<Message>> {
    Map(OrSame(Unpack(bag)), Flatten(Contents(bag)))
  }

  /** What passes of each file's run, under the directory's connections. */
  function Shares(bag: Bag, f: ReadFilter): (yss: seq<seq<Timed<Message>>>)
    ensures |yss| == |bag.files|
    ensures forall k :: 0 <= k < |yss| ==>
      yss[k] == Share(Passing(bag.connections, f), PlaceOf(bag.files[k]), bag.files[k].run(Local(f)).items)
  {
    seq(|bag.files|, k requires 0 <= k < |bag.files| =>
      Share(Passing(bag.connections, f), PlaceOf(bag.files[k]), bag.files[k].run(Local(f)).items))
  }

  function Broken(bag: Bag, f: ReadFilter): (bad: seq<bool>)
    ensures |bad| == |bag.files|
    ensures forall k :: 0 <= k < |bad| ==> bad[k] == bag.files[k].run(Local(f)).fails
  {
    seq(|bag.files|, k requires 0 <= k < |bag.files| => bag.files[k].run(Local(f)).fails)
  }

  /**
   The run of a directory: the merge up to the first failure of a file, and of that what comes before
   the first message that cannot be unpacked.
   */
  function RunOf(bag: Bag, f: ReadFilter): Run {
    var merged := UpToFailure(Shares(bag, f), Broken(bag, f));
    var out := MapWhile(Unpack(bag), merged);
    Run(out, true in Broken(bag, f) || |out| < |merged|)
  }

  lemma {:induction false} FileContributes(bag: Bag, k: nat, f: ReadFilter)
    requires k < |bag.files| && Mapped(bag, bag.files[k]) && Ordered(bag.files[k])
    ensures var run := bag.files[k].run(Local(f));
            && Accepted(Judge(bag, f), k, run.items) == Shares(bag, f)[k]
            && (Clean(Judge(bag, f), k, run.items, run.fails) <==> !run.fails)
    ensures var whole := Filter(Passing(bag.connections, f), Contents(bag)[k]);
            && Sorted(Contents(bag)[k]) && Shares(bag, f)[k] <= whole
            && (!Broken(bag, f)[k] ==> Shares(bag, f)[k] == whole)
  {
    var file := bag.files[k];
    MapSorted(Renaming(PlaceOf(file)), file.stored);
    forall x | x in file.stored
      ensures Agrees(Judge(bag, f), k, Passing(file.connections, Local(f)), Passing(bag.connections, f),
                     PlaceOf(file), x)
    {
      FileAgrees(bag, k, f, x);
    }
    assert Honest(file.connections, file.stored, Local(f), file.run(Local(f)));
    Contributes(Judge(bag, f), k, Passing(file.connections, Local(f)), Passing(bag.connections, f),
                PlaceOf(file), file.stored, file.run(Local(f)));
  }

  lemma {:induction false} ChildrenContribute(bag: Bag, f: ReadFilter, sources: seq<Source<Message, Message>>)
    requires Opened(bag) && |sources| == |bag.files|
    requires forall k :: 0 <= k < |sources| ==>
      var run := bag.files[k].run(Local(f));
      sources[k] == Source(Child(run.items, run.fails, false), None)
    ensures StreamsOf(Judge(bag, f), sources) == Shares(bag, f)
    ensures Failing(Judge(bag, f), sources) == Broken(bag, f)
  {
    forall k | 0 <= k < |sources|
      ensures StreamsOf(Judge(bag, f), sources)[k] == Shares(bag, f)[k]
      ensures Failing(Judge(bag, f), sources)[k] == Broken(bag, f)[k]
    {
      FileContributes(bag, k, f);
    }
  }

  /** A directory's run is that of a backend: what it holds sorted and filtered, cut short only by a failure. */
  lemma {:induction false} RunIsHonest(bag: Bag, f: ReadFilter)
    requires Opened(bag)
    ensures Honest(bag.connections, StableSort(Held(bag)), f, RunOf(bag, f))
  {
    var p, g, sorted := Passing(bag.connections, f), OrSame(Unpack(bag)), StableSort(Flatten(Contents(bag)));
    forall k | 0 <= k < |bag.files|
      ensures Sorted(Contents(bag)[k]) && Shares(bag, f)[k] <= Filter(p, Contents(bag)[k])
      ensures !Broken(bag, f)[k] ==> Shares(bag, f)[k] == Filter(p, Contents(bag)[k])
    {
      FileContributes(bag, k, f);
    }
    MergeOfRuns(p, Contents(bag), Shares(bag, f), Broken(bag, f));
    MapWhileIsPrefix(Unpack(bag), UpToFailure(Shares(bag, f), Broken(bag, f)), Filter(p, sorted));
    FilterOfMapped(p, g, sorted);
    MapThenSort(g, Flatten(Contents(bag)));
  }

  /** `out` is what `merged` delivers: each message with its bytes decoded, up to the first that cannot be. */
  ghost predicate Decoded(decode: seq<byte> -> Option<seq<byte>>, merged: seq<Timed<Message>>,
      out: seq<Timed<Message>>)
  {
    && |out| <= |merged|
    && (forall k :: 0 <= k < |out| ==>
          && decode(merged[k].data.bytes) == Some(out[k].data.bytes)
          && out[k].time == merged[k].time && out[k].data.connection == merged[k].data.connection)
    && (|out| < |merged| ==> decode(merged[|out|].data.bytes) == None)
  }

  lemma {:induction false} UnpackedIsDecoded(bag: Bag, merged: seq<Timed<Message>>)
    ensures Decoded(bag.decode, merged, MapWhile(Unpack(bag), merged))
  {
    if merged != [] {
      UnpackedIsDecoded(bag, merged[1..]);
    }
  }

  /** A message of a file under the directory's connections, decoded. */
  ghost predicate Stems(bag: Bag, k: nat, x: Timed<Message>, m: Timed<Message>) {
    && k < |bag.files| && x in bag.files[k].stored && x.data.connection < |bag.files[k].places|
    && bag.files[k].places[x.data.connection] == Some(m.data.connection)
    && x.time == m.time && bag.decode(x.data.bytes) == Some(m.data.bytes)
  }

  /** Whatever is delivered is a stored message, decoded, under its connection's place in the directory. */
  lemma {:induction false} DeliveredStems(bag: Bag, f: ReadFilter, i: nat) returns (k: nat, x: Timed<Message>)
    requires Opened(bag) && i < |RunOf(bag, f).items|
    ensures Stems(bag, k, x, RunOf(bag, f).items[i])
  {
    var merged := UpToFailure(Shares(bag, f), Broken(bag, f));
    UnpackedIsDecoded(bag, merged);
    MergedComesFrom(Shares(bag, f), Broken(bag, f), merged[i]);
    k :| 0 <= k < |bag.files| && merged[i] in Shares(bag, f)[k];
    x := SharedIsStored(bag, f, k, merged[i]);
  }

  lemma {:induction false} AllStem(bag: Bag, f: ReadFilter)
    requires Opened(bag)
    ensures forall m :: m in RunOf(bag, f).items ==> exists k, x :: Stems(bag, k, x, m)
  {
    forall m | m in RunOf(bag, f).items
      ensures exists k, x :: Stems(bag, k, x, m)
    {
      var i :| 0 <= i < |RunOf(bag, f).items| && RunOf(bag, f).items[i] == m;
      var k, x := DeliveredStems(bag, f, i);
    }
  }

  lemma {:induction false} MergedComesFrom<T>(xss: seq<seq<Timed<T>>>, bad: seq<bool>, m: Timed<T>)
    requires |bad| == |xss| && m in UpToFailure(xss, bad)
    ensures exists k :: 0 <= k < |xss| && m in xss[k]
    decreases Total(xss)
  {
    var i := Least(xss).value;
    TotalDrops(xss, i);
    if m != xss[i][0] {
      MergedComesFrom(xss[i := xss[i][1..]], bad, m);
      var k :| 0 <= k < |xss| && m in xss[i := xss[i][1..]][k];
      assert m in xss[k];
    }
  }

  lemma {:induction false} SharedIsStored(bag: Bag, f: ReadFilter, k: nat, m: Timed<Message>)
      returns (x: Timed<Message>)
    requires k < |bag.files| && Mapped(bag, bag.files[k]) && Ordered(bag.files[k]) && m in Shares(bag, f)[k]
    ensures x in bag.files[k].stored && x.data.connection < |bag.files[k].places|
    ensures bag.files[k].places[x.data.connection] == Some(m.data.connection)
    ensures x.time == m.time && x.data.bytes == m.data.bytes
  {
    var file, run := bag.files[k], bag.files[k].run(Local(f)).items;
    FilterMember(Passing(bag.connections, f), Renamed(PlaceOf(file), run), m);
    var i :| 0 <= i < |run| && Renamed(PlaceOf(file), run)[i] == m;
    x := run[i];
    assert Honest(file.connections, file.stored, Local(f), file.run(Local(f)));
    FilterMember(Passing(file.connections, Local(f)), file.stored, x);
  }

  /**
   Reading a directory delivers its messages stably sorted by timestamp, ties in file order, and
   restricted by topic, connection id and time: exactly once each.  If a file fails, everything
   before its last message has been delivered, and if a message cannot be unpacked, everything before it.
   */
  method ReadDirectory(bag: Bag, f: ReadFilter) returns (out: seq<Timed<Message>>, ok: bool)
    requires Opened(bag)
    ensures Run(out, !ok) == RunOf(bag, f)
    ensures Decoded(bag.decode, UpToFailure(Shares(bag, f), Broken(bag, f)), out)
    ensures ok <==> true !in Broken(bag, f) && |out| == |UpToFailure(Shares(bag, f), Broken(bag, f))|
    ensures forall m :: m in out ==> exists k, x :: Stems(bag, k, x, m)
    ensures ok ==> out == Filter(Passing(bag.connections, f), StableSort(Held(bag)))
    ensures !ok ==> out <= Filter(Passing(bag.connections, f), StableSort(Held(bag)))
  {
    RunIsHonest(bag, f);
    UnpackedIsDecoded(bag, UpToFailure(Shares(bag, f), Broken(bag, f)));
    AllStem(bag, f);
    var children := seq(|bag.files|, k requires 0 <= k < |bag.files| =>
      var run := bag.files[k].run(Local(f));
      Child(run.items, run.fails, false));
    var cursor := new MergeCursor(Judge(bag, f), children);
    ChildrenContribute(bag, f, cursor.sources);
    out, ok := StartAndDeliver(cursor, bag);
  }

  /** Pulling a head from every file, and then delivering. */
  method StartAndDeliver(cursor: MergeCursor<Message, Message>, bag: Bag) returns (out: seq<Timed<Message>>, ok: bool)
    requires cursor.heap == [] && cursor.pending == None
    requires forall k :: 0 <= k < |cursor.sources| ==>
      cursor.sources[k].head.None? && !cursor.sources[k].child.ended
    modifies cursor
    ensures var bad := old(Failing(cursor.accept, cursor.sources));
            var merged := old(Ahead(cursor.accept, cursor.sources));
            out == MapWhile(Unpack(bag), merged) && (ok <==> true !in bad && |out| == |merged|)
  {
    out := [];
    ok := cursor.Start();
    if ok {
      out, ok := DeliverAll(cursor, bag);
    } else {
      assert true in old(Failing(cursor.accept, cursor.sources));
    }
  }

  /** The calls of `next` until the end or a failure, each delivered message unpacked. */
  method DeliverAll(cursor: MergeCursor<Message, Message>, bag: Bag) returns (out: seq<Timed<Message>>, ok: bool)
    requires cursor.Valid()
    modifies cursor
    ensures var bad := old(Failing(cursor.accept, cursor.sources));
            var merged := old(Ahead(cursor.accept, cursor.sources));
            out == MapWhile(Unpack(bag), merged) && (ok <==> true !in bad && |out| == |merged|)
  {
    ghost var bad := Failing(cursor.accept, cursor.sources);
    ghost var merged := Ahead(cursor.accept, cursor.sources);
    ghost var left := merged;
    out := [];
    while true
      invariant cursor.Valid() && Failing(cursor.accept, cursor.sources) == bad
      invariant left == Ahead(cursor.accept, cursor.sources)
      invariant MapWhile(Unpack(bag), merged) == out + MapWhile(Unpack(bag), left)
      invariant |merged| == |out| + |left|
      decreases |left|
    {
      var next := cursor.Next();
      match next
      case Failed => return out, false;
      case End => return out, true;
      case Item(x) =>
        left := left[1..];
        MapWhileFront(Unpack(bag), x, left);
        var unpacked := Unpack(bag)(x.data);
        if unpacked.None? {
          return out, false;
        }
        MoveFront(out, Timed(x.time, unpacked.value), MapWhile(Unpack(bag), left));
        out := out + [Timed(x.time, unpacked.value)];
    }
  }
}
