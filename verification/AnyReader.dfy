/** Several readers merged under one numbering of their connections. */
module AnyReader {
  import opened Wrappers
  import opened StableOrder
  import opened KWayMerge
  import opened FailingMerge
  import opened DelayedMerge
  import opened Filters
  import opened FilteredMerge

  /**
   An opened reader: its connections, everything it holds, in order, and what a cursor of it delivers
   under a filter.
   */
  datatype Reader = Reader(connections: seq<Connection>, contents: seq<Timed<Message>>, run: ReadFilter -> Run)

  const ID_SPAN := 0x1_0000_0000

  ghost predicate WellBehaved(r: Reader) {
    && DistinctIds(r.connections) && Sorted(r.contents)
    && (forall x :: x in r.contents ==> x.data.connection < |r.connections|)
    && forall f :: Honest(r.connections, r.contents, f, r.run(f))
  }

  function Count(readers: seq<Reader>): nat {
    if readers == [] then 0 else |readers[0].connections| + Count(readers[1..])
  }

  // ----- numbering -----

  /** `next_id++` on a 32-bit counter. */
  function NextId(id: nat): nat {
    if id + 1 == ID_SPAN then 0 else id + 1
  }

  /** The id given to the connection at global position k. */
  function GlobalId(k: nat): nat {
    if k == 0 then 1 else NextId(GlobalId(k - 1))
  }

  lemma {:induction false} GlobalIdIsModular(k: nat)
    ensures GlobalId(k) == (k + 1) % ID_SPAN
  {
    if k > 0 {
      GlobalIdIsModular(k - 1);
      NextIsModular(k);
    }
  }

  lemma {:induction false} NextIsModular(k: nat)
    ensures NextId(k % ID_SPAN) == (k + 1) % ID_SPAN
  {
  }

  /** Ids are 1, 2, ..., N and distinct exactly as long as the counter has not come round. */
  lemma {:induction false} GlobalIdsAreDistinct(total: nat)
    ensures (forall j, k :: 0 <= j < k < total ==> GlobalId(j) != GlobalId(k)) <==> total <= ID_SPAN
    ensures forall k :: 0 <= k < total < ID_SPAN ==> GlobalId(k) == k + 1
  {
    forall k: nat
      ensures GlobalId(k) == (k + 1) % ID_SPAN
    {
      GlobalIdIsModular(k);
    }
    if total > ID_SPAN {
      assert GlobalId(0) == GlobalId(ID_SPAN);
    }
  }

  /** One reader's connections under global ids, the first at global position `from`. */
  function Numbered(local: seq<Connection>, from: nat): (r: seq<Connection>)
    ensures |r| == |local|
  {
    if local == [] then []
    else [Connection(GlobalId(from), local[0].topic)] + Numbered(local[1..], from + 1)
  }

  lemma {:induction false} NumberedAt(local: seq<Connection>, from: nat, k: nat)
    requires k < |local|
    ensures Numbered(local, from)[k] == Connection(GlobalId(from + k), local[k].topic)
    decreases k
  {
    if k > 0 {
      NumberedAt(local[1..], from + 1, k - 1);
    }
  }

  /** The connections of all readers in order, the first at global position `from`. */
  function Renumbered(readers: seq<Reader>, from: nat): (r: seq<Connection>)
    ensures |r| == Count(readers)
  {
    if readers == [] then []
    else Numbered(readers[0].connections, from) + Renumbered(readers[1..], from + |readers[0].connections|)
  }

  /** With these connections done, the readers from `i` on give the rest. */
  ghost predicate NumberedTo(readers: seq<Reader>, i: nat, done: seq<Connection>)
    requires i <= |readers|
  {
    done + Renumbered(readers[i..], |done|) == Renumbered(readers, 0)
  }

  lemma {:induction false} NumberedNext(readers: seq<Reader>, i: nat, done: seq<Connection>)
    requires i < |readers| && NumberedTo(readers, i, done)
    ensures NumberedTo(readers, i + 1, done + Numbered(readers[i].connections, |done|))
  {
    var numbered := Numbered(readers[i].connections, |done|);
    assert readers[i..][0] == readers[i] && readers[i..][1..] == readers[i + 1..];
    assert Renumbered(readers[i..], |done|) == numbered + Renumbered(readers[i + 1..], |done| + |numbered|);
    Associative(done, numbered, Renumbered(readers[i + 1..], |done| + |numbered|));
  }

  lemma {:induction false} Associative<T>(a: seq<T>, b: seq<T>, c: seq<T>)
    ensures a + (b + c) == (a + b) + c
  {
  }

  lemma {:induction false} NumberedStart(readers: seq<Reader>)
    ensures NumberedTo(readers, 0, [])
  {
    assert readers[0..] == readers && [] + Renumbered(readers, 0) == Renumbered(readers, 0);
  }

  lemma {:induction false} NumberedEnd(readers: seq<Reader>, done: seq<Connection>)
    requires NumberedTo(readers, |readers|, done)
    ensures done == Renumbered(readers, 0)
  {
    assert readers[|readers|..] == [] && done + [] == done;
  }

  /** The numbering loop of `AnyReader::open`. */
  method NumberConnections(readers: seq<Reader>) returns (connections: seq<Connection>)
    ensures connections == Renumbered(readers, 0)
  {
    connections := [];
    var nextId := 1;
    NumberedStart(readers);
    for i := 0 to |readers|
      invariant NumberedTo(readers, i, connections) && nextId == GlobalId(|connections|)
    {
      NumberedNext(readers, i, connections);
      var numbered, next := NumberReader(readers[i].connections, nextId, |connections|);
      connections, nextId := connections + numbered, next;
    }
    NumberedEnd(readers, connections);
  }

  method NumberReader(local: seq<Connection>, first: nat, ghost from: nat)
      returns (numbered: seq<Connection>, nextId: nat)
    requires first == GlobalId(from)
    ensures numbered == Numbered(local, from) && nextId == GlobalId(from + |local|)
  {
    numbered, nextId := [], first;
    for k := 0 to |local|
      invariant numbered + Numbered(local[k..], from + k) == Numbered(local, from)
      invariant nextId == GlobalId(from + k)
    {
      ghost var rest := Numbered(local[k + 1..], from + k + 1);
      assert local[k..][0] == local[k] && local[k..][1..] == local[k + 1..];
      assert numbered + ([local[k].(id := nextId)] + rest) == (numbered + [local[k].(id := nextId)]) + rest;
      numbered := numbered + [local[k].(id := nextId)];
      nextId := NextId(nextId);
    }
    assert local[|local|..] == [];
  }

  // ----- translating an id filter -----

  /** The local ids of the connections whose global id was asked for. */
  function LocalIds(connections: seq<Connection>, from: nat, ids: seq<nat>): seq<nat> {
    if connections == [] then []
    else (if GlobalId(from) in ids then [connections[0].id] else []) + LocalIds(connections[1..], from + 1, ids)
  }

  lemma {:induction false} LocalIdsHave(connections: seq<Connection>, from: nat, ids: seq<nat>, k: nat)
    requires k < |connections| && GlobalId(from + k) in ids
    ensures connections[k].id in LocalIds(connections, from, ids)
    decreases k
  {
    if k > 0 {
      LocalIdsHave(connections[1..], from + 1, ids, k - 1);
    }
  }

  lemma {:induction false} LocalIdsComeFrom(connections: seq<Connection>, from: nat, ids: seq<nat>, id: nat)
      returns (k: nat)
    requires id in LocalIds(connections, from, ids)
    ensures k < |connections| && connections[k].id == id && GlobalId(from + k) in ids
    decreases |connections|
  {
    if GlobalId(from) in ids && connections[0].id == id {
      k := 0;
    } else {
      k := LocalIdsComeFrom(connections[1..], from + 1, ids, id);
      k := k + 1;
    }
  }

  /** A local id is asked for exactly when the global id of its connection is. */
  lemma {:induction false} LocalIdIffGlobal(connections: seq<Connection>, from: nat, ids: seq<nat>, c: nat)
    requires DistinctIds(connections) && c < |connections|
    ensures connections[c].id in LocalIds(connections, from, ids) <==> GlobalId(from + c) in ids
  {
    if GlobalId(from + c) in ids {
      LocalIdsHave(connections, from, ids, c);
    } else if connections[c].id in LocalIds(connections, from, ids) {
      var k := LocalIdsComeFrom(connections, from, ids, connections[c].id);
    }
  }

  function LocalFilter(r: Reader, from: nat, f: ReadFilter): ReadFilter {
    f.(ids := if f.ids == [] then [] else LocalIds(r.connections, from, f.ids))
  }

  predicate Included(r: Reader, from: nat, f: ReadFilter) {
    f.ids == [] || LocalIds(r.connections, from, f.ids) != []
  }

  // ----- the sources -----

  /** A source of the merge: a reader and the global position of its first connection. */
  datatype Part = Part(reader: Reader, from: nat)

  function Parts(readers: seq<Reader>, from: nat): (parts: seq<Part>)
    ensures |parts| == |readers|
  {
    if readers == [] then [] else [Part(readers[0], from)] + Parts(readers[1..], from + |readers[0].connections|)
  }

  /** The readers that get a cursor: with an id filter, those that own one of the ids. */
  function Chosen(parts: seq<Part>, f: ReadFilter): seq<Part> {
    if parts == [] then []
    else (if Included(parts[0].reader, parts[0].from, f) then [parts[0]] else []) + Chosen(parts[1..], f)
  }

  /** The source-building loop of the cursor's constructor. */
  method ChooseSources(readers: seq<Reader>, f: ReadFilter) returns (parts: seq<Part>)
    ensures parts == Chosen(Parts(readers, 0), f)
  {
    parts := [];
    var globalIndex: nat := 0;
    for i := 0 to |readers|
      invariant parts + Chosen(Parts(readers[i..], globalIndex), f) == Chosen(Parts(readers, 0), f)
    {
      var part := Part(readers[i], globalIndex);
      ghost var rest := Parts(readers[i + 1..], globalIndex + |readers[i].connections|);
      assert readers[i..][0] == readers[i] && readers[i..][1..] == readers[i + 1..];
      assert ([part] + rest)[0] == part && ([part] + rest)[1..] == rest;
      if Included(readers[i], globalIndex, f) {
        assert parts + ([part] + Chosen(rest, f)) == (parts + [part]) + Chosen(rest, f);
        parts := parts + [part];
      } else {
        assert [] + Chosen(rest, f) == Chosen(rest, f);
      }
      globalIndex := globalIndex + |readers[i].connections|;
    }
    assert readers[|readers|..] == [];
    assert parts + [] == parts;
  }

  function Shift(from: nat): nat -> nat {
    (c: nat) => from + c
  }

  /** What a reader's own cursor delivers under the filter it is given. */
  function LocalRun(p: Part, f: ReadFilter): Run {
    p.reader.run(LocalFilter(p.reader, p.from, f))
  }

  function Own(p: Part, f: ReadFilter): Timed<Message> -> bool {
    Passing(p.reader.connections, LocalFilter(p.reader, p.from, f))
  }

  /** `pull`: the local connection pointer becomes a global one. */
  function Lift(parts: seq<Part>): Accept<Message, Message> {
    (i: nat, x: Timed<Message>) =>
      if i < |parts| && x.data.connection < |parts[i].reader.connections| then
        Keep(Message(parts[i].from + x.data.connection, x.data.bytes))
      else Reject
  }

  function LiftedPart(p: Part): seq<Timed<Message>> {
    Renamed(Shift(p.from), p.reader.contents)
  }

  function Lifted(parts: seq<Part>): (xss: seq<seq<Timed<Message>>>)
    ensures |xss| == |parts|
    ensures forall i :: 0 <= i < |parts| ==> xss[i] == LiftedPart(parts[i])
  {
    if parts == [] then [] else [LiftedPart(parts[0])] + Lifted(parts[1..])
  }

  /** `p` describes a reader within the global list `all`. */
  ghost predicate Placed(p: Part, all: seq<Connection>) {
    && WellBehaved(p.reader)
    && p.from + |p.reader.connections| <= |all|
    && forall c :: 0 <= c < |p.reader.connections| ==> PlacedAt(p.reader.connections, p.from, all, c)
  }

  ghost predicate PlacedAt(local: seq<Connection>, from: nat, all: seq<Connection>, c: nat)
    requires c < |local| && from + |local| <= |all|
  {
    all[from + c] == Connection(GlobalId(from + c), local[c].topic)
  }

  ghost predicate AllPlaced(parts: seq<Part>, all: seq<Connection>) {
    forall i :: 0 <= i < |parts| ==> Placed(parts[i], all)
  }

  /** A reader's own connection passes the local filter exactly when its global copy passes the global one. */
  lemma {:induction false} LocalIsGlobal(p: Part, all: seq<Connection>, f: ReadFilter, c: nat)
    requires Placed(p, all) && c < |p.reader.connections| && Included(p.reader, p.from, f)
    ensures HasTopic(p.reader.connections[c], LocalFilter(p.reader, p.from, f)) == HasTopic(all[p.from + c], f)
  {
    LocalIdIffGlobal(p.reader.connections, p.from, f.ids, c);
    assert PlacedAt(p.reader.connections, p.from, all, c);
  }

  lemma {:induction false} PartAgrees(parts: seq<Part>, i: nat, all: seq<Connection>, f: ReadFilter, x: Timed<Message>)
    requires i < |parts| && Placed(parts[i], all) && Included(parts[i].reader, parts[i].from, f)
    requires x.data.connection < |parts[i].reader.connections|
    ensures Agrees(Lift(parts), i, Own(parts[i], f), Passing(all, f), Shift(parts[i].from), x)
  {
    OwnIsGlobal(parts[i], all, f, x);
    LiftRenames(parts, i, x);
  }

  lemma {:induction false} OwnIsGlobal(p: Part, all: seq<Connection>, f: ReadFilter, x: Timed<Message>)
    requires Placed(p, all) && Included(p.reader, p.from, f) && x.data.connection < |p.reader.connections|
    ensures Own(p, f)(x) == Passing(all, f)(Rename(Shift(p.from), x))
  {
    LocalIsGlobal(p, all, f, x.data.connection);
  }

  lemma {:induction false} LiftRenames(parts: seq<Part>, i: nat, x: Timed<Message>)
    requires i < |parts| && x.data.connection < |parts[i].reader.connections|
    ensures Lift(parts)(i, x) == Keep(Rename(Shift(parts[i].from), x).data)
  {
  }

  lemma {:induction false} SkippedFails(p: Part, all: seq<Connection>, f: ReadFilter, x: Timed<Message>)
    requires Placed(p, all) && !Included(p.reader, p.from, f) && x.data.connection < |p.reader.connections|
    ensures !Passes(all, f, Rename(Shift(p.from), x))
  {
    LocalIdIffGlobal(p.reader.connections, p.from, f.ids, x.data.connection);
    assert PlacedAt(p.reader.connections, p.from, all, x.data.connection);
  }

  /** A reader without a cursor has nothing that passes. */
  lemma {:induction false} SkippedHasNothing(p: Part, all: seq<Connection>, f: ReadFilter,
      contents: seq<Timed<Message>>)
    requires Placed(p, all) && !Included(p.reader, p.from, f)
    requires forall x :: x in contents ==> x.data.connection < |p.reader.connections|
    ensures Filter(Passing(all, f), Renamed(Shift(p.from), contents)) == []
    decreases |contents|
  {
    if contents != [] {
      var x, rest := contents[0], contents[1..];
      assert x in contents && forall y :: y in rest ==> y in contents;
      SkippedHasNothing(p, all, f, rest);
      SkippedFails(p, all, f, x);
      assert Renamed(Shift(p.from), contents)[1..] == Renamed(Shift(p.from), rest);
    }
  }

  lemma {:induction false} ChosenAre(parts: seq<Part>, f: ReadFilter, p: Part)
    ensures p in Chosen(parts, f) <==> p in parts && Included(p.reader, p.from, f)
  {
    if parts != [] {
      ChosenAre(parts[1..], f, p);
      assert parts == [parts[0]] + parts[1..];
    }
  }

  /** Skipping readers without a requested id leaves the filtered whole, ties included, as it was. */
  lemma {:induction false} ChosenIsEnough(parts: seq<Part>, all: seq<Connection>, f: ReadFilter)
    requires AllPlaced(parts, all)
    ensures Filter(Passing(all, f), Flatten(Lifted(Chosen(parts, f))))
         == Filter(Passing(all, f), Flatten(Lifted(parts)))
    decreases |parts|
  {
    if parts != [] {
      var p, rest, chosen := parts[0], parts[1..], Chosen(parts[1..], f);
      ChosenIsEnough(rest, all, f);
      assert Lifted(parts)[1..] == Lifted(rest);
      FilterConcat(Passing(all, f), LiftedPart(p), Flatten(Lifted(rest)));
      if Included(p.reader, p.from, f) {
        assert ([p] + chosen)[0] == p && ([p] + chosen)[1..] == chosen;
        assert Lifted([p] + chosen)[1..] == Lifted(chosen);
        FilterConcat(Passing(all, f), LiftedPart(p), Flatten(Lifted(chosen)));
      } else {
        SkippedHasNothing(p, all, f, p.reader.contents);
        assert [] + chosen == chosen;
      }
    }
  }

  lemma {:induction false} PartsArePlaced(readers: seq<Reader>, before: seq<Connection>)
    requires forall k :: 0 <= k < |readers| ==> WellBehaved(readers[k])
    ensures AllPlaced(Parts(readers, |before|), before + Renumbered(readers, |before|))
    decreases |readers|
  {
    if readers != [] {
      var first := Numbered(readers[0].connections, |before|);
      var rest := Renumbered(readers[1..], |before| + |first|);
      assert before + (first + rest) == (before + first) + rest;
      PartsArePlaced(readers[1..], before + first);
      FirstIsPlaced(readers[0], before, rest);
    }
  }

  lemma {:induction false} FirstIsPlaced(r: Reader, before: seq<Connection>, rest: seq<Connection>)
    requires WellBehaved(r)
    ensures Placed(Part(r, |before|), (before + Numbered(r.connections, |before|)) + rest)
  {
    var from, first := |before|, Numbered(r.connections, |before|);
    forall c | 0 <= c < |r.connections|
      ensures PlacedAt(r.connections, from, (before + first) + rest, c)
    {
      NumberedAt(r.connections, from, c);
      Middle(before, first, rest, c);
    }
  }

  lemma {:induction false} Middle<T>(before: seq<T>, middle: seq<T>, rest: seq<T>, c: nat)
    requires c < |middle|
    ensures ((before + middle) + rest)[|before| + c] == middle[c]
  {
  }

  /** Everything all readers hold, in reader order, under global connections. */
  function Everything(readers: seq<Reader>): seq<Timed<Message>> {
    Flatten(Lifted(Parts(readers, 0)))
  }

  /** What passes of each chosen reader's run, under global connections. */
  function Shares(parts: seq<Part>, all: seq<Connection>, f: ReadFilter): (yss: seq<seq<Timed<Message>>>)
    ensures |yss| == |parts|
    ensures forall i :: 0 <= i < |parts| ==>
      yss[i] == Share(Passing(all, f), Shift(parts[i].from), LocalRun(parts[i], f).items)
  {
    seq(|parts|, i requires 0 <= i < |parts| =>
      Share(Passing(all, f), Shift(parts[i].from), LocalRun(parts[i], f).items))
  }

  function Broken(parts: seq<Part>, f: ReadFilter): (bad: seq<bool>)
    ensures |bad| == |parts|
    ensures forall i :: 0 <= i < |parts| ==> bad[i] == LocalRun(parts[i], f).fails
  {
    seq(|parts|, i requires 0 <= i < |parts| => LocalRun(parts[i], f).fails)
  }

  /** The run of all readers: the merge of the chosen readers' runs up to the first failure among them. */
  function RunOf(readers: seq<Reader>, f: ReadFilter): Run {
    var parts, all := Chosen(Parts(readers, 0), f), Renumbered(readers, 0);
    Run(UpToFailure(Shares(parts, all, f), Broken(parts, f)), true in Broken(parts, f))
  }

  /** Every chosen part delivers, through its own filter and `pull`, its filtered share of the whole. */
  lemma {:induction false} PartContributes(readers: seq<Reader>, f: ReadFilter, parts: seq<Part>,
      all: seq<Connection>, i: nat)
    requires forall k :: 0 <= k < |readers| ==> WellBehaved(readers[k])
    requires parts == Chosen(Parts(readers, 0), f) && all == Renumbered(readers, 0) && i < |parts|
    ensures var run := LocalRun(parts[i], f);
            && Accepted(Lift(parts), i, run.items) == Shares(parts, all, f)[i]
            && (Clean(Lift(parts), i, run.items, run.fails) <==> !run.fails)
    ensures var whole := Filter(Passing(all, f), Lifted(parts)[i]);
            && Sorted(Lifted(parts)[i]) && Shares(parts, all, f)[i] <= whole
            && (!Broken(parts, f)[i] ==> Shares(parts, all, f)[i] == whole)
  {
    var p := parts[i];
    PartsArePlaced(readers, []);
    assert [] + all == all;
    ChosenAre(Parts(readers, 0), f, p);
    assert Placed(p, all);
    MapSorted(Renaming(Shift(p.from)), p.reader.contents);
    forall x | x in p.reader.contents
      ensures Agrees(Lift(parts), i, Own(p, f), Passing(all, f), Shift(p.from), x)
    {
      PartAgrees(parts, i, all, f, x);
    }
    var local := LocalFilter(p.reader, p.from, f);
    assert Honest(p.reader.connections, p.reader.contents, local, p.reader.run(local));
    Contributes(Lift(parts), i, Own(p, f), Passing(all, f), Shift(p.from), p.reader.contents, LocalRun(p, f));
  }

  lemma {:induction false} ChildrenContribute(readers: seq<Reader>, f: ReadFilter, parts: seq<Part>,
      sources: seq<Source<Message, Message>>)
    requires forall k :: 0 <= k < |readers| ==> WellBehaved(readers[k])
    requires parts == Chosen(Parts(readers, 0), f) && |sources| == |parts|
    requires forall i :: 0 <= i < |sources| ==>
      var run := LocalRun(parts[i], f);
      sources[i] == Source(Child(run.items, run.fails, false), None)
    ensures StreamsOf(Lift(parts), sources) == Shares(parts, Renumbered(readers, 0), f)
    ensures Failing(Lift(parts), sources) == Broken(parts, f)
  {
    forall i | 0 <= i < |sources|
      ensures StreamsOf(Lift(parts), sources)[i] == Shares(parts, Renumbered(readers, 0), f)[i]
      ensures Failing(Lift(parts), sources)[i] == Broken(parts, f)[i]
    {
      PartContributes(readers, f, parts, Renumbered(readers, 0), i);
    }
  }

  /** Pulling a head from every source and then everything else. */
  method DrainAll(cursor: MergeCursor<Message, Message>) returns (out: seq<Timed<Message>>, ok: bool)
    requires cursor.heap == [] && cursor.pending == None
    requires forall i :: 0 <= i < |cursor.sources| ==>
      cursor.sources[i].head.None? && !cursor.sources[i].child.ended
    modifies cursor
    ensures out == old(Ahead(cursor.accept, cursor.sources))
    ensures ok <==> true !in old(Failing(cursor.accept, cursor.sources))
  {
    out := [];
    ok := cursor.Start();
    if ok {
      out, ok := cursor.Drain();
    } else {
      assert true in old(Failing(cursor.accept, cursor.sources));
    }
  }

  /** The run of all readers is that of one: what they hold sorted and filtered, cut short only by a failure. */
  lemma {:induction false} RunIsHonest(readers: seq<Reader>, f: ReadFilter)
    requires forall k :: 0 <= k < |readers| ==> WellBehaved(readers[k])
    ensures Honest(Renumbered(readers, 0), StableSort(Everything(readers)), f, RunOf(readers, f))
  {
    var parts, all := Chosen(Parts(readers, 0), f), Renumbered(readers, 0);
    var pass := Passing(all, f);
    forall i | 0 <= i < |parts|
      ensures Sorted(Lifted(parts)[i]) && Shares(parts, all, f)[i] <= Filter(pass, Lifted(parts)[i])
      ensures !Broken(parts, f)[i] ==> Shares(parts, all, f)[i] == Filter(pass, Lifted(parts)[i])
    {
      PartContributes(readers, f, parts, all, i);
    }
    MergeOfRuns(pass, Lifted(parts), Shares(parts, all, f), Broken(parts, f));
    PartsArePlaced(readers, []);
    assert [] + all == all;
    ChosenIsEnough(Parts(readers, 0), all, f);
    FilterThenSort(pass, Flatten(Lifted(parts)));
    FilterThenSort(pass, Everything(readers));
  }

  /**
   Reading several readers delivers what they hold stably sorted by timestamp, ties in reader order,
   restricted to the connections whose global id, topic and time were asked for: exactly once each.
   If a reader that was asked fails, everything before its last message has been delivered.
   */
  method ReadAll(readers: seq<Reader>, f: ReadFilter) returns (out: seq<Timed<Message>>, ok: bool)
    requires forall k :: 0 <= k < |readers| ==> WellBehaved(readers[k])
    ensures Run(out, !ok) == RunOf(readers, f)
    ensures ok ==> out == Filter(Passing(Renumbered(readers, 0), f), StableSort(Everything(readers)))
    ensures !ok ==> out <= Filter(Passing(Renumbered(readers, 0), f), StableSort(Everything(readers)))
  {
    RunIsHonest(readers, f);
    var parts := ChooseSources(readers, f);
    var children := seq(|parts|, i requires 0 <= i < |parts| =>
      var run := LocalRun(parts[i], f);
      Child(run.items, run.fails, false));
    var cursor := new MergeCursor(Lift(parts), children);
    ChildrenContribute(readers, f, parts, cursor.sources);
    out, ok := DrainAll(cursor);
  }
}
