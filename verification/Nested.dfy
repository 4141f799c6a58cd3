/** `AnyReader` over directories of files: two delayed merges, one inside the other, are one stable sort. */
module Nested {
  import opened StableOrder
  import opened KWayMerge
  import opened Filters
  import opened AnyReader
  import Directory

  /** A directory as a reader: what it holds in order, and what `ReadDirectory` delivers of it. */
  function ReaderOf(bag: Directory.Bag): Reader {
    Reader(bag.connections, StableSort(Directory.Held(bag)), f => Directory.RunOf(bag, f))
  }

  function ReadersOf(bags: seq<Directory.Bag>): (readers: seq<Reader>)
    ensures |readers| == |bags| && forall k :: 0 <= k < |bags| ==> readers[k] == ReaderOf(bags[k])
  {
    if bags == [] then [] else [ReaderOf(bags[0])] + ReadersOf(bags[1..])
  }

  /** The global position of the first connection of directory `b`. */
  function Start(bags: seq<Directory.Bag>, b: nat): nat
    requires b <= |bags|
  {
    if b == 0 then 0 else Start(bags, b - 1) + |bags[b - 1].connections|
  }

  /** Every file's messages under global connections: reader by reader, file by file, in file order. */
  function Leaves(bags: seq<Directory.Bag>): seq<Timed<Message>> {
    Flatten(LeavesOf(bags))
  }

  function LeavesOf(bags: seq<Directory.Bag>): (xss: seq<seq<Timed<Message>>>)
    ensures |xss| == |bags|
    ensures forall k :: 0 <= k < |bags| ==> xss[k] == Renamed(Shift(Start(bags, k)), Directory.Held(bags[k]))
  {
    seq(|bags|, k requires 0 <= k < |bags| => Renamed(Shift(Start(bags, k)), Directory.Held(bags[k])))
  }

  lemma {:induction false} RenamedMember(g: nat -> nat, xs: seq<Timed<Message>>, y: Timed<Message>)
      returns (x: Timed<Message>)
    requires y in Renamed(g, xs)
    ensures x in xs && y == Rename(g, x)
  {
    var i :| 0 <= i < |xs| && Renamed(g, xs)[i] == y;
    x := xs[i];
  }

  lemma {:induction false} BagIsWellBehaved(bag: Directory.Bag)
    requires Directory.Opened(bag) && DistinctIds(bag.connections)
    ensures WellBehaved(ReaderOf(bag))
  {
    var held := Directory.Held(bag);
    StableSortIsStable(held);
    forall y | y in StableSort(held)
      ensures y.data.connection < |bag.connections|
    {
      SameTiesMember(StableSort(held), held, y);
      HeldIsKnown(bag, y);
    }
    forall f
      ensures Honest(bag.connections, StableSort(held), f, Directory.RunOf(bag, f))
    {
      Directory.RunIsHonest(bag, f);
    }
  }

  lemma {:induction false} HeldIsKnown(bag: Directory.Bag, y: Timed<Message>)
    requires Directory.Opened(bag) && y in Directory.Held(bag)
    ensures y.data.connection < |bag.connections|
  {
    var all := Flatten(Directory.Contents(bag));
    var i :| 0 <= i < |all| && Directory.Held(bag)[i] == y;
    FlattenMember(Directory.Contents(bag), all[i]);
    var k :| 0 <= k < |bag.files| && all[i] in Directory.Contents(bag)[k];
    FileIsKnown(bag, k, all[i]);
  }

  lemma {:induction false} FileIsKnown(bag: Directory.Bag, k: nat, z: Timed<Message>)
    requires k < |bag.files| && Directory.Mapped(bag, bag.files[k]) && Directory.Ordered(bag.files[k])
    requires z in Directory.Contents(bag)[k]
    ensures z.data.connection < |bag.connections|
  {
    var x := RenamedMember(Directory.PlaceOf(bag.files[k]), bag.files[k].stored, z);
  }

  lemma {:induction false} SortedTies(g: nat -> nat, xs: seq<Timed<Message>>, t: nat)
    ensures AtTime(Renamed(g, StableSort(xs)), t) == AtTime(Renamed(g, xs), t)
  {
    StableSortIsStable(xs);
    MapTies(Renaming(g), StableSort(xs), t);
    MapTies(Renaming(g), xs, t);
    assert AtTime(StableSort(xs), t) == AtTime(xs, t);
  }

  /** `Start` over readers. */
  function FromOf(readers: seq<Reader>, b: nat): nat
    requires b <= |readers|
  {
    if b == 0 then 0 else FromOf(readers, b - 1) + |readers[b - 1].connections|
  }

  lemma {:induction false} FromTail(readers: seq<Reader>, rest: seq<Reader>, b: nat)
    requires readers != [] && rest == readers[1..] && b <= |rest|
    ensures FromOf(readers, b + 1) == |readers[0].connections| + FromOf(rest, b)
  {
    if b > 0 {
      FromTail(readers, rest, b - 1);
    }
  }

  lemma {:induction false} FromIsStart(bags: seq<Directory.Bag>, readers: seq<Reader>, b: nat)
    requires |readers| == |bags| && b <= |bags|
    requires forall k :: 0 <= k < |bags| ==> readers[k].connections == bags[k].connections
    ensures FromOf(readers, b) == Start(bags, b)
  {
    if b > 0 {
      FromIsStart(bags, readers, b - 1);
    }
  }

  lemma {:induction false} PartsAt(readers: seq<Reader>, from: nat, b: nat)
    requires b < |readers|
    ensures Parts(readers, from)[b].reader == readers[b]
    ensures Parts(readers, from)[b].from == from + FromOf(readers, b)
    decreases |readers|
  {
    var rest := from + |readers[0].connections|;
    if b > 0 {
      PartsAt(readers[1..], rest, b - 1);
      FromTail(readers, readers[1..], b - 1);
    }
  }

  lemma {:induction false} LiftedBag(bags: seq<Directory.Bag>, k: nat)
    requires k < |bags|
    ensures Lifted(Parts(ReadersOf(bags), 0))[k]
         == Renamed(Shift(Start(bags, k)), StableSort(Directory.Held(bags[k])))
  {
    PartsAt(ReadersOf(bags), 0, k);
    FromIsStart(bags, ReadersOf(bags), k);
  }

  lemma {:induction false} LeavesTies(bags: seq<Directory.Bag>, t: nat)
    ensures AtTime(Everything(ReadersOf(bags)), t) == AtTime(Leaves(bags), t)
  {
    forall k | 0 <= k < |bags|
      ensures AtTime(Lifted(Parts(ReadersOf(bags), 0))[k], t) == AtTime(LeavesOf(bags)[k], t)
    {
      LiftedBag(bags, k);
      SortedTies(Shift(Start(bags, k)), Directory.Held(bags[k]), t);
    }
    FlattenTies(Lifted(Parts(ReadersOf(bags), 0)), LeavesOf(bags), t);
  }

  /** Sorting what the sorted directories hold is sorting what their files hold. */
  lemma {:induction false} NestedIsFlat(bags: seq<Directory.Bag>)
    ensures StableSort(Everything(ReadersOf(bags))) == StableSort(Leaves(bags))
  {
    var all, sorted := Everything(ReadersOf(bags)), StableSort(Everything(ReadersOf(bags)));
    StableSortIsStable(all);
    forall t
      ensures AtTime(sorted, t) == AtTime(Leaves(bags), t)
    {
      assert AtTime(sorted, t) == AtTime(all, t);
      LeavesTies(bags, t);
    }
    IsTheStableSort(sorted, Leaves(bags));
  }

  /** A message of file `k` of directory `b`, decoded as that directory decodes, under its global connection. */
  ghost predicate StemsFrom(bags: seq<Directory.Bag>, b: nat, k: nat, x: Timed<Message>, m: Timed<Message>) {
    && b < |bags| && m.data.connection >= Start(bags, b)
    && Directory.Stems(bags[b], k, x, Timed(m.time, Message(m.data.connection - Start(bags, b), m.data.bytes)))
  }

  lemma {:induction false} PartIsBag(bags: seq<Directory.Bag>, f: ReadFilter, p: Part) returns (b: nat)
    requires p in Chosen(Parts(ReadersOf(bags), 0), f)
    ensures b < |bags| && p.from == Start(bags, b)
    ensures LocalRun(p, f) == Directory.RunOf(bags[b], LocalFilter(p.reader, p.from, f))
  {
    var parts := Parts(ReadersOf(bags), 0);
    ChosenAre(parts, f, p);
    b :| 0 <= b < |parts| && parts[b] == p;
    PartsAt(ReadersOf(bags), 0, b);
    FromIsStart(bags, ReadersOf(bags), b);
    RunOfReader(bags, b, LocalFilter(p.reader, p.from, f));
  }

  lemma {:induction false} RunOfReader(bags: seq<Directory.Bag>, b: nat, f: ReadFilter)
    requires b < |bags|
    ensures ReadersOf(bags)[b].run(f) == Directory.RunOf(bags[b], f)
  {
  }

  /** What a part shares is what its run delivered, under global connections. */
  lemma {:induction false} ShareComesFrom(parts: seq<Part>, all: seq<Connection>, f: ReadFilter, i: nat,
      m: Timed<Message>) returns (j: nat)
    requires i < |parts| && m in Shares(parts, all, f)[i]
    ensures j < |LocalRun(parts[i], f).items| && m == Rename(Shift(parts[i].from), LocalRun(parts[i], f).items[j])
  {
    var items := LocalRun(parts[i], f).items;
    FilterMember(Passing(all, f), Renamed(Shift(parts[i].from), items), m);
    var y := RenamedMember(Shift(parts[i].from), items, m);
    j :| 0 <= j < |items| && items[j] == y;
  }

  lemma {:induction false} ItemStems(bags: seq<Directory.Bag>, b: nat, f: ReadFilter, j: nat)
      returns (k: nat, x: Timed<Message>)
    requires b < |bags| && Directory.Opened(bags[b]) && j < |Directory.RunOf(bags[b], f).items|
    ensures StemsFrom(bags, b, k, x, Rename(Shift(Start(bags, b)), Directory.RunOf(bags[b], f).items[j]))
  {
    k, x := Directory.DeliveredStems(bags[b], f, j);
    StemsUnder(bags, b, k, x, Directory.RunOf(bags[b], f).items[j]);
  }

  lemma {:induction false} StemsUnder(bags: seq<Directory.Bag>, b: nat, k: nat, x: Timed<Message>, m: Timed<Message>)
    requires b < |bags| && Directory.Stems(bags[b], k, x, m)
    ensures StemsFrom(bags, b, k, x, Rename(Shift(Start(bags, b)), m))
  {
  }

  /** Whatever is delivered is a message stored in some file of some directory, decoded. */
  lemma {:induction false} DeliveredStems(bags: seq<Directory.Bag>, f: ReadFilter, m: Timed<Message>)
    requires forall k :: 0 <= k < |bags| ==> Directory.Opened(bags[k])
    requires m in RunOf(ReadersOf(bags), f).items
    ensures exists b, k, x :: StemsFrom(bags, b, k, x, m)
  {
    var parts, all := Chosen(Parts(ReadersOf(bags), 0), f), Renumbered(ReadersOf(bags), 0);
    Directory.MergedComesFrom(Shares(parts, all, f), Broken(parts, f), m);
    var i :| 0 <= i < |parts| && m in Shares(parts, all, f)[i];
    PartStems(bags, f, parts, all, i, m);
  }

  lemma {:induction false} PartStems(bags: seq<Directory.Bag>, f: ReadFilter, parts: seq<Part>,
      all: seq<Connection>, i: nat, m: Timed<Message>)
    requires forall k :: 0 <= k < |bags| ==> Directory.Opened(bags[k])
    requires i < |parts| && parts[i] in Chosen(Parts(ReadersOf(bags), 0), f) && m in Shares(parts, all, f)[i]
    ensures exists b, k, x :: StemsFrom(bags, b, k, x, m)
  {
    var b := PartIsBag(bags, f, parts[i]);
    var j := ShareComesFrom(parts, all, f, i, m);
    var k, x := ItemStems(bags, b, LocalFilter(parts[i].reader, parts[i].from, f), j);
    assert StemsFrom(bags, b, k, x, m);
  }

  /** The inner merge under the filter it is handed delivers just what the outer merge counts on, failures included. */
  method ReadInner(bag: Directory.Bag, from: nat, f: ReadFilter) returns (out: seq<Timed<Message>>, ok: bool)
    requires Directory.Opened(bag)
    ensures Run(out, !ok) == LocalRun(Part(ReaderOf(bag), from), f)
    ensures Honest(bag.connections, ReaderOf(bag).contents, LocalFilter(ReaderOf(bag), from, f), Run(out, !ok))
  {
    out, ok := Directory.ReadDirectory(bag, LocalFilter(ReaderOf(bag), from, f));
  }

  /**
   Reading several directories delivers the messages of all their files ordered by timestamp, then
   reader, then file, then position in the file, restricted by topic, global id and time.  A failure
   cuts the run of its directory after the failing file's last message, and that cuts the whole
   after the directory's last.
   */
  method ReadDirectories(bags: seq<Directory.Bag>, f: ReadFilter) returns (out: seq<Timed<Message>>, ok: bool)
    requires forall k :: 0 <= k < |bags| ==> Directory.Opened(bags[k]) && DistinctIds(bags[k].connections)
    ensures Run(out, !ok) == RunOf(ReadersOf(bags), f)
    ensures forall m :: m in out ==> exists b, k, x :: StemsFrom(bags, b, k, x, m)
    ensures ok ==> out == Filter(Passing(Renumbered(ReadersOf(bags), 0), f), StableSort(Leaves(bags)))
    ensures !ok ==> out <= Filter(Passing(Renumbered(ReadersOf(bags), 0), f), StableSort(Leaves(bags)))
  {
    forall k | 0 <= k < |bags|
      ensures WellBehaved(ReadersOf(bags)[k])
    {
      BagIsWellBehaved(bags[k]);
    }
    NestedIsFlat(bags);
    forall m | m in RunOf(ReadersOf(bags), f).items
      ensures exists b, k, x :: StemsFrom(bags, b, k, x, m)
    {
      DeliveredStems(bags, f, m);
    }
    out, ok := ReadAll(ReadersOf(bags), f);
  }
}
