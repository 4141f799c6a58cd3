/** Connections, messages and read filters, and the one restriction every backend applies. */
module Filters {
  import opened Wrappers
  import opened Bytes
  import opened StableOrder
  import Topics

  datatype Connection = Connection(id: nat, topic: string)

  /** A message names its connection by position in its reader's connection list. */
  datatype Message = Message(connection: nat, bytes: seq<byte>)

  datatype ReadFilter = ReadFilter(topics: seq<string>, ids: seq<nat>, start: Option<nat>, stop: Option<nat>,
                                   policy: Topics.Policy, space: string)

  /** What `Reader::messages` insists on before it makes any cursor. */
  predicate Usable(f: ReadFilter) {
    f.policy.ResolveNamespace? ==> Topics.Absolute(f.space)
  }

  /** Ids are unique within a reader; every backend refuses or cannot form duplicates. */
  ghost predicate DistinctIds(connections: seq<Connection>) {
    forall j, k :: 0 <= j < k < |connections| ==> connections[j].id != connections[k].id
  }

  predicate Names(f: ReadFilter, topic: string) {
    f.topics == []
    || exists t :: t in f.topics && Topics.Key(t, f.policy, f.space) == Topics.Key(topic, f.policy, f.space)
  }

  predicate HasTopic(c: Connection, f: ReadFilter) {
    Names(f, c.topic) && (f.ids == [] || c.id in f.ids)
  }

  predicate InTime(time: nat, f: ReadFilter) {
    (f.start.Some? ==> f.start.value <= time) && (f.stop.Some? ==> time < f.stop.value)
  }

  predicate Passes(connections: seq<Connection>, f: ReadFilter, x: Timed<Message>) {
    x.data.connection < |connections| && HasTopic(connections[x.data.connection], f) && InTime(x.time, f)
  }

  function Passing(connections: seq<Connection>, f: ReadFilter): Timed<Message> -> bool {
    x => Passes(connections, f, x)
  }

  /** `has_topic`: a search through the topics, then a search through the ids. */
  method CheckTopic(c: Connection, f: ReadFilter) returns (r: bool)
    requires Usable(f)
    ensures r == HasTopic(c, f) == Asked(c, f)
  {
    AskedHasTopic(c, f);
    if f.topics != [] {
      var found := false;
      for i := 0 to |f.topics|
        invariant !found
        invariant forall j :: 0 <= j < i ==>
          Topics.Key(f.topics[j], f.policy, f.space) != Topics.Key(c.topic, f.policy, f.space)
      {
        var m := Topics.TopicsMatch(f.topics[i], c.topic, f.policy, f.space);
        if m == Topics.Matched(true) {
          found := true;
          break;
        }
      }
      if !found {
        return false;
      }
    }
    r := f.ids == [] || c.id in f.ids;
  }

  // ----- what passing means -----

  /** Some asked-for topic agrees, if any is asked for, and so does the id. */
  predicate Asked(c: Connection, f: ReadFilter) {
    && (|f.topics| > 0 ==> exists t :: t in f.topics && Topics.Agree(t, c.topic, f.policy, f.space))
    && (|f.ids| > 0 ==> c.id in f.ids)
  }

  lemma {:induction false} AskedHasTopic(c: Connection, f: ReadFilter)
    ensures HasTopic(c, f) <==> Asked(c, f)
  {
    forall t | t in f.topics
      ensures Topics.Key(t, f.policy, f.space) == Topics.Key(c.topic, f.policy, f.space)
         <==> Topics.Agree(t, c.topic, f.policy, f.space)
    {
      Topics.KeysAgree(t, c.topic, f.policy, f.space);
    }
  }

  /**
   What every reading delivers in the end: the messages of `xs` on a connection that is asked for and
   from the start time on but before the stop time, each once, by timestamp and then by place in `xs`.
   */
  lemma {:induction false} DeliveredPlaces(connections: seq<Connection>, f: ReadFilter, xs: seq<Timed<Message>>)
      returns (places: seq<nat>)
    ensures var out := Filter(Passing(connections, f), StableSort(xs));
            && |places| == |out|
            && (forall k :: 0 <= k < |out| ==> places[k] < |xs| && out[k] == xs[places[k]])
            && (forall j, k :: 0 <= j < k < |out| ==>
                  out[j].time < out[k].time || (out[j].time == out[k].time && places[j] < places[k]))
    ensures forall n :: 0 <= n < |xs| ==>
      (n in places
       <==>
       && xs[n].data.connection < |connections| && Asked(connections[xs[n].data.connection], f)
       && (f.start.Some? ==> xs[n].time >= f.start.value) && (f.stop.Some? ==> xs[n].time < f.stop.value))
  {
    places := FilteredSortPlaces(Passing(connections, f), xs);
    forall n | 0 <= n < |xs| && xs[n].data.connection < |connections|
      ensures HasTopic(connections[xs[n].data.connection], f) <==> Asked(connections[xs[n].data.connection], f)
    {
      AskedHasTopic(connections[xs[n].data.connection], f);
    }
  }

  // ----- what a cursor delivers -----

  /** What a cursor delivers, and whether it then fails rather than ends. */
  datatype Run = Run(items: seq<Timed<Message>>, fails: bool)

  /** A run under `f` over these contents: the filtered contents, cut short only by a failure. */
  ghost predicate Honest(connections: seq<Connection>, contents: seq<Timed<Message>>, f: ReadFilter, run: Run) {
    && run.items <= Filter(Passing(connections, f), contents)
    && (!run.fails ==> run.items == Filter(Passing(connections, f), contents))
  }

  /** The messages with what `g` makes of them, up to the first it refuses. */
  function MapWhile(g: Message -> Option<Message>, xs: seq<Timed<Message>>): (ys: seq<Timed<Message>>)
    ensures |ys| <= |xs|
    ensures forall k :: 0 <= k < |ys| ==> g(xs[k].data) == Some(ys[k].data) && xs[k].time == ys[k].time
    ensures |ys| < |xs| ==> g(xs[|ys|].data).None?
  {
    if xs == [] then []
    else
      match g(xs[0].data)
      case None => []
      case Some(m) => [Timed(xs[0].time, m)] + MapWhile(g, xs[1..])
  }

  /** `g` where it succeeds, and the message itself where it refuses. */
  function OrSame(g: Message -> Option<Message>): Message -> Message {
    (m: Message) => match g(m) case None => m case Some(n) => n
  }

  lemma {:induction false} MapWhileFront(g: Message -> Option<Message>, x: Timed<Message>,
      rest: seq<Timed<Message>>)
    ensures MapWhile(g, [x] + rest)
         == match g(x.data) case None => [] case Some(m) => [Timed(x.time, m)] + MapWhile(g, rest)
  {
    assert ([x] + rest)[1..] == rest;
  }

  lemma {:induction false} MapWhileIsPrefix(g: Message -> Option<Message>, a: seq<Timed<Message>>,
      b: seq<Timed<Message>>)
    requires a <= b
    ensures MapWhile(g, a) <= Map(OrSame(g), b)
    ensures |MapWhile(g, a)| == |a| == |b| ==> MapWhile(g, a) == Map(OrSame(g), b)
  {
  }

  lemma {:induction false} FilterOfMapped(p: Timed<Message> -> bool, g: Message -> Message,
      xs: seq<Timed<Message>>)
    requires forall x :: x in xs ==> p(MapItem(g, x)) == p(x)
    ensures Filter(p, Map(g, xs)) == Map(g, Filter(p, xs))
  {
    if xs != [] {
      var x, rest := xs[0], xs[1..];
      assert x in xs && forall y :: y in rest ==> y in xs;
      FilterOfMapped(p, g, rest);
      assert Map(g, xs) == [MapItem(g, x)] + Map(g, rest);
      assert ([x] + Filter(p, rest))[1..] == Filter(p, rest);
      assert Map(g, [x] + Filter(p, rest)) == [MapItem(g, x)] + Map(g, Filter(p, rest));
    }
  }

  // ----- renaming connections -----

  function Renaming(g: nat -> nat): Message -> Message {
    (m: Message) => m.(connection := g(m.connection))
  }

  function Rename(g: nat -> nat, x: Timed<Message>): Timed<Message> {
    MapItem(Renaming(g), x)
  }

  function Renamed(g: nat -> nat, xs: seq<Timed<Message>>): seq<Timed<Message>> {
    Map(Renaming(g), xs)
  }
}
