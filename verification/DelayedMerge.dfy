/**
 The lazy merge cursor that `AnyReaderCursorImpl` and `DirectoryBackend::Cursor` share: one head per
 source, a priority queue over the heads, and a refill that waits until the next call.  What a source's
 message means to the merge (kept, filtered out, or from an unknown connection) is a parameter.
 */
module DelayedMerge {
  import opened Wrappers
  import opened StableOrder
  import opened KWayMerge
  import opened FailingMerge

  datatype Verdict<B> = Keep(b: B) | Skip | Reject

  /** A child cursor: what it still has to deliver, whether it then fails, and whether it has reported its end. */
  datatype Child<A> = Child(items: seq<Timed<A>>, fails: bool, ended: bool)

  datatype Source<A, B> = Source(child: Child<A>, head: Option<Timed<B>>)
  datatype HeapItem = HeapItem(timestamp: nat, source: nat)
  datatype Next<B> = Item(x: Timed<B>) | End | Failed

  type Accept<!A, !B> = (nat, Timed<A>) -> Verdict<B>

  /** The messages of source `i` that the merge will deliver, up to the first it refuses. */
  function Accepted<A, B>(accept: Accept<A, B>, i: nat, items: seq<Timed<A>>): seq<Timed<B>> {
    if items == [] then []
    else
      match accept(i, items[0])
      case Keep(b) => [Timed(items[0].time, b)] + Accepted(accept, i, items[1..])
      case Skip => Accepted(accept, i, items[1..])
      case Reject => []
  }

  /** Source `i` neither fails nor delivers a message of an unknown connection. */
  predicate Clean<A, B>(accept: Accept<A, B>, i: nat, items: seq<Timed<A>>, fails: bool) {
    if items == [] then !fails
    else !accept(i, items[0]).Reject? && Clean(accept, i, items[1..], fails)
  }

  function StreamOf<A, B>(accept: Accept<A, B>, i: nat, source: Source<A, B>): seq<Timed<B>> {
    (match source.head case None => [] case Some(x) => [x]) + Accepted(accept, i, source.child.items)
  }

  function StreamsOf<A, B>(accept: Accept<A, B>, sources: seq<Source<A, B>>): (xss: seq<seq<Timed<B>>>)
    ensures |xss| == |sources|
    ensures forall i :: 0 <= i < |sources| ==> xss[i] == StreamOf(accept, i, sources[i])
  {
    seq(|sources|, i requires 0 <= i < |sources| => StreamOf(accept, i, sources[i]))
  }

  /** Which sources fail, or deliver a message of an unknown connection, behind their last accepted message. */
  function Failing<A, B>(accept: Accept<A, B>, sources: seq<Source<A, B>>): (bad: seq<bool>)
    ensures |bad| == |sources|
    ensures forall i :: 0 <= i < |sources| ==>
      bad[i] == !Clean(accept, i, sources[i].child.items, sources[i].child.fails)
  {
    seq(|sources|, i requires 0 <= i < |sources| =>
      !Clean(accept, i, sources[i].child.items, sources[i].child.fails))
  }

  /** What the merge will still deliver: everything until a failure is due. */
  function Ahead<A, B(==)>(accept: Accept<A, B>, sources: seq<Source<A, B>>): seq<Timed<B>> {
    UpToFailure(StreamsOf(accept, sources), Failing(accept, sources))
  }

  /** Source `i` fails before it yields another message to keep. */
  ghost predicate Overdue<A, B>(accept: Accept<A, B>, i: nat, source: Source<A, B>) {
    Accepted(accept, i, source.child.items) == [] && !Clean(accept, i, source.child.items, source.child.fails)
  }

  /** The queue holds exactly one item for every source that has a head. */
  ghost predicate HeapMatches<A, B>(sources: seq<Source<A, B>>, heap: seq<HeapItem>) {
    && (forall item :: item in heap ==>
          item.source < |sources| && sources[item.source].head.Some?
          && item.timestamp == sources[item.source].head.value.time)
    && (forall j, k :: 0 <= j < k < |heap| ==> heap[j].source != heap[k].source)
    && (forall i :: 0 <= i < |sources| && sources[i].head.Some? ==>
          HeapItem(sources[i].head.value.time, i) in heap)
  }

  ghost predicate Finished<A>(child: Child<A>) {
    child.ended && child.items == [] && !child.fails
  }

  /** A source that needs no refill. */
  ghost predicate AtRest<A, B>(source: Source<A, B>) {
    if source.head.Some? then !source.child.ended else Finished(source.child)
  }

  /** Every source without a head has reported its end, except the one waiting to be refilled. */
  ghost predicate Settled<A, B>(sources: seq<Source<A, B>>, pending: Option<nat>) {
    && (pending.Some? ==> pending.value < |sources| && sources[pending.value].head.None?
                          && !sources[pending.value].child.ended)
    && forall i :: 0 <= i < |sources| ==>
         if sources[i].head.Some? then !sources[i].child.ended
         else pending != Some(i) ==> Finished(sources[i].child)
  }

  /** The position of the least queue item. */
  function TopIndex(heap: seq<HeapItem>): (k: nat)
    requires heap != []
    ensures k < |heap|
    ensures forall j :: 0 <= j < |heap| ==> Before(heap[k].timestamp, heap[k].source, heap[j].timestamp, heap[j].source)
  {
    if |heap| == 1 then 0
    else
      var last := |heap| - 1;
      var k := TopIndex(heap[..last]);
      if Before(heap[k].timestamp, heap[k].source, heap[last].timestamp, heap[last].source) then k else last
  }

  lemma {:induction false} MergeStep<T>(xss: seq<seq<Timed<T>>>, i: nat)
    requires IsLeast(xss, i)
    ensures Merge(xss) == [xss[i][0]] + Merge(xss[i := xss[i][1..]])
  {
    var r := Least(xss);
    LeastIsUnique(xss, i, r.value);
  }

  lemma {:induction false} MergeNothing<T>(xss: seq<seq<Timed<T>>>)
    requires forall i :: 0 <= i < |xss| ==> xss[i] == []
    ensures Merge(xss) == []
  {
  }

  /** With every refill done, the top of the queue is the least front. */
  lemma {:induction false} TopIsLeast<A, B>(accept: Accept<A, B>, sources: seq<Source<A, B>>, heap: seq<HeapItem>)
    requires HeapMatches(sources, heap) && Settled(sources, None) && heap != []
    ensures IsLeast(StreamsOf(accept, sources), heap[TopIndex(heap)].source)
  {
    var xss: seq<seq<Timed<B>>> := StreamsOf(accept, sources);
    var top := heap[TopIndex(heap)];
    assert top in heap;
    forall j | 0 <= j < |xss| && xss[j] != []
      ensures Before(xss[top.source][0].time, top.source, xss[j][0].time, j)
    {
      assert sources[j].head.Some?;
      assert HeapItem(sources[j].head.value.time, j) in heap;
    }
  }

  /** Delivering a source's head takes the front off its stream and off no other. */
  lemma {:induction false} HeadTaken<A, B>(accept: Accept<A, B>, sources: seq<Source<A, B>>, i: nat)
    requires i < |sources| && sources[i].head.Some?
    ensures var xss := StreamsOf(accept, sources);
            && xss[i] != [] && xss[i][0] == sources[i].head.value
            && StreamsOf(accept, sources[i := sources[i].(head := None)]) == xss[i := xss[i][1..]]
  {
    var xss, left := StreamsOf(accept, sources), sources[i := sources[i].(head := None)];
    assert xss[i][1..] == StreamOf(accept, i, left[i]);
    forall j | 0 <= j < |left|
      ensures StreamsOf(accept, left)[j] == xss[i := xss[i][1..]][j]
    {
    }
  }

  lemma {:induction false} SameChildren<A, B>(accept: Accept<A, B>, a: seq<Source<A, B>>, b: seq<Source<A, B>>)
    requires |a| == |b| && forall j :: 0 <= j < |a| ==> a[j].child == b[j].child
    ensures Failing(accept, a) == Failing(accept, b)
  {
  }

  /** Between two calls a failure is due exactly if the source waiting to be refilled is about to fail. */
  lemma {:induction false} DueIsPending<A, B>(accept: Accept<A, B>, sources: seq<Source<A, B>>, pending: Option<nat>)
    requires Settled(sources, pending)
    ensures Due(StreamsOf(accept, sources), Failing(accept, sources))
            <==> pending.Some? && Overdue(accept, pending.value, sources[pending.value])
  {
    var xss, bad := StreamsOf(accept, sources), Failing(accept, sources);
    forall i | 0 <= i < |sources| && pending != Some(i)
      ensures !(bad[i] && xss[i] == [])
    {
      if sources[i].head.None? {
        assert Finished(sources[i].child);
      }
    }
    if pending.Some? {
      var i := pending.value;
      assert xss[i] == Accepted(accept, i, sources[i].child.items);
    }
  }

  /** With every refill done and nothing queued, every source was read to a clean end. */
  lemma {:induction false} NothingQueued<A, B>(accept: Accept<A, B>, sources: seq<Source<A, B>>)
    requires HeapMatches(sources, []) && Settled(sources, None)
    ensures true !in Failing(accept, sources) && Merge(StreamsOf(accept, sources)) == []
  {
    forall i | 0 <= i < |sources|
      ensures sources[i].head.None? && Finished(sources[i].child)
    {
      if sources[i].head.Some? {
        assert false;
      }
    }
    MergeNothing(StreamsOf(accept, sources));
  }

  lemma {:induction false} HeapPop<A, B>(sources: seq<Source<A, B>>, heap: seq<HeapItem>, k: nat)
    requires HeapMatches(sources, heap) && k < |heap|
    ensures var i := heap[k].source;
            i < |sources| && HeapMatches(sources[i := sources[i].(head := None)], heap[..k] + heap[k + 1..])
  {
    var i, left := heap[k].source, heap[..k] + heap[k + 1..];
    assert heap[k] in heap;
    forall item | item in left
      ensures item in heap && item.source != i
    {
      var j :| 0 <= j < |left| && left[j] == item;
      assert item == heap[if j < k then j else j + 1];
    }
    forall item | item in heap && item.source != i
      ensures item in left
    {
      var j :| 0 <= j < |heap| && heap[j] == item;
      assert item == left[if j < k then j else j - 1];
    }
  }

  lemma {:induction false} LeftToRefill<A, B>(sources: seq<Source<A, B>>, i: nat)
    requires Settled(sources, None) && i < |sources| && sources[i].head.Some?
    ensures Settled(sources[i := sources[i].(head := None)], Some(i))
  {
  }

  /** Delivering the head of the top item's source is one step of the merge. */
  lemma {:induction false} HeadDelivered<A, B>(accept: Accept<A, B>, sources: seq<Source<A, B>>, heap: seq<HeapItem>)
    requires HeapMatches(sources, heap) && Settled(sources, None) && heap != []
    ensures var i := heap[TopIndex(heap)].source;
            && i < |sources| && sources[i].head.Some?
            && var left := sources[i := sources[i].(head := None)];
               && Merge(StreamsOf(accept, sources)) == [sources[i].head.value] + Merge(StreamsOf(accept, left))
               && Failing(accept, left) == Failing(accept, sources)
               && Ahead(accept, sources) == [sources[i].head.value] + Ahead(accept, left)
  {
    var i := heap[TopIndex(heap)].source;
    assert heap[TopIndex(heap)] in heap;
    var left := sources[i := sources[i].(head := None)];
    TopIsLeast(accept, sources, heap);
    HeadTaken(accept, sources, i);
    MergeStep(StreamsOf(accept, sources), i);
    SameChildren(accept, sources, left);
    DueIsPending(accept, sources, None);
    LeastIsUnique(StreamsOf(accept, sources), i, Least(StreamsOf(accept, sources)).value);
  }

  /** Refilling source `i` without losing anything leaves all streams and their failures as they were. */
  lemma {:induction false} Undisturbed<A, B>(accept: Accept<A, B>, before: seq<Source<A, B>>,
      after: seq<Source<A, B>>, i: nat)
    requires i < |before| == |after| && forall j :: 0 <= j < |before| && j != i ==> after[j] == before[j]
    requires StreamOf(accept, i, after[i]) == StreamOf(accept, i, before[i])
    requires Clean(accept, i, after[i].child.items, after[i].child.fails)
             <==> Clean(accept, i, before[i].child.items, before[i].child.fails)
    ensures StreamsOf(accept, after) == StreamsOf(accept, before)
    ensures Failing(accept, after) == Failing(accept, before)
  {
  }

  lemma {:induction false} RestIsNotDue<A, B>(accept: Accept<A, B>, i: nat, source: Source<A, B>)
    requires AtRest(source)
    ensures StreamOf(accept, i, source) != [] || Clean(accept, i, source.child.items, source.child.fails)
  {
  }

  class MergeCursor<A, B> {
    const accept: Accept<A, B>
    var sources: seq<Source<A, B>>
    var heap: seq<HeapItem>
    var pending: Option<nat>

    ghost predicate Valid()
      reads this
    {
      HeapMatches(sources, heap) && Settled(sources, pending)
    }

    /** Attaching the children; `Start` then pulls a head from each, as the source's constructors do. */
    constructor (accept: Accept<A, B>, children: seq<Child<A>>)
      ensures this.accept == accept && heap == [] && pending == None
      ensures |sources| == |children|
      ensures forall i :: 0 <= i < |children| ==> sources[i] == Source(children[i], None)
    {
      this.accept := accept;
      sources := seq(|children|, i requires 0 <= i < |children| => Source(children[i], None));
      heap, pending := [], None;
    }

    method Start() returns (ok: bool)
      requires heap == [] && pending == None
      requires forall i :: 0 <= i < |sources| ==> sources[i].head.None? && !sources[i].child.ended
      modifies this
      ensures ok ==> Valid() && StreamsOf(accept, sources) == old(StreamsOf(accept, sources))
      ensures ok ==> Failing(accept, sources) == old(Failing(accept, sources))
      ensures ok <==> !old(Due(StreamsOf(accept, sources), Failing(accept, sources)))
    {
      ghost var xss, bad := StreamsOf(accept, sources), Failing(accept, sources);
      for i := 0 to |sources|
        invariant |sources| == old(|sources|) && pending == None
        invariant HeapMatches(sources, heap)
        invariant forall j :: 0 <= j < i ==> AtRest(sources[j]) && !(bad[j] && xss[j] == [])
        invariant forall j :: i <= j < |sources| ==> sources[j] == old(sources[j])
        invariant StreamsOf(accept, sources) == xss && Failing(accept, sources) == bad
      {
        ghost var before := sources;
        var pulled := Pull(i);
        if !pulled {
          return false;
        }
        Undisturbed(accept, before, sources, i);
        RestIsNotDue(accept, i, sources[i]);
      }
      ok := true;
    }

    /** Polls a source that has not reported its end until it yields a message to keep. */
    method Pull(i: nat) returns (ok: bool)
      requires i < |sources| && sources[i].head.None? && !sources[i].child.ended
      requires HeapMatches(sources, heap)
      modifies this`sources, this`heap
      ensures |sources| == old(|sources|)
      ensures ok ==> HeapMatches(sources, heap)
      ensures ok ==> forall j :: 0 <= j < |sources| && j != i ==> sources[j] == old(sources[j])
      ensures ok ==> StreamOf(accept, i, sources[i]) == old(StreamOf(accept, i, sources[i]))
      ensures ok ==> AtRest(sources[i])
      ensures ok ==> (Clean(accept, i, sources[i].child.items, sources[i].child.fails)
                      <==> old(Clean(accept, i, sources[i].child.items, sources[i].child.fails)))
      ensures ok <==> !old(Overdue(accept, i, sources[i]))
    {
      var child := sources[i].child;
      while true
        invariant !child.ended && child.fails == sources[i].child.fails
        invariant Accepted(accept, i, child.items) == Accepted(accept, i, sources[i].child.items)
        invariant Clean(accept, i, child.items, child.fails) <==> Clean(accept, i, sources[i].child.items, child.fails)
        decreases |child.items|
      {
        if child.items == [] {
          if child.fails {
            return false;
          }
          sources := sources[i := Source(child.(ended := true), None)];
          return true;
        }
        var message := child.items[0];
        child := child.(items := child.items[1..]);
        match accept(i, message)
        case Reject => return false;
        case Skip =>
        case Keep(b) =>
          var head := Timed(message.time, b);
          sources := sources[i := Source(child, Some(head))];
          heap := heap + [HeapItem(head.time, i)];
          return true;
      }
    }

    /**
     The next message of the merge.  The refill of the source delivered last happens here, so a
     failure behind a message is reported only after that message has been delivered: exactly when
     that source has nothing left to deliver before it.
     */
    method Next() returns (r: Next<B>)
      requires Valid()
      modifies this
      ensures r.Failed? <==> old(pending.Some? && Overdue(accept, pending.value, sources[pending.value]))
      ensures r.End? ==> Valid() && old(Merge(StreamsOf(accept, sources))) == []
      ensures r.Item? ==> Valid() && Failing(accept, sources) == old(Failing(accept, sources))
      ensures r.Item? ==> old(Merge(StreamsOf(accept, sources))) == [r.x] + Merge(StreamsOf(accept, sources))
      ensures r.Item? ==> old(Ahead(accept, sources)) == [r.x] + Ahead(accept, sources)
      ensures !r.Item? ==> old(Ahead(accept, sources)) == [] && (r.Failed? <==> true in old(Failing(accept, sources)))
    {
      DueIsPending(accept, sources, pending);
      var refilled := Refill();
      if !refilled {
        return Failed;
      }
      if heap == [] {
        NothingQueued(accept, sources);
        NoFailure(StreamsOf(accept, sources), Failing(accept, sources));
        return End;
      }
      var x := PopLeast();
      r := Item(x);
    }

    /** Pulls from the source delivered last, if there is one. */
    method Refill() returns (ok: bool)
      requires Valid()
      modifies this
      ensures ok ==> HeapMatches(sources, heap) && Settled(sources, None) && pending == None
      ensures ok ==> StreamsOf(accept, sources) == old(StreamsOf(accept, sources))
      ensures ok ==> Failing(accept, sources) == old(Failing(accept, sources))
      ensures ok <==> !old(pending.Some? && Overdue(accept, pending.value, sources[pending.value]))
    {
      ghost var before := sources;
      if pending.Some? {
        var pulled := Pull(pending.value);
        if !pulled {
          return false;
        }
        Undisturbed(accept, before, sources, pending.value);
        pending := None;
      }
      ok := true;
    }

    /** Delivers the top of the queue and leaves its source to be refilled by the next call. */
    method PopLeast() returns (x: Timed<B>)
      requires HeapMatches(sources, heap) && Settled(sources, None) && heap != []
      modifies this
      ensures Valid()
      ensures old(Merge(StreamsOf(accept, sources))) == [x] + Merge(StreamsOf(accept, sources))
      ensures Failing(accept, sources) == old(Failing(accept, sources))
      ensures old(Ahead(accept, sources)) == [x] + Ahead(accept, sources)
    {
      var k := TopIndex(heap);
      var i := heap[k].source;
      HeadDelivered(accept, sources, heap);
      HeapPop(sources, heap, k);
      LeftToRefill(sources, i);
      x := sources[i].head.value;
      heap, sources := heap[..k] + heap[k + 1..], sources[i := sources[i].(head := None)];
      pending := Some(i);
    }

    /**
     `read_raw`: the whole run delivers the merge of the accepted messages if no source fails, and
     otherwise all of it up to the last message of the source that fails first.
     */
    method Drain() returns (out: seq<Timed<B>>, ok: bool)
      requires Valid()
      modifies this
      ensures ok <==> true !in old(Failing(accept, sources))
      ensures ok ==> out == old(Merge(StreamsOf(accept, sources)))
      ensures out == old(Ahead(accept, sources))
      ensures var cut := Cut(Origins(old(StreamsOf(accept, sources))), old(Failing(accept, sources)));
              cut <= |old(Merge(StreamsOf(accept, sources)))| && out == old(Merge(StreamsOf(accept, sources)))[..cut]
    {
      ghost var xss, bad := StreamsOf(accept, sources), Failing(accept, sources);
      FailureCutsMerge(xss, bad);
      if true !in bad {
        NoFailure(xss, bad);
      }
      out := [];
      ghost var left := Ahead(accept, sources);
      while true
        invariant Valid() && Failing(accept, sources) == bad
        invariant left == Ahead(accept, sources) && UpToFailure(xss, bad) == out + left
        decreases |left|
      {
        var next := Next();
        match next
        case Failed => return out, false;
        case End => return out, true;
        case Item(x) =>
          left := left[1..];
          MoveFront(out, x, left);
          out := out + [x];
      }
    }
  }
}
