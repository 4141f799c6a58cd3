/** A whole ROS1 reading: the cursor's plan is one filtered stable sort, and a run delivers exactly that. */
module Ros1Reading {
  import opened StableOrder
  import opened KWayMerge
  import opened Filters
  import opened FilteredMerge
  import opened Windows
  import opened Ros1Cursor

  /** The index entries of the first n connections as the file has them, connection after connection. */
  function FileOrder(bag: Bag, n: nat): seq<Timed<Slot>>
    requires n <= |bag.recorded|
  {
    if n == 0 then [] else FileOrder(bag, n - 1) + Map(SlotOf(n - 1), bag.recorded[n - 1])
  }

  function Chosen(bag: Bag, f: ReadFilter): Timed<Slot> -> bool {
    (x: Timed<Slot>) => x.data.connection < |bag.connections| && HasTopic(bag.connections[x.data.connection], f)
  }

  function Wanted(bag: Bag, f: ReadFilter): Timed<Slot> -> bool {
    (x: Timed<Slot>) =>
      x.data.connection < |bag.connections| && HasTopic(bag.connections[x.data.connection], f) && InTime(x.time, f)
  }

  lemma {:induction false} FlattenSnoc<T>(xss: seq<seq<Timed<T>>>, ys: seq<Timed<T>>)
    ensures Flatten(xss + [ys]) == Flatten(xss) + ys
  {
    if xss == [] {
      assert [] + [ys] == [ys] && [ys][1..] == [];
    } else {
      assert (xss + [ys])[1..] == xss[1..] + [ys];
      FlattenSnoc(xss[1..], ys);
    }
  }

  lemma {:induction false} AllInside<T>(xs: seq<Timed<T>>, p: Timed<T> -> bool)
    requires forall x :: x in xs ==> p(x)
    ensures Filter(p, xs) == xs
  {
    if xs != [] {
      AllInside(xs[1..], p);
    }
  }

  lemma {:induction false} FilterTwice<T>(p: Timed<T> -> bool, q: Timed<T> -> bool, both: Timed<T> -> bool,
      xs: seq<Timed<T>>)
    requires forall x :: x in xs ==> (both(x) <==> p(x) && q(x))
    ensures Filter(p, Filter(q, xs)) == Filter(both, xs)
  {
    if xs != [] {
      FilterTwice(p, q, both, xs[1..]);
      if q(xs[0]) {
        assert Filter(q, xs)[1..] == Filter(q, xs[1..]);
      }
    }
  }

  /** One connection's entries are selected all together or not at all. */
  lemma {:induction false} ConnectionChosen(bag: Bag, f: ReadFilter, c: nat)
    requires c < |bag.connections| == |bag.recorded|
    ensures var xs := Map(SlotOf(c), bag.recorded[c]);
            Filter(Chosen(bag, f), xs) == if HasTopic(bag.connections[c], f) then xs else []
  {
    var xs := Map(SlotOf(c), bag.recorded[c]);
    forall x | x in xs
      ensures x.data.connection == c
    {
      var i :| 0 <= i < |xs| && xs[i] == x;
      assert x == MapItem(SlotOf(c), bag.recorded[c][i]);
    }
    if HasTopic(bag.connections[c], f) {
      AllInside(xs, Chosen(bag, f));
    } else {
      NoneInside(xs, Chosen(bag, f));
    }
  }

  lemma {:induction false} IndexTies(bag: Bag, c: nat, t: nat)
    requires c < |bag.recorded|
    ensures AtTime(Index(bag, c), t) == AtTime(Map(SlotOf(c), bag.recorded[c]), t)
  {
    StableSortIsStable(bag.recorded[c]);
    MapTies(SlotOf(c), StableSort(bag.recorded[c]), t);
    MapTies(SlotOf(c), bag.recorded[c], t);
    assert AtTime(StableSort(bag.recorded[c]), t) == AtTime(bag.recorded[c], t);
  }

  /** The selected indexes laid end to end hold the selected entries, ties in file order. */
  lemma {:induction false} SelectedTies(bag: Bag, f: ReadFilter, n: nat, t: nat)
    requires n <= |bag.connections| == |bag.recorded|
    ensures AtTime(Flatten(Selected(bag, f, n)), t) == AtTime(Filter(Chosen(bag, f), FileOrder(bag, n)), t)
  {
    if n > 0 {
      var c := n - 1;
      SelectedTies(bag, f, c, t);
      FileTies(bag, f, c, t);
      if HasTopic(bag.connections[c], f) {
        FlattenSnoc(Selected(bag, f, c), Index(bag, c));
        AtTimeConcat(Flatten(Selected(bag, f, c)), Index(bag, c), t);
        IndexTies(bag, c, t);
      } else {
        assert Selected(bag, f, c) + [] == Selected(bag, f, c);
      }
    }
  }

  /** One connection more adds its ties, or none. */
  lemma {:induction false} FileTies(bag: Bag, f: ReadFilter, c: nat, t: nat)
    requires c < |bag.connections| == |bag.recorded|
    ensures AtTime(Filter(Chosen(bag, f), FileOrder(bag, c + 1)), t)
            == AtTime(Filter(Chosen(bag, f), FileOrder(bag, c)), t)
               + if HasTopic(bag.connections[c], f) then AtTime(Map(SlotOf(c), bag.recorded[c]), t) else []
  {
    var xs := Map(SlotOf(c), bag.recorded[c]);
    FilterConcat(Chosen(bag, f), FileOrder(bag, c), xs);
    ConnectionChosen(bag, f, c);
    AtTimeConcat(Filter(Chosen(bag, f), FileOrder(bag, c)), Filter(Chosen(bag, f), xs), t);
  }

  lemma {:induction false} SelectedSorted(bag: Bag, f: ReadFilter, n: nat, r: nat)
    requires n <= |bag.connections| == |bag.recorded| && r < |Selected(bag, f, n)|
    ensures Sorted(Selected(bag, f, n)[r])
  {
    if r < |Selected(bag, f, n - 1)| {
      SelectedSorted(bag, f, n - 1, r);
    } else {
      StableSortIsStable(bag.recorded[n - 1]);
      MapSorted(SlotOf(n - 1), StableSort(bag.recorded[n - 1]));
    }
  }

  /**
   The cursor visits exactly the selected connections' entries inside the time window, ordered by
   timestamp, then connection, then position in the file.
   */
  lemma {:induction false} PlanIsFilteredSort(bag: Bag, f: ReadFilter)
    requires |bag.connections| == |bag.recorded|
    ensures Plan(bag, f) == Filter(Wanted(bag, f), StableSort(FileOrder(bag, |bag.connections|)))
  {
    var n := |bag.connections|;
    var selected, windows, file := Selected(bag, f, n), AllWindows(Selected(bag, f, n), f), FileOrder(bag, n);
    forall r | 0 <= r < |selected|
      ensures Sorted(selected[r]) && windows[r] == Filter(Inside(f.start, f.stop), selected[r])
    {
      SelectedSorted(bag, f, n, r);
      WindowIsFilter(selected[r], f.start, f.stop);
    }
    MergeOfFiltered(Inside(f.start, f.stop), selected, windows);
    SelectedSort(bag, f);
    FilterThenSort(Chosen(bag, f), file);
    FilterTwice(Inside(f.start, f.stop), Chosen(bag, f), Wanted(bag, f), StableSort(file));
  }

  lemma {:induction false} SelectedSort(bag: Bag, f: ReadFilter)
    requires |bag.connections| == |bag.recorded|
    ensures StableSort(Flatten(Selected(bag, f, |bag.connections|)))
         == StableSort(Filter(Chosen(bag, f), FileOrder(bag, |bag.connections|)))
  {
    var all := Flatten(Selected(bag, f, |bag.connections|));
    var chosen := Filter(Chosen(bag, f), FileOrder(bag, |bag.connections|));
    StableSortIsStable(all);
    forall t
      ensures AtTime(StableSort(all), t) == AtTime(chosen, t)
    {
      assert AtTime(StableSort(all), t) == AtTime(all, t);
      SelectedTies(bag, f, |bag.connections|, t);
    }
    IsTheStableSort(StableSort(all), chosen);
  }

  // ----- whole runs -----

  /** The messages of the entries, each chunk loaded afresh for each message, up to the first that fails. */
  function Fetched(bag: Bag, xs: seq<Timed<Slot>>): seq<Timed<Message>> {
    if xs == [] || Fetch(bag, xs[0]).None? then [] else [Fetch(bag, xs[0]).value] + Fetched(bag, xs[1..])
  }

  predicate Readable(bag: Bag, xs: seq<Timed<Slot>>) {
    forall x :: x in xs ==> Fetch(bag, x).Some?
  }

  /** Reading a bag: exactly the fetched plan, cut short at the first entry that fails its checks. */
  method ReadBag(bag: Bag, f: ReadFilter) returns (out: seq<Timed<Message>>, ok: bool)
    requires |bag.connections| == |bag.recorded|
    ensures var plan := Filter(Wanted(bag, f), StableSort(FileOrder(bag, |bag.connections|)));
            out == Fetched(bag, plan) && (ok <==> Readable(bag, plan))
  {
    PlanIsFilteredSort(bag, f);
    var cursor := new Cursor(bag, f);
    out := [];
    ghost var plan, rest := Plan(bag, f), Plan(bag, f);
    while true
      invariant cursor.Valid() && cursor.bag == bag && rest == Merge(cursor.left)
      invariant Fetched(bag, plan) == out + Fetched(bag, rest)
      invariant Readable(bag, plan) <==> Readable(bag, rest)
      decreases |rest|
    {
      var next, slot := cursor.Next();
      match next
      case Failed =>
        assert rest[0] in rest;
        return out, false;
      case End => return out, true;
      case Item(x) =>
        FetchedFront(bag, slot, Merge(cursor.left));
        rest := Merge(cursor.left);
        MoveFront(out, x, Fetched(bag, rest));
        out := out + [x];
    }
  }

  lemma {:induction false} FetchedFront(bag: Bag, slot: Timed<Slot>, rest: seq<Timed<Slot>>)
    requires Fetch(bag, slot).Some?
    ensures Fetched(bag, [slot] + rest) == [Fetch(bag, slot).value] + Fetched(bag, rest)
    ensures Readable(bag, [slot] + rest) <==> Readable(bag, rest)
  {
    assert ([slot] + rest)[1..] == rest;
    assert forall x :: x in [slot] + rest <==> x == slot || x in rest;
  }

  /** On a bag whose entries all pass the checks, the filter applies to messages as it does to entries. */
  lemma {:induction false} FetchThenFilter(bag: Bag, f: ReadFilter, xs: seq<Timed<Slot>>)
    requires Readable(bag, xs)
    ensures Readable(bag, Filter(Wanted(bag, f), xs))
    ensures Fetched(bag, Filter(Wanted(bag, f), xs)) == Filter(Passing(bag.connections, f), Fetched(bag, xs))
  {
    if xs != [] {
      var x, rest := xs[0], xs[1..];
      assert x in xs && forall y :: y in rest ==> y in xs;
      FetchThenFilter(bag, f, rest);
      var m := Fetch(bag, x).value;
      assert Fetched(bag, xs)[1..] == Fetched(bag, rest);
      assert m.time == x.time && m.data.connection == x.data.connection;
      var kept := Filter(Wanted(bag, f), rest);
      assert ([x] + kept)[1..] == kept;
    }
  }
}
