/**
 Streams of timestamped items, and stable sorting by timestamp: the order every backend promises.
 A stable sort is characterised by being sorted and by keeping, for each timestamp, the same items
 in the same order.
 */
module StableOrder {
  datatype Timed<T> = Timed(time: nat, data: T)

  ghost predicate Sorted<T>(xs: seq<Timed<T>>) {
    forall i, j :: 0 <= i < j < |xs| ==> xs[i].time <= xs[j].time
  }

  /** The items with timestamp `t`, in order. */
  function AtTime<T>(xs: seq<Timed<T>>, t: nat): seq<Timed<T>> {
    if xs == [] then []
    else if xs[0].time == t then [xs[0]] + AtTime(xs[1..], t)
    else AtTime(xs[1..], t)
  }

  ghost predicate SameTies<T>(xs: seq<Timed<T>>, ys: seq<Timed<T>>) {
    forall t :: AtTime(xs, t) == AtTime(ys, t)
  }

  /** `out` is `xs` sorted stably: none lost, none repeated, ties in their original order. */
  ghost predicate IsStableSort<T>(out: seq<Timed<T>>, xs: seq<Timed<T>>) {
    Sorted(out) && SameTies(out, xs)
  }

  /** A stable sort, by insertion from the back. */
  function StableSort<T>(xs: seq<Timed<T>>): seq<Timed<T>> {
    if xs == [] then [] else Insert(xs[0], StableSort(xs[1..]))
  }

  /** `x`, which comes before all of `ys` in the original order, goes before its ties. */
  function Insert<T>(x: Timed<T>, ys: seq<Timed<T>>): seq<Timed<T>> {
    if ys == [] || x.time <= ys[0].time then [x] + ys
    else [ys[0]] + Insert(x, ys[1..])
  }

  lemma {:induction false} AtTimeConcat<T>(xs: seq<Timed<T>>, ys: seq<Timed<T>>, t: nat)
    ensures AtTime(xs + ys, t) == AtTime(xs, t) + AtTime(ys, t)
  {
    if xs == [] {
      assert xs + ys == ys;
    } else {
      assert (xs + ys)[1..] == xs[1..] + ys;
      AtTimeConcat(xs[1..], ys, t);
    }
  }

  lemma {:induction false} AtTimeMember<T>(xs: seq<Timed<T>>, x: Timed<T>)
    ensures x in xs <==> x in AtTime(xs, x.time)
  {
    if xs != [] {
      AtTimeMember(xs[1..], x);
      assert xs == [xs[0]] + xs[1..];
    }
  }

  lemma {:induction false} AtTimeEmpty<T>(xs: seq<Timed<T>>, t: nat)
    ensures AtTime(xs, t) == [] <==> forall x :: x in xs ==> x.time != t
  {
    if xs != [] {
      AtTimeEmpty(xs[1..], t);
      assert xs == [xs[0]] + xs[1..];
    }
  }

  lemma {:induction false} SameTiesMember<T>(xs: seq<Timed<T>>, ys: seq<Timed<T>>, x: Timed<T>)
    requires SameTies(xs, ys)
    ensures x in xs <==> x in ys
  {
    AtTimeMember(xs, x);
    AtTimeMember(ys, x);
    assert AtTime(xs, x.time) == AtTime(ys, x.time);
  }

  lemma {:induction false} SortedTail<T>(xs: seq<Timed<T>>)
    requires Sorted(xs) && xs != []
    ensures Sorted(xs[1..]) && forall x :: x in xs[1..] ==> xs[0].time <= x.time
  {
  }

  lemma {:induction false} SortedCons<T>(x: Timed<T>, ys: seq<Timed<T>>)
    requires Sorted(ys) && forall y :: y in ys ==> x.time <= y.time
    ensures Sorted([x] + ys)
  {
  }

  /** A sorted stream has the earliest of its timestamps in front. */
  lemma {:induction false} SortedFront<T>(xs: seq<Timed<T>>, x: Timed<T>)
    requires Sorted(xs) && x in xs
    ensures xs != [] && xs[0].time <= x.time
  {
  }

  /** Being a stable sort determines the result. */
  lemma {:induction false} StableSortIsUnique<T>(a: seq<Timed<T>>, b: seq<Timed<T>>)
    requires Sorted(a) && Sorted(b) && SameTies(a, b)
    ensures a == b
    decreases |a|
  {
    if b != [] {
      SameTiesMember(a, b, b[0]);
    }
    if a != [] {
      SameTiesMember(a, b, a[0]);
      SortedFront(b, a[0]);
      SortedFront(a, b[0]);
      var t := a[0].time;
      assert AtTime(a, t)[0] == a[0] && AtTime(b, t)[0] == b[0];
      SortedTail(a);
      SortedTail(b);
      forall u
        ensures AtTime(a[1..], u) == AtTime(b[1..], u)
      {
        assert AtTime(a, u) == AtTime(b, u);
        if u == t {
          assert AtTime(a[1..], u) == AtTime(a, u)[1..];
          assert AtTime(b[1..], u) == AtTime(b, u)[1..];
        }
      }
      StableSortIsUnique(a[1..], b[1..]);
      assert a == [a[0]] + a[1..] && b == [b[0]] + b[1..];
    }
  }

  lemma {:induction false} InsertTies<T>(x: Timed<T>, ys: seq<Timed<T>>, t: nat)
    requires Sorted(ys)
    ensures AtTime(Insert(x, ys), t) == AtTime([x] + ys, t)
  {
    if ys != [] && x.time > ys[0].time {
      SortedTail(ys);
      InsertTies(x, ys[1..], t);
      assert ([x] + ys)[1..] == ys && ([x] + ys[1..])[1..] == ys[1..];
      assert Insert(x, ys)[1..] == Insert(x, ys[1..]);
    }
  }

  lemma {:induction false} InsertMember<T>(x: Timed<T>, ys: seq<Timed<T>>, y: Timed<T>)
    ensures y in Insert(x, ys) <==> y == x || y in ys
  {
    if ys != [] && x.time > ys[0].time {
      InsertMember(x, ys[1..], y);
      assert ys == [ys[0]] + ys[1..];
    }
  }

  lemma {:induction false} InsertSorted<T>(x: Timed<T>, ys: seq<Timed<T>>)
    requires Sorted(ys)
    ensures Sorted(Insert(x, ys))
  {
    if ys == [] {
    } else if x.time <= ys[0].time {
      SortedCons(x, ys);
    } else {
      SortedTail(ys);
      InsertSorted(x, ys[1..]);
      var rest := Insert(x, ys[1..]);
      forall y | y in rest
        ensures ys[0].time <= y.time
      {
        InsertMember(x, ys[1..], y);
      }
      SortedCons(ys[0], rest);
    }
  }

  lemma {:induction false} StableSortIsStable<T>(xs: seq<Timed<T>>)
    ensures IsStableSort(StableSort(xs), xs)
  {
    if xs != [] {
      var rest := StableSort(xs[1..]);
      StableSortIsStable(xs[1..]);
      InsertSorted(xs[0], rest);
      forall t
        ensures AtTime(StableSort(xs), t) == AtTime(xs, t)
      {
        InsertTies(xs[0], rest, t);
        assert ([xs[0]] + rest)[1..] == rest;
        assert AtTime(rest, t) == AtTime(xs[1..], t);
      }
    }
  }

  /** Whatever is sorted and keeps the ties of `xs` is `StableSort(xs)`. */
  lemma {:induction false} IsTheStableSort<T>(out: seq<Timed<T>>, xs: seq<Timed<T>>)
    requires IsStableSort(out, xs)
    ensures out == StableSort(xs)
  {
    StableSortIsStable(xs);
    forall t
      ensures AtTime(out, t) == AtTime(StableSort(xs), t)
    {
      assert AtTime(out, t) == AtTime(xs, t);
    }
    StableSortIsUnique(out, StableSort(xs));
  }

  /** Moving the front of what is left to the end of what is done. */
  lemma {:induction false} MoveFront<T>(done: seq<T>, x: T, rest: seq<T>)
    ensures done + ([x] + rest) == (done + [x]) + rest
  {
  }

  // ----- filtering -----

  function Filter<T>(p: Timed<T> -> bool, xs: seq<Timed<T>>): seq<Timed<T>> {
    if xs == [] then []
    else if p(xs[0]) then [xs[0]] + Filter(p, xs[1..])
    else Filter(p, xs[1..])
  }

  /** Filtering place by place: what passes, each once, in order. */
  ghost predicate Sifted<T>(p: Timed<T> -> bool, xs: seq<Timed<T>>, from: nat, out: seq<Timed<T>>, places: seq<nat>) {
    && |places| == |out|
    && (forall k :: 0 <= k < |out| ==> from <= places[k] < |xs| && out[k] == xs[places[k]])
    && (forall j, k :: 0 <= j < k < |out| ==> places[j] < places[k])
    && forall n :: n in places <==> from <= n < |xs| && p(xs[n])
  }

  lemma {:induction false} FilterPlaces<T>(p: Timed<T> -> bool, xs: seq<Timed<T>>, from: nat)
      returns (places: seq<nat>)
    requires from <= |xs|
    ensures Sifted(p, xs, from, Filter(p, xs[from..]), places)
    decreases |xs| - from
  {
    if from == |xs| {
      places := [];
    } else {
      assert xs[from..][0] == xs[from] && xs[from..][1..] == xs[from + 1..];
      places := FilterPlaces(p, xs, from + 1);
      if p(xs[from]) {
        SiftedCons(p, xs, from, Filter(p, xs[from + 1..]), places);
        places := [from] + places;
      }
    }
  }

  lemma {:induction false} SiftedCons<T>(p: Timed<T> -> bool, xs: seq<Timed<T>>, from: nat, out: seq<Timed<T>>,
      places: seq<nat>)
    requires from < |xs| && p(xs[from]) && Sifted(p, xs, from + 1, out, places)
    ensures Sifted(p, xs, from, [xs[from]] + out, [from] + places)
  {
    var all, more := [xs[from]] + out, [from] + places;
    forall k | 0 <= k < |all|
      ensures from <= more[k] < |xs| && all[k] == xs[more[k]]
    {
      assert k > 0 ==> all[k] == out[k - 1] && more[k] == places[k - 1];
    }
    forall j, k | 0 <= j < k < |all|
      ensures more[j] < more[k]
    {
      assert more[k] == places[k - 1] && (j > 0 ==> more[j] == places[j - 1]);
    }
    forall n
      ensures n in more <==> from <= n < |xs| && p(xs[n])
    {
      assert n in more <==> n == from || n in places;
    }
  }

  lemma {:induction false} FilterMember<T>(p: Timed<T> -> bool, xs: seq<Timed<T>>, x: Timed<T>)
    ensures x in Filter(p, xs) <==> x in xs && p(x)
  {
    if xs != [] {
      FilterMember(p, xs[1..], x);
      assert xs == [xs[0]] + xs[1..];
    }
  }

  lemma {:induction false} FilterTies<T>(p: Timed<T> -> bool, xs: seq<Timed<T>>, t: nat)
    ensures AtTime(Filter(p, xs), t) == Filter(p, AtTime(xs, t))
  {
    if xs != [] {
      FilterTies(p, xs[1..], t);
      if p(xs[0]) {
        assert Filter(p, xs)[1..] == Filter(p, xs[1..]);
      }
      if xs[0].time == t {
        assert AtTime(xs, t)[1..] == AtTime(xs[1..], t);
      }
    }
  }

  lemma {:induction false} FilterSorted<T>(p: Timed<T> -> bool, xs: seq<Timed<T>>)
    requires Sorted(xs)
    ensures Sorted(Filter(p, xs))
  {
    if xs != [] {
      SortedTail(xs);
      FilterSorted(p, xs[1..]);
      var rest := Filter(p, xs[1..]);
      forall y | y in rest
        ensures xs[0].time <= y.time
      {
        FilterMember(p, xs[1..], y);
      }
      if p(xs[0]) {
        SortedCons(xs[0], rest);
      }
    }
  }

  lemma {:induction false} FilterConcat<T>(p: Timed<T> -> bool, xs: seq<Timed<T>>, ys: seq<Timed<T>>)
    ensures Filter(p, xs + ys) == Filter(p, xs) + Filter(p, ys)
  {
    if xs == [] {
      assert xs + ys == ys;
    } else {
      assert (xs + ys)[1..] == xs[1..] + ys;
      FilterConcat(p, xs[1..], ys);
    }
  }

  /** Filtering before or after a stable sort makes no difference. */
  lemma {:induction false} FilterThenSort<T>(p: Timed<T> -> bool, xs: seq<Timed<T>>)
    ensures StableSort(Filter(p, xs)) == Filter(p, StableSort(xs))
  {
    StableSortIsStable(xs);
    FilterSorted(p, StableSort(xs));
    forall t
      ensures AtTime(Filter(p, StableSort(xs)), t) == AtTime(Filter(p, xs), t)
    {
      FilterTies(p, StableSort(xs), t);
      FilterTies(p, xs, t);
      assert AtTime(StableSort(xs), t) == AtTime(xs, t);
    }
    IsTheStableSort(Filter(p, StableSort(xs)), Filter(p, xs));
  }

  // ----- changing what the items carry -----

  function MapItem<A, B>(g: A -> B, x: Timed<A>): Timed<B> {
    Timed(x.time, g(x.data))
  }

  function Map<A, B>(g: A -> B, xs: seq<Timed<A>>): (ys: seq<Timed<B>>)
    ensures |ys| == |xs|
    ensures forall i :: 0 <= i < |xs| ==> ys[i] == MapItem(g, xs[i])
  {
    if xs == [] then [] else [MapItem(g, xs[0])] + Map(g, xs[1..])
  }

  lemma {:induction false} MapTies<A, B>(g: A -> B, xs: seq<Timed<A>>, t: nat)
    ensures AtTime(Map(g, xs), t) == Map(g, AtTime(xs, t))
  {
    if xs != [] {
      MapTies(g, xs[1..], t);
      assert Map(g, xs)[1..] == Map(g, xs[1..]);
      if xs[0].time == t {
        assert AtTime(xs, t)[1..] == AtTime(xs[1..], t);
      }
    }
  }

  lemma {:induction false} MapSorted<A, B>(g: A -> B, xs: seq<Timed<A>>)
    requires Sorted(xs)
    ensures Sorted(Map(g, xs))
  {
  }

  /** Changing the items' data does not change the order: it commutes with stable sorting. */
  lemma {:induction false} MapThenSort<A, B>(g: A -> B, xs: seq<Timed<A>>)
    ensures StableSort(Map(g, xs)) == Map(g, StableSort(xs))
  {
    StableSortIsStable(xs);
    MapSorted(g, StableSort(xs));
    forall t
      ensures AtTime(Map(g, StableSort(xs)), t) == AtTime(Map(g, xs), t)
    {
      MapTies(g, StableSort(xs), t);
      MapTies(g, xs, t);
      assert AtTime(StableSort(xs), t) == AtTime(xs, t);
    }
    IsTheStableSort(Map(g, StableSort(xs)), Map(g, xs));
  }

  // ----- what was delivered, and from where -----

  /** Ascending by timestamp and, among equal ones, by place. */
  ghost predicate Ranked<T>(xs: seq<Timed<T>>, out: seq<Timed<T>>, places: seq<nat>) {
    && |places| == |out|
    && (forall k :: 0 <= k < |out| ==> places[k] < |xs| && out[k] == xs[places[k]])
    && forall j, k :: 0 <= j < k < |out| ==>
         out[j].time < out[k].time || (out[j].time == out[k].time && places[j] < places[k])
  }

  lemma {:induction false} RankedTail<T>(xs: seq<Timed<T>>, ys: seq<Timed<T>>, places: seq<nat>, i: nat)
    requires Ranked(xs, ys, places) && ys != [] && forall n :: n in places ==> i < n
    ensures Ranked(xs, ys[1..], places[1..]) && forall n :: n in places[1..] ==> i < n
  {
    var zs, rest := ys[1..], places[1..];
    forall j, k | 0 <= j < k < |zs|
      ensures zs[j].time < zs[k].time || (zs[j].time == zs[k].time && rest[j] < rest[k])
    {
      assert zs[j] == ys[j + 1] && zs[k] == ys[k + 1];
    }
    forall n | n in rest
      ensures i < n
    {
      var k :| 0 <= k < |rest| && rest[k] == n;
      assert places[k + 1] in places;
    }
  }

  lemma {:induction false} RankedFirst<T>(xs: seq<Timed<T>>, i: nat, ys: seq<Timed<T>>, places: seq<nat>)
    requires i < |xs| && Ranked(xs, ys, places) && forall n :: n in places ==> i < n
    requires ys == [] || xs[i].time <= ys[0].time
    ensures Ranked(xs, [xs[i]] + ys, [i] + places)
  {
    forall k | 0 <= k < |ys|
      ensures i < places[k] && xs[i].time <= ys[k].time
    {
      assert places[k] in places;
    }
  }

  lemma {:induction false} InsertPlaces<T>(xs: seq<Timed<T>>, i: nat, ys: seq<Timed<T>>, places: seq<nat>)
      returns (more: seq<nat>)
    requires i < |xs| && Ranked(xs, ys, places) && forall n :: n in places ==> i < n
    ensures Ranked(xs, Insert(xs[i], ys), more) && forall n :: n in more <==> n == i || n in places
    decreases |ys|
  {
    if ys == [] || xs[i].time <= ys[0].time {
      RankedFirst(xs, i, ys, places);
      more := [i] + places;
    } else {
      RankedTail(xs, ys, places, i);
      var rest := InsertPlaces(xs, i, ys[1..], places[1..]);
      InsertAfter(xs, i, ys, places, Insert(xs[i], ys[1..]), rest);
      more := [places[0]] + rest;
    }
  }

  lemma {:induction false} InsertAfter<T>(xs: seq<Timed<T>>, i: nat, ys: seq<Timed<T>>, places: seq<nat>,
      out: seq<Timed<T>>, rest: seq<nat>)
    requires i < |xs| && Ranked(xs, ys, places) && ys != [] && ys[0].time < xs[i].time
    requires Ranked(xs, out, rest) && forall n :: n in rest <==> n == i || n in places[1..]
    ensures Ranked(xs, [ys[0]] + out, [places[0]] + rest)
    ensures forall n :: n in [places[0]] + rest <==> n == i || n in places
  {
    assert places == [places[0]] + places[1..];
    forall k | 0 <= k < |out|
      ensures ys[0].time < out[k].time || (ys[0].time == out[k].time && places[0] < rest[k])
    {
      assert rest[k] in rest;
      if rest[k] != i {
        var j :| 0 <= j < |places[1..]| && places[1..][j] == rest[k];
        assert places[j + 1] == rest[k] && ys[j + 1] == out[k];
      }
    }
  }

  lemma {:induction false} SuffixPlaces<T>(p: Timed<T> -> bool, xs: seq<Timed<T>>, i: nat) returns (places: seq<nat>)
    requires i <= |xs|
    ensures Ranked(xs, StableSort(Filter(p, xs[i..])), places)
    ensures forall n :: n in places <==> i <= n < |xs| && p(xs[n])
    decreases |xs| - i
  {
    if i == |xs| {
      places := [];
    } else {
      assert xs[i..][0] == xs[i] && xs[i..][1..] == xs[i + 1..];
      places := SuffixPlaces(p, xs, i + 1);
      if p(xs[i]) {
        var rest := Filter(p, xs[i + 1..]);
        places := InsertPlaces(xs, i, StableSort(rest), places);
        assert ([xs[i]] + rest)[1..] == rest;
      }
    }
  }

  /**
   The filtered stable sort, place by place: every item that passes and no other, each once, in
   ascending order of timestamp and then of its place in the input.
   */
  lemma {:induction false} FilteredSortPlaces<T>(p: Timed<T> -> bool, xs: seq<Timed<T>>) returns (places: seq<nat>)
    ensures var out := Filter(p, StableSort(xs));
            && |places| == |out|
            && (forall k :: 0 <= k < |out| ==> places[k] < |xs| && out[k] == xs[places[k]])
            && (forall j, k :: 0 <= j < k < |out| ==>
                  out[j].time < out[k].time || (out[j].time == out[k].time && places[j] < places[k]))
    ensures forall n :: n in places <==> 0 <= n < |xs| && p(xs[n])
  {
    FilterThenSort(p, xs);
    places := SuffixPlaces(p, xs, 0);
    assert xs[0..] == xs;
  }
}
