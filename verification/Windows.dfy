/** Cutting a time window out of a sorted index: a lower bound, then reading up to the stop time. */
module Windows {
  import opened Wrappers
  import opened StableOrder

  /** `std::lower_bound` on the timestamp of a sorted index. */
  function LowerBound<T>(xs: seq<Timed<T>>, t: nat): (k: nat)
    ensures k <= |xs|
    ensures forall i :: 0 <= i < k ==> xs[i].time < t
    ensures k < |xs| ==> xs[k].time >= t
  {
    if xs == [] || xs[0].time >= t then 0 else 1 + LowerBound(xs[1..], t)
  }

  /** Where a cursor starts. */
  function First<T>(xs: seq<Timed<T>>, start: Option<nat>): (k: nat)
    ensures k <= |xs|
  {
    match start
    case None => 0
    case Some(t) => LowerBound(xs, t)
  }

  predicate Open(stop: Option<nat>, time: nat) {
    stop.Some? ==> time < stop.value
  }

  /** What a cursor reads before it meets the stop time. */
  function UpTo<T>(xs: seq<Timed<T>>, stop: Option<nat>): seq<Timed<T>> {
    if xs == [] || !Open(stop, xs[0].time) then [] else [xs[0]] + UpTo(xs[1..], stop)
  }

  function Window<T>(xs: seq<Timed<T>>, start: Option<nat>, stop: Option<nat>): seq<Timed<T>> {
    UpTo(xs[First(xs, start)..], stop)
  }

  function Inside<T>(start: Option<nat>, stop: Option<nat>): Timed<T> -> bool {
    (x: Timed<T>) => (start.Some? ==> start.value <= x.time) && Open(stop, x.time)
  }

  lemma {:induction false} NoneInside<T>(xs: seq<Timed<T>>, p: Timed<T> -> bool)
    requires forall x :: x in xs ==> !p(x)
    ensures Filter(p, xs) == []
  {
    if xs != [] {
      NoneInside(xs[1..], p);
    }
  }

  lemma {:induction false} UpToIsFilter<T>(xs: seq<Timed<T>>, start: Option<nat>, stop: Option<nat>)
    requires Sorted(xs) && (xs != [] && start.Some? ==> start.value <= xs[0].time)
    ensures UpTo(xs, stop) == Filter(Inside(start, stop), xs)
  {
    if xs != [] {
      if Open(stop, xs[0].time) {
        UpToIsFilter(xs[1..], start, stop);
      } else {
        NoneInside(xs, Inside(start, stop));
      }
    }
  }

  /** On a sorted index the window is exactly the entries whose time lies inside, in order. */
  lemma {:induction false} WindowIsFilter<T>(xs: seq<Timed<T>>, start: Option<nat>, stop: Option<nat>)
    requires Sorted(xs)
    ensures Window(xs, start, stop) == Filter(Inside(start, stop), xs)
  {
    if First(xs, start) == 0 {
      assert xs[0..] == xs;
      UpToIsFilter(xs, start, stop);
    } else {
      assert xs[1..][First(xs[1..], start)..] == xs[First(xs, start)..];
      WindowIsFilter(xs[1..], start, stop);
    }
  }
}
