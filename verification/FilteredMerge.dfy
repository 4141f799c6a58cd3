/** Delayed merges whose children have filtered for themselves, under numbers of their own. */
module FilteredMerge {
  import opened StableOrder
  import opened KWayMerge
  import opened FailingMerge
  import opened DelayedMerge
  import opened Filters

  /**
   One message of source `i`: the source's filter lets it through at least when the whole's filter
   wants it, and the merge then keeps exactly what the whole's filter wants, renamed by `g`.
   */
  ghost predicate Agrees(accept: Accept<Message, Message>, i: nat, own: Timed<Message> -> bool,
      whole: Timed<Message> -> bool, g: nat -> nat, x: Timed<Message>)
  {
    if whole(Rename(g, x)) then own(x) && accept(i, x) == Keep(Rename(g, x).data)
    else own(x) ==> accept(i, x).Skip?
  }

  /** What passes of the messages `xs`, renamed by `g`. */
  function Share(whole: Timed<Message> -> bool, g: nat -> nat, xs: seq<Timed<Message>>): seq<Timed<Message>> {
    Filter(whole, Renamed(g, xs))
  }

  /** Of what a source that agrees delivers, the merge accepts what passes, renamed. */
  lemma {:induction false} Accepts(accept: Accept<Message, Message>, i: nat, own: Timed<Message> -> bool,
      whole: Timed<Message> -> bool, g: nat -> nat, items: seq<Timed<Message>>, fails: bool)
    requires forall x :: x in items ==> own(x) && Agrees(accept, i, own, whole, g, x)
    ensures Accepted(accept, i, items) == Share(whole, g, items)
    ensures Clean(accept, i, items, fails) <==> !fails
    decreases |items|
  {
    if items != [] {
      var x, rest := items[0], items[1..];
      assert x in items && forall y :: y in rest ==> y in items;
      Accepts(accept, i, own, whole, g, rest, fails);
      assert Renamed(g, items)[0] == Rename(g, x) && Renamed(g, items)[1..] == Renamed(g, rest);
    }
  }

  /** The source's own filter withholds nothing that passes. */
  lemma {:induction false} OwnIsEnough(own: Timed<Message> -> bool, whole: Timed<Message> -> bool, g: nat -> nat,
      xs: seq<Timed<Message>>)
    requires forall x :: x in xs && whole(Rename(g, x)) ==> own(x)
    ensures Share(whole, g, Filter(own, xs)) == Share(whole, g, xs)
  {
    if xs != [] {
      var x, rest := xs[0], xs[1..];
      assert x in xs && forall y :: y in rest ==> y in xs;
      OwnIsEnough(own, whole, g, rest);
      assert Renamed(g, xs)[1..] == Renamed(g, rest);
      var kept := Filter(own, rest);
      assert Renamed(g, [x] + kept)[1..] == Renamed(g, kept);
    }
  }

  lemma {:induction false} ShareOfPrefix(whole: Timed<Message> -> bool, g: nat -> nat, a: seq<Timed<Message>>,
      b: seq<Timed<Message>>)
    requires a <= b
    ensures Share(whole, g, a) <= Share(whole, g, b)
  {
    var rest := b[|a|..];
    assert Renamed(g, b) == Renamed(g, a) + Renamed(g, rest);
    FilterConcat(whole, Renamed(g, a), Renamed(g, rest));
  }

  /** A source that agrees on every message contributes its renamed messages, filtered by the whole's filter. */
  lemma {:induction false} Contributes(accept: Accept<Message, Message>, i: nat, own: Timed<Message> -> bool,
      whole: Timed<Message> -> bool, g: nat -> nat, xs: seq<Timed<Message>>, run: Run)
    requires forall x :: x in xs ==> Agrees(accept, i, own, whole, g, x)
    requires run.items <= Filter(own, xs) && (!run.fails ==> run.items == Filter(own, xs))
    ensures Accepted(accept, i, run.items) == Share(whole, g, run.items)
    ensures Clean(accept, i, run.items, run.fails) <==> !run.fails
    ensures Share(whole, g, run.items) <= Share(whole, g, xs)
    ensures !run.fails ==> Share(whole, g, run.items) == Share(whole, g, xs)
  {
    forall x | x in run.items
      ensures own(x) && Agrees(accept, i, own, whole, g, x)
    {
      FilterMember(own, xs, x);
    }
    Accepts(accept, i, own, whole, g, run.items, run.fails);
    forall x | x in xs && whole(Rename(g, x))
      ensures own(x)
    {
      assert Agrees(accept, i, own, whole, g, x);
    }
    OwnIsEnough(own, whole, g, xs);
    ShareOfPrefix(whole, g, run.items, Filter(own, xs));
  }

  lemma {:induction false} FlattenFiltered<T>(p: Timed<T> -> bool, xss: seq<seq<Timed<T>>>, yss: seq<seq<Timed<T>>>)
    requires |xss| == |yss| && forall j :: 0 <= j < |xss| ==> yss[j] == Filter(p, xss[j])
    ensures Flatten(yss) == Filter(p, Flatten(xss))
  {
    if xss != [] {
      FlattenFiltered(p, xss[1..], yss[1..]);
      FilterConcat(p, xss[0], Flatten(xss[1..]));
    }
  }

  /** Filtering each stream and merging is stably sorting everything and then filtering. */
  lemma {:induction false} MergeOfFiltered<T>(p: Timed<T> -> bool, xss: seq<seq<Timed<T>>>, yss: seq<seq<Timed<T>>>)
    requires |xss| == |yss| && forall j :: 0 <= j < |xss| ==> Sorted(xss[j]) && yss[j] == Filter(p, xss[j])
    ensures Merge(yss) == Filter(p, StableSort(Flatten(xss)))
  {
    forall j | 0 <= j < |yss|
      ensures Sorted(yss[j])
    {
      FilterSorted(p, xss[j]);
    }
    MergeIsStableSort(yss);
    FlattenFiltered(p, xss, yss);
    IsTheStableSort(Merge(yss), Flatten(yss));
    FilterThenSort(p, Flatten(xss));
  }

  /**
   Merging runs over parts of a whole delivers the whole filtered and stably sorted, cut short only
   by the failure of a run.
   */
  lemma {:induction false} MergeOfRuns<T>(p: Timed<T> -> bool, xss: seq<seq<Timed<T>>>, yss: seq<seq<Timed<T>>>,
      bad: seq<bool>)
    requires |xss| == |yss| == |bad|
    requires forall j :: 0 <= j < |xss| ==>
      Sorted(xss[j]) && yss[j] <= Filter(p, xss[j]) && (!bad[j] ==> yss[j] == Filter(p, xss[j]))
    ensures UpToFailure(yss, bad) <= Filter(p, StableSort(Flatten(xss)))
    ensures true !in bad ==> UpToFailure(yss, bad) == Filter(p, StableSort(Flatten(xss)))
  {
    var whole := seq(|xss|, j requires 0 <= j < |xss| => Filter(p, xss[j]));
    MergeOfFiltered(p, xss, whole);
    FailureGivesPrefix(yss, bad, whole);
    if true !in bad {
      assert yss == whole;
      NoFailure(yss, bad);
    }
  }
}
