/** Insertion sort under any total order: what `std::sort` promises can be had. */
module Sorting {
  ghost predicate InOrder<T>(before: (T, T) -> bool, xs: seq<T>) {
    forall i, j :: 0 <= i < j < |xs| ==> before(xs[i], xs[j])
  }

  ghost predicate Total<T(!new)>(before: (T, T) -> bool) {
    forall a, b :: before(a, b) || before(b, a)
  }

  ghost predicate Transitive<T(!new)>(before: (T, T) -> bool) {
    forall a, b, c :: before(a, b) && before(b, c) ==> before(a, c)
  }

  function Insert<T>(before: (T, T) -> bool, x: T, ys: seq<T>): (r: seq<T>)
    ensures multiset(r) == multiset(ys) + multiset{x}
  {
    if ys == [] || before(x, ys[0]) then
      [x] + ys
    else
      assert ys == [ys[0]] + ys[1..];
      [ys[0]] + Insert(before, x, ys[1..])
  }

  function Sort<T>(before: (T, T) -> bool, xs: seq<T>): (r: seq<T>)
    ensures multiset(r) == multiset(xs)
  {
    if xs == [] then []
    else
      assert xs == [xs[0]] + xs[1..];
      Insert(before, xs[0], Sort(before, xs[1..]))
  }

  lemma {:induction false} ConsInOrder<T>(before: (T, T) -> bool, x: T, ys: seq<T>)
    requires InOrder(before, ys) && forall y :: y in ys ==> before(x, y)
    ensures InOrder(before, [x] + ys)
  {
  }

  lemma {:induction false} InsertInOrder<T(!new)>(before: (T, T) -> bool, x: T, ys: seq<T>)
    requires Total(before) && Transitive(before) && InOrder(before, ys)
    ensures InOrder(before, Insert(before, x, ys))
  {
    if ys == [] {
    } else if before(x, ys[0]) {
      FrontIsFirst(before, ys);
      ConsInOrder(before, x, ys);
    } else {
      var rest := Insert(before, x, ys[1..]);
      FrontIsFirst(before, ys);
      InsertInOrder(before, x, ys[1..]);
      forall y | y in rest
        ensures before(ys[0], y)
      {
        assert y in multiset(rest);
        assert before(ys[0], x);
      }
      ConsInOrder(before, ys[0], rest);
    }
  }

  lemma {:induction false} FrontIsFirst<T(!new)>(before: (T, T) -> bool, ys: seq<T>)
    requires InOrder(before, ys) && ys != []
    ensures InOrder(before, ys[1..]) && forall y :: y in ys[1..] ==> before(ys[0], y)
    ensures Transitive(before) ==> forall x, y :: before(x, ys[0]) && y in ys ==> before(x, y) || y == ys[0]
  {
  }

  lemma {:induction false} SortInOrder<T(!new)>(before: (T, T) -> bool, xs: seq<T>)
    requires Total(before) && Transitive(before)
    ensures InOrder(before, Sort(before, xs))
  {
    if xs != [] {
      SortInOrder(before, xs[1..]);
      InsertInOrder(before, xs[0], Sort(before, xs[1..]));
    }
  }
}
