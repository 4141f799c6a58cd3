/** Linked lists, for the field and element lists that readers walk from the front. */
module Lists {
  datatype List<T> = Nil | Cons(head: T, tail: List<T>)

  function Length<T>(xs: List<T>): nat {
    match xs
    case Nil => 0
    case Cons(_, rest) => 1 + Length(rest)
  }

  function Nth<T>(xs: List<T>, k: nat): T
    requires k < Length(xs)
  {
    if k == 0 then xs.head else Nth(xs.tail, k - 1)
  }

  function Concat<T>(xs: List<T>, ys: List<T>): List<T> {
    match xs
    case Nil => ys
    case Cons(x, rest) => Cons(x, Concat(rest, ys))
  }

  function Repeat<T>(n: nat, x: T): List<T> {
    if n == 0 then Nil else Cons(x, Repeat(n - 1, x))
  }

  lemma {:induction false} LengthRepeat<T>(n: nat, x: T)
    ensures Length(Repeat(n, x)) == n
  {
    if n > 0 {
      LengthRepeat(n - 1, x);
    }
  }

  lemma {:induction false} ConcatSnoc<T>(xs: List<T>, y: T, zs: List<T>)
    ensures Concat(Concat(xs, Cons(y, Nil)), zs) == Concat(xs, Cons(y, zs))
  {
    match xs
    case Nil =>
    case Cons(_, rest) => ConcatSnoc(rest, y, zs);
  }

  lemma {:induction false} ConcatNil<T>(xs: List<T>)
    ensures Concat(xs, Nil) == xs
  {
    match xs
    case Nil =>
    case Cons(_, rest) => ConcatNil(rest);
  }
}
