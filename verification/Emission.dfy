/** The `WireMinimum` constants as the generator emits them, one type after another. */
module Emission {
  import opened Bytes
  import opened Lists
  import opened Schema

  /** One more than the largest type id held by value: what must be emitted before `ty` is used. */
  function Rank(ty: Ty): nat {
    match ty
    case Named(id) => id + 1
    case Array(_, e) => Rank(e)
    case _ => 0
  }

  predicate RanksBelow(tys: List<Ty>, rank: nat) {
    match tys
    case Nil => true
    case Cons(ty, rest) => Rank(ty) <= rank && RanksBelow(rest, rank)
  }

  /** Emission order: a type holds by value only types before it; sequences may refer anywhere. */
  ghost predicate InOrder(s: Schema) {
    forall i, w: Wire {:trigger Fields(s, w, i)} :: 0 <= i < |s.types| ==> RanksBelow(Fields(s, w, i), i)
  }

  /** A type's constant depends only on the constants emitted before it. */
  lemma {:induction false} MinimumSettles(s: Schema, w: Wire, ty: Ty, a: nat, b: nat)
    requires Rank(ty) <= a && Rank(ty) <= b
    ensures WireMinimum(s, w, ty, a) == WireMinimum(s, w, ty, b)
    decreases ty
  {
    match ty
    case Array(n, e) => MinimumSettles(s, w, e, a, b);
    case _ =>
  }

  lemma {:induction false} MinimumAllSettles(s: Schema, w: Wire, tys: List<Ty>, a: nat, b: nat)
    requires RanksBelow(tys, a) && RanksBelow(tys, b)
    ensures MinimumAll(s, w, tys, a) == MinimumAll(s, w, tys, b)
    decreases tys
  {
    match tys
    case Nil =>
    case Cons(ty, rest) =>
      MinimumSettles(s, w, ty, a, b);
      MinimumAllSettles(s, w, rest, a, b);
  }

  lemma {:induction false} RanksStayBelow(tys: List<Ty>, a: nat, b: nat)
    requires RanksBelow(tys, a) && a <= b
    ensures RanksBelow(tys, b)
  {
    match tys
    case Nil =>
    case Cons(_, rest) => RanksStayBelow(rest, a, b);
  }

  /**
   On definitions in emission order, `WireMinimum` of a message is the sum over its fields of their
   own final constants, so the recursive definition is well founded and means what it says.
   */
  lemma {:induction false} MinimumIsSumOfFields(s: Schema, w: Wire, id: nat)
    requires InOrder(s) && id < |s.types|
    ensures Minimum(s, w, Named(id)) == MinimumAll(s, w, Fields(s, w, id), |s.types|)
  {
    RanksStayBelow(Fields(s, w, id), id, |s.types|);
    MinimumAllSettles(s, w, Fields(s, w, id), id, |s.types|);
  }

  function SizeAll(s: Schema, tys: List<Ty>): nat {
    match tys
    case Nil => 0
    case Cons(ty, rest) => SizeOf(s, ty) + SizeAll(s, rest)
  }

  /** What a C++ compiler guarantees: an object is no smaller than its members, and fits memory. */
  ghost predicate LaidOut(s: Schema) {
    && s.stringSize >= 5 && s.vectorSize >= 4
    && forall i, w: Wire {:trigger Fields(s, w, i)} :: 0 <= i < |s.types| ==>
         SizeAll(s, Fields(s, w, i)) <= s.types[i].size <= SIZE_MAX
  }

  /** No constant exceeds the object's size, so its unsigned sums and products never wrap. */
  lemma {:induction false} MinimumNeverWraps(s: Schema, w: Wire, ty: Ty, limit: nat)
    requires LaidOut(s) && limit <= |s.types|
    ensures WireMinimum(s, w, ty, limit) <= SizeOf(s, ty)
    decreases limit, Height(ty), 0, 0
  {
    match ty {
      case Named(id) =>
        if id < limit {
          MinimumAllNeverWraps(s, w, Fields(s, w, id), id);
        }
      case Array(n, e) =>
        MinimumNeverWraps(s, w, e, limit);
        TimesMonotone(n, WireMinimum(s, w, e, limit), SizeOf(s, e));
      case _ =>
    }
  }

  lemma {:induction false} MinimumAllNeverWraps(s: Schema, w: Wire, tys: List<Ty>, limit: nat)
    requires LaidOut(s) && limit <= |s.types|
    ensures MinimumAll(s, w, tys, limit) <= SizeAll(s, tys)
    decreases limit, MaxHeight(tys), 1, tys
  {
    match tys
    case Nil =>
    case Cons(ty, rest) =>
      MinimumNeverWraps(s, w, ty, limit);
      MinimumAllNeverWraps(s, w, rest, limit);
  }
}
