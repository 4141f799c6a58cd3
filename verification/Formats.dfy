/** The two wire formats agree on what a value costs, also where one of them carries more scalar fields. */
module Formats {
  import opened Bytes
  import opened Lists
  import opened Schema
  import opened Codec
  import opened Budget
  import opened RoundTrip

  /** A value without its numbers: what is left is all that costs storage, elements or depth. */
  function Shape(v: Value): Value
    decreases v
  {
    match v
    case Num(_) => Num(0)
    case Str(bs) => Str(bs)
    case Message(vs) => Message(WithoutNumbers(vs))
    case Fixed(vs) => Fixed(ShapeEach(vs))
    case Dynamic(vs) => Dynamic(ShapeEach(vs))
  }

  function WithoutNumbers(vs: List<Value>): List<Value>
    decreases vs
  {
    match vs
    case Nil => Nil
    case Cons(v, rest) => if v.Num? then WithoutNumbers(rest) else Cons(Shape(v), WithoutNumbers(rest))
  }

  function ShapeEach(vs: List<Value>): List<Value>
    decreases vs
  {
    match vs
    case Nil => Nil
    case Cons(v, rest) => Cons(Shape(v), ShapeEach(rest))
  }

  /** Values that differ in numbers alone; messages may also have different numbers of them. */
  predicate Similar(a: Value, b: Value)
    decreases a, 0, b
  {
    match (a, b)
    case (Num(_), Num(_)) => true
    case (Str(xs), Str(ys)) => xs == ys
    case (Message(vs), Message(us)) => SimilarFields(vs, us)
    case (Fixed(vs), Fixed(us)) => SimilarItems(vs, us)
    case (Dynamic(vs), Dynamic(us)) => SimilarItems(vs, us)
    case _ => false
  }

  predicate SimilarFields(vs: List<Value>, us: List<Value>)
    decreases vs, 1, us
  {
    if vs.Cons? && vs.head.Num? then SimilarFields(vs.tail, us)
    else if us.Cons? && us.head.Num? then SimilarFields(vs, us.tail)
    else
      match (vs, us)
      case (Nil, Nil) => true
      case (Cons(v, moreV), Cons(u, moreU)) => Similar(v, u) && SimilarFields(moreV, moreU)
      case _ => false
  }

  predicate SimilarItems(vs: List<Value>, us: List<Value>)
    decreases vs, 1, us
  {
    match (vs, us)
    case (Nil, Nil) => true
    case (Cons(v, moreV), Cons(u, moreU)) => Similar(v, u) && SimilarItems(moreV, moreU)
    case _ => false
  }

  /** Having one shape is differing in numbers alone. */
  lemma {:induction false} ShapesMean(a: Value, b: Value)
    ensures Shape(a) == Shape(b) <==> Similar(a, b)
    decreases a, 0, b
  {
    match (a, b)
    case (Message(vs), Message(us)) => FieldShapesMean(vs, us);
    case (Fixed(vs), Fixed(us)) => ItemShapesMean(vs, us);
    case (Dynamic(vs), Dynamic(us)) => ItemShapesMean(vs, us);
    case _ =>
  }

  lemma {:induction false} FieldShapesMean(vs: List<Value>, us: List<Value>)
    ensures WithoutNumbers(vs) == WithoutNumbers(us) <==> SimilarFields(vs, us)
    decreases vs, 1, us
  {
    if vs.Cons? && vs.head.Num? {
      FieldShapesMean(vs.tail, us);
    } else if us.Cons? && us.head.Num? {
      FieldShapesMean(vs, us.tail);
    } else if vs.Cons? && us.Cons? {
      ShapesMean(vs.head, us.head);
      FieldShapesMean(vs.tail, us.tail);
    }
  }

  lemma {:induction false} ItemShapesMean(vs: List<Value>, us: List<Value>)
    ensures ShapeEach(vs) == ShapeEach(us) <==> SimilarItems(vs, us)
    decreases vs, 1, us
  {
    if vs.Cons? && us.Cons? {
      ShapesMean(vs.head, us.head);
      ItemShapesMean(vs.tail, us.tail);
    }
  }

  function WithoutScalars(tys: List<Ty>): List<Ty> {
    match tys
    case Nil => Nil
    case Cons(ty, rest) => if ty.Scalar? then WithoutScalars(rest) else Cons(ty, WithoutScalars(rest))
  }

  /** Field types that may differ between the formats only in how a scalar is written. */
  predicate Alike(s: Schema, a: Ty, b: Ty) {
    match (a, b)
    case (Scalar(_), Scalar(_)) => true
    case (Text(_), Text(_)) => true
    case (Named(i), Named(j)) => i == j
    case (Array(n, e), Array(m, f)) => n == m && Alike(s, e, f)
    case (Sequence(_, e), Sequence(_, f)) => SizeOf(s, e) == SizeOf(s, f) && Alike(s, e, f)
    case _ => false
  }

  predicate AllAlike(s: Schema, a: List<Ty>, b: List<Ty>) {
    match (a, b)
    case (Nil, Nil) => true
    case (Cons(t, moreA), Cons(u, moreB)) => Alike(s, t, u) && AllAlike(s, moreA, moreB)
    case _ => false
  }

  /** Scalar fields apart, every message type has the same fields in both formats. */
  ghost predicate SharedFields(s: Schema) {
    forall id: nat, w: Wire, w': Wire {:trigger Fields(s, w, id), Fields(s, w', id)} ::
      AllAlike(s, WithoutScalars(Fields(s, w, id)), WithoutScalars(Fields(s, w', id)))
  }

  lemma {:induction false} AlikeItself(s: Schema, ty: Ty)
    ensures Alike(s, ty, ty)
  {
    match ty
    case Array(_, e) => AlikeItself(s, e);
    case Sequence(_, e) => AlikeItself(s, e);
    case _ =>
  }

  lemma {:induction false} AllAlikeItself(s: Schema, tys: List<Ty>)
    ensures AllAlike(s, tys, tys)
  {
    match tys
    case Nil =>
    case Cons(ty, rest) =>
      AlikeItself(s, ty);
      AllAlikeItself(s, rest);
  }

  lemma {:induction false} TimesIsStrict(n: nat, a: nat, b: nat)
    requires n > 0 && a < b
    ensures Times(n, a) < Times(n, b)
  {
    if n > 1 {
      TimesIsStrict(n - 1, a, b);
    }
  }

  /** Types of one size that differ in scalars only are of one size among more types as well. */
  lemma {:induction false} SizesStayEqual(s: Schema, all: Schema, e: Ty, f: Ty)
    requires s.stringSize == all.stringSize && s.vectorSize == all.vectorSize
    requires Alike(s, e, f) && SizeOf(s, e) == SizeOf(s, f)
    ensures SizeOf(all, e) == SizeOf(all, f)
  {
    match (e, f)
    case (Array(n, e'), Array(_, f')) =>
      if n > 0 {
        if SizeOf(s, e') < SizeOf(s, f') {
          TimesIsStrict(n, SizeOf(s, e'), SizeOf(s, f'));
        } else if SizeOf(s, f') < SizeOf(s, e') {
          TimesIsStrict(n, SizeOf(s, f'), SizeOf(s, e'));
        }
        SizesStayEqual(s, all, e', f');
      }
    case _ =>
  }

  lemma {:induction false} AlikeAmongMore(s: Schema, all: Schema, a: Ty, b: Ty)
    requires s.stringSize == all.stringSize && s.vectorSize == all.vectorSize
    requires Alike(s, a, b)
    ensures Alike(all, a, b)
  {
    match (a, b)
    case (Array(_, e), Array(_, f)) => AlikeAmongMore(s, all, e, f);
    case (Sequence(_, e), Sequence(_, f)) =>
      SizesStayEqual(s, all, e, f);
      AlikeAmongMore(s, all, e, f);
    case _ =>
  }

  lemma {:induction false} AllAlikeAmongMore(s: Schema, all: Schema, a: List<Ty>, b: List<Ty>)
    requires s.stringSize == all.stringSize && s.vectorSize == all.vectorSize
    requires AllAlike(s, a, b)
    ensures AllAlike(all, a, b)
  {
    match (a, b)
    case (Cons(t, moreA), Cons(u, moreB)) =>
      AlikeAmongMore(s, all, t, u);
      AllAlikeAmongMore(s, all, moreA, moreB);
    case _ =>
  }

  // ----- storage -----

  /** The storage a value takes depends neither on the format it was read from nor on its numbers. */
  lemma {:induction false} StorageAgrees(s: Schema, w: Wire, w': Wire, a: Ty, b: Ty, v: Value, v': Value)
    requires SharedFields(s) && Alike(s, a, b) && Fits(s, w, a, v) && Fits(s, w', b, v') && Shape(v) == Shape(v')
    ensures Storage(s, w, a, v) == Storage(s, w', b, v')
    decreases v, v'
  {
    match (a, b, v, v') {
      case (Named(id), Named(_), Message(vs), Message(vs')) =>
        FieldsAgree(s, w, w', Fields(s, w, id), Fields(s, w', id), vs, vs');
      case (Array(n, e), Array(_, f), Fixed(vs), Fixed(vs')) =>
        ItemsAgree(s, w, w', n, e, f, vs, vs');
      case (Sequence(_, e), Sequence(_, f), Dynamic(vs), Dynamic(vs')) =>
        ShapeLength(vs);
        ShapeLength(vs');
        ItemsAgree(s, w, w', Length(vs), e, f, vs, vs');
      case _ =>
    }
  }

  lemma {:induction false} ItemsAgree(s: Schema, w: Wire, w': Wire, n: nat, e: Ty, f: Ty, vs: List<Value>,
      vs': List<Value>)
    requires SharedFields(s) && Alike(s, e, f) && ShapeEach(vs) == ShapeEach(vs')
    requires FitsAll(s, w, Repeat(n, e), vs) && FitsAll(s, w', Repeat(n, f), vs')
    ensures StorageOf(s, w, Repeat(n, e), vs) == StorageOf(s, w', Repeat(n, f), vs')
    decreases vs, vs'
  {
    match (vs, vs')
    case (Cons(v, rest), Cons(v', rest')) =>
      StorageAgrees(s, w, w', e, f, v, v');
      ItemsAgree(s, w, w', n - 1, e, f, rest, rest');
    case _ =>
  }

  lemma {:induction false} FieldsAgree(s: Schema, w: Wire, w': Wire, a: List<Ty>, b: List<Ty>, vs: List<Value>,
      vs': List<Value>)
    requires SharedFields(s) && AllAlike(s, WithoutScalars(a), WithoutScalars(b))
    requires WithoutNumbers(vs) == WithoutNumbers(vs')
    requires FitsAll(s, w, a, vs) && FitsAll(s, w', b, vs')
    ensures StorageOf(s, w, a, vs) == StorageOf(s, w', b, vs')
    decreases vs, vs'
  {
    if a.Cons? && a.head.Scalar? {
      FieldsAgree(s, w, w', a.tail, b, vs.tail, vs');
    } else if b.Cons? && b.head.Scalar? {
      FieldsAgree(s, w, w', a, b.tail, vs, vs'.tail);
    } else if a.Cons? && b.Cons? {
      StorageAgrees(s, w, w', a.head, b.head, vs.head, vs'.head);
      FieldsAgree(s, w, w', a.tail, b.tail, vs.tail, vs'.tail);
    }
  }

  // ----- elements and depth -----

  lemma {:induction false} ShapeLength(vs: List<Value>)
    ensures Length(ShapeEach(vs)) == Length(vs)
  {
    match vs
    case Nil =>
    case Cons(_, rest) => ShapeLength(rest);
  }

  lemma {:induction false} ShapeKeepsExtent(v: Value)
    ensures Widest(Shape(v)) == Widest(v) && Depth(Shape(v)) == Depth(v)
    decreases v
  {
    match v
    case Message(vs) => WithoutNumbersKeepsExtent(vs);
    case Fixed(vs) => ShapeEachKeepsExtent(vs);
    case Dynamic(vs) =>
      ShapeLength(vs);
      ShapeEachKeepsExtent(vs);
    case _ =>
  }

  lemma {:induction false} WithoutNumbersKeepsExtent(vs: List<Value>)
    ensures WidestOf(WithoutNumbers(vs)) == WidestOf(vs) && DeepestOf(WithoutNumbers(vs)) == DeepestOf(vs)
    decreases vs
  {
    match vs
    case Nil =>
    case Cons(v, rest) =>
      ShapeKeepsExtent(v);
      WithoutNumbersKeepsExtent(rest);
  }

  lemma {:induction false} ShapeEachKeepsExtent(vs: List<Value>)
    ensures WidestOf(ShapeEach(vs)) == WidestOf(vs) && DeepestOf(ShapeEach(vs)) == DeepestOf(vs)
    decreases vs
  {
    match vs
    case Nil =>
    case Cons(v, rest) =>
      ShapeKeepsExtent(v);
      ShapeEachKeepsExtent(rest);
  }

  /**
   Two payloads of any formats and byte orders whose values differ at most in their numbers, and in
   scalar fields that only one format has, succeed under exactly the same limits.
   */
  lemma {:induction false} FormatsShareThresholds(s: Schema, id: nat, ros1: bool, bytes: seq<byte>, ros1': bool,
      bytes': seq<byte>, some: Limits, some': Limits, limits: Limits, v: Value, v': Value)
    requires SharedFields(s) && id < |s.types| && Shape(v) == Shape(v')
    requires Decode(s, ros1, id, bytes, some, true) == Good(v)
    requires Decode(s, ros1', id, bytes', some', true) == Good(v')
    ensures Decode(s, ros1, id, bytes, limits, true).Good? <==> Decode(s, ros1', id, bytes', limits, true).Good?
  {
    var w, w' := Announced(ros1, bytes), Announced(ros1', bytes');
    DecodedIsAccounted(s, ros1, id, bytes, some, true, v);
    DecodedIsAccounted(s, ros1', id, bytes', some', true, v');
    StorageAgrees(s, w, w', Named(id), Named(id), v, v');
    ShapeKeepsExtent(v);
    ShapeKeepsExtent(v');
    LimitsAreExact(s, ros1, id, bytes, some, limits, true, v);
    LimitsAreExact(s, ros1', id, bytes', some', limits, true, v');
  }
}
