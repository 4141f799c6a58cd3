/** Message schemas, the values they describe, and the static wire lower bound of every type. */
module Schema {
  import opened Bytes
  import opened Lists

  /** The wire format a reader is decoding; CDR also fixes a byte order. */
  datatype Wire = Ros1 | Cdr(little: bool)

  datatype Prim = U8 | I8 | U16 | I16 | U32 | I32 | U64 | I64 | F32 | F64 | Bool | Octet

  /** A field type. A bound of 0 means that none was declared, as in the generator's `Field`. */
  datatype Ty =
    | Scalar(p: Prim)
    | Text(bound: nat)
    | Named(id: nat)
    | Array(length: nat, elem: Ty)
    | Sequence(bound: nat, elem: Ty)

  /** One message type: the fields each wire format reads, in order, and its `sizeof`. */
  datatype TypeDef = TypeDef(ros1: List<Ty>, cdr: List<Ty>, size: nat)

  /** All message types in emission order, and the platform's `sizeof` of a string and a vector. */
  datatype Schema = Schema(types: seq<TypeDef>, stringSize: nat, vectorSize: nat)

  /** A decoded value; floats are kept as raw bit patterns, so every scalar is an integer. */
  datatype Value =
    | Num(n: int)
    | Str(s: seq<byte>)
    | Message(items: List<Value>)
    | Fixed(items: List<Value>)
    | Dynamic(items: List<Value>)

  /** The fields of a message; an id that names no type has none, and no generated code uses one. */
  function Fields(s: Schema, w: Wire, id: nat): List<Ty> {
    if id >= |s.types| then Nil
    else if w.Ros1? then s.types[id].ros1
    else s.types[id].cdr
  }

  /** `n * m`, by repeated addition so that proofs can count elements one at a time. */
  function Times(n: nat, m: nat): nat {
    if n == 0 then 0 else m + Times(n - 1, m)
  }

  lemma {:induction false} TimesIsProduct(n: nat, m: nat)
    ensures Times(n, m) == n * m
  {
    if n == 0 {
      assert n * m == 0;
    } else {
      TimesIsProduct(n - 1, m);
      assert n * m == m + (n - 1) * m;
    }
  }

  lemma {:induction false} TimesMonotone(n: nat, a: nat, b: nat)
    requires a <= b
    ensures Times(n, a) <= Times(n, b)
  {
    if n > 0 {
      TimesMonotone(n - 1, a, b);
    }
  }

  /** The division test that guards a multiplication decides exactly whether the product fits. */
  lemma {:induction false} QuotientTest(n: nat, m: nat, room: nat)
    requires m > 0
    ensures n > room / m <==> Times(n, m) > room
  {
    TimesIsProduct(n, m);
    var q := room / m;
    QuotientBounds(room, m);
    if n > q {
      ProductMonotone(q + 1, n, m);
    } else {
      ProductMonotone(n, q, m);
    }
  }

  lemma {:induction false} QuotientBounds(room: nat, m: nat)
    requires m > 0
    ensures (room / m) * m <= room < (room / m + 1) * m
  {
  }

  lemma {:induction false} ProductMonotone(a: nat, b: nat, m: nat)
    requires a <= b
    ensures a * m <= b * m
  {
  }

  function Height(ty: Ty): nat {
    match ty
    case Array(_, e) => 1 + Height(e)
    case Sequence(_, e) => 1 + Height(e)
    case _ => 0
  }

  function MaxHeight(tys: List<Ty>): nat {
    match tys
    case Nil => 0
    case Cons(ty, rest) => Max(Height(ty), MaxHeight(rest))
  }

  function Max(a: nat, b: nat): nat {
    if a < b then b else a
  }

  lemma {:induction false} RepeatHeight(n: nat, e: Ty)
    ensures MaxHeight(Repeat(n, e)) <= Height(e)
  {
    if n > 0 {
      RepeatHeight(n - 1, e);
    }
  }

  function Width(p: Prim): (k: nat)
    ensures k == 1 || k == 2 || k == 4 || k == 8
  {
    match p
    case U8 => 1 case I8 => 1 case Bool => 1 case Octet => 1
    case U16 => 2 case I16 => 2
    case U32 => 4 case I32 => 4 case F32 => 4
    case U64 => 8 case I64 => 8 case F64 => 8
  }

  /** `sizeof` of one value of the type; the shared representation of `byte` is `std::int16_t`. */
  function SizeOf(s: Schema, ty: Ty): nat {
    match ty
    case Scalar(p) => if p.Octet? then 2 else Width(p)
    case Text(_) => s.stringSize
    case Named(id) => if id < |s.types| then s.types[id].size else 0
    case Array(n, e) => Times(n, SizeOf(s, e))
    case Sequence(_, _) => s.vectorSize
  }

  /**
   `WireMinimum<T>`: fewest bytes one value of the type can take, padding excluded.  A message
   sees the constants emitted before its own, those of ids below `limit`.
   */
  function WireMinimum(s: Schema, w: Wire, ty: Ty, limit: nat): nat
    decreases limit, Height(ty), 0, 0
  {
    match ty
    case Scalar(p) => Width(p)
    case Text(_) => if w.Ros1? then 4 else 5
    case Named(id) => if id < limit then MinimumAll(s, w, Fields(s, w, id), id) else 0
    case Array(n, e) => Times(n, WireMinimum(s, w, e, limit))
    case Sequence(_, _) => 4
  }

  function MinimumAll(s: Schema, w: Wire, tys: List<Ty>, limit: nat): nat
    decreases limit, MaxHeight(tys), 1, tys
  {
    match tys
    case Nil => 0
    case Cons(ty, rest) => WireMinimum(s, w, ty, limit) + MinimumAll(s, w, rest, limit)
  }

  function Minimum(s: Schema, w: Wire, ty: Ty): nat {
    WireMinimum(s, w, ty, |s.types|)
  }

  lemma {:induction false} MinimumRepeat(s: Schema, w: Wire, n: nat, e: Ty, limit: nat)
    ensures MinimumAll(s, w, Repeat(n, e), limit) == Times(n, WireMinimum(s, w, e, limit))
  {
    if n > 0 {
      MinimumRepeat(s, w, n - 1, e, limit);
    }
  }

  /** The range a scalar reader can deliver; `byte` is signed in ROS1 and unsigned in CDR. */
  predicate InRange(w: Wire, p: Prim, n: int) {
    match p
    case Bool => 0 <= n <= 1
    case _ =>
      var span := Pow256(Width(p));
      if Signed(w, p) then -(span / 2) <= n < span / 2 else 0 <= n < span
  }

  predicate Signed(w: Wire, p: Prim) {
    p.I8? || p.I16? || p.I32? || p.I64? || (p.Octet? && w.Ros1?)
  }

  /** `v` is a value of type `ty` that format `w` can carry. */
  predicate Fits(s: Schema, w: Wire, ty: Ty, v: Value)
    decreases v
  {
    match ty
    case Scalar(p) => v.Num? && InRange(w, p, v.n)
    case Text(bound) =>
      && v.Str?
      && (bound != 0 ==> |v.s| <= bound)
      && (if w.Ros1? then |v.s| else |v.s| + 1) <= U32_MAX
    case Named(id) => v.Message? && FitsAll(s, w, Fields(s, w, id), v.items)
    case Array(n, e) => v.Fixed? && Length(v.items) == n && FitsAll(s, w, Repeat(n, e), v.items)
    case Sequence(bound, e) =>
      && v.Dynamic?
      && Length(v.items) <= U32_MAX && (bound != 0 ==> Length(v.items) <= bound)
      && FitsAll(s, w, Repeat(Length(v.items), e), v.items)
  }

  predicate FitsAll(s: Schema, w: Wire, tys: List<Ty>, vs: List<Value>)
    decreases vs
  {
    match (tys, vs)
    case (Nil, Nil) => true
    case (Cons(ty, moreTys), Cons(v, moreVs)) => Fits(s, w, ty, v) && FitsAll(s, w, moreTys, moreVs)
    case _ => false
  }
}
