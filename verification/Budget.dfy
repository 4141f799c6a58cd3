/** What a decoded value costs, and that the limits are exact thresholds for that cost. */
module Budget {
  import opened Bytes
  import opened Lists
  import opened Schema
  import opened Codec

  /** How deeply messages nest inside a value. */
  function Depth(v: Value): nat
    decreases v
  {
    match v
    case Message(vs) => 1 + DeepestOf(vs)
    case Fixed(vs) => DeepestOf(vs)
    case Dynamic(vs) => DeepestOf(vs)
    case _ => 0
  }

  function DeepestOf(vs: List<Value>): nat
    decreases vs
  {
    match vs
    case Nil => 0
    case Cons(v, rest) => Max(Depth(v), DeepestOf(rest))
  }

  /** The length of the longest sequence inside a value. */
  function Widest(v: Value): nat
    decreases v
  {
    match v
    case Message(vs) => WidestOf(vs)
    case Fixed(vs) => WidestOf(vs)
    case Dynamic(vs) => Max(Length(vs), WidestOf(vs))
    case _ => 0
  }

  function WidestOf(vs: List<Value>): nat
    decreases vs
  {
    match vs
    case Nil => 0
    case Cons(v, rest) => Max(Widest(v), WidestOf(rest))
  }

  /** Dynamic storage: length times element size of every sequence, length plus one of every string. */
  function Storage(s: Schema, w: Wire, ty: Ty, v: Value): nat
    decreases v
  {
    match (ty, v)
    case (Text(_), Str(bs)) => |bs| + 1
    case (Named(id), Message(vs)) => StorageOf(s, w, Fields(s, w, id), vs)
    case (Array(n, e), Fixed(vs)) => StorageOf(s, w, Repeat(n, e), vs)
    case (Sequence(_, e), Dynamic(vs)) =>
      Times(Length(vs), SizeOf(s, e)) + StorageOf(s, w, Repeat(Length(vs), e), vs)
    case _ => 0
  }

  function StorageOf(s: Schema, w: Wire, tys: List<Ty>, vs: List<Value>): nat
    decreases vs
  {
    match (tys, vs)
    case (Cons(ty, moreTys), Cons(v, moreVs)) => Storage(s, w, ty, v) + StorageOf(s, w, moreTys, moreVs)
    case _ => 0
  }

  ghost predicate Covers(limits: Limits, room: nat, v: Value) {
    Widest(v) <= limits.elements && Depth(v) <= room
  }

  ghost predicate CoversAll(limits: Limits, room: nat, vs: List<Value>) {
    WidestOf(vs) <= limits.elements && DeepestOf(vs) <= room
  }

  // ----- a successful read delivers a value of the type and charges exactly its cost -----

  lemma {:induction false} FromRawInRange(w: Wire, p: Prim, raw: nat)
    requires raw < Pow256(Width(p))
    ensures InRange(w, p, FromRaw(w, p, raw))
  {
    Pow256At8();
  }

  ghost predicate Accounted(env: Env, room: nat, ty: Ty, c: Cursor, v: Value, n: Cursor)
    requires Live(env, c)
  {
    && Fits(env.schema, env.wire, ty, v)
    && Covers(env.limits, room, v)
    && n.used == c.used + Storage(env.schema, env.wire, ty, v)
  }

  ghost predicate AccountedAll(env: Env, room: nat, tys: List<Ty>, c: Cursor, vs: List<Value>, n: Cursor)
    requires Live(env, c)
  {
    && FitsAll(env.schema, env.wire, tys, vs)
    && CoversAll(env.limits, room, vs)
    && n.used == c.used + StorageOf(env.schema, env.wire, tys, vs)
  }

  /** Decoded values obey their declared ranges, bounds and lengths, and cost what they need. */
  lemma {:induction false} ReadIsAccounted(env: Env, room: nat, ty: Ty, c: Cursor)
    requires Live(env, c)
    requires ReadTy(env, room, ty, c).Done?
    ensures var r := ReadTy(env, room, ty, c); Accounted(env, room, ty, c, r.value, r.next)
    decreases room, Height(ty), 0, 0
  {
    match ty {
      case Scalar(p) =>
        FromRawInRange(env.wire, p, ReadRaw(env, c, Width(p)).value);
      case Text(bound) => TextIsAccounted(env, room, bound, c);
      case Named(id) =>
        ReadAllIsAccounted(env, room - 1, Fields(env.schema, env.wire, id), c);
      case Array(n, e) =>
        RepeatHeight(n, e);
        ReadAllLength(env, room, Repeat(n, e), c);
        LengthRepeat(n, e);
        ReadAllIsAccounted(env, room, Repeat(n, e), c);
      case Sequence(bound, e) =>
        var count, start := SequenceParts(env, room, bound, e, c);
        LengthIsChecked(env, bound, e, c);
        ReadAllIsAccounted(env, room, Repeat(count, e), start);
    }
  }

  lemma {:induction false} TextIsAccounted(env: Env, room: nat, bound: nat, c: Cursor)
    requires Live(env, c) && ReadText(env, bound, c).Done?
    ensures var r := ReadText(env, bound, c); Accounted(env, room, Text(bound), c, r.value, r.next)
  {
    Pow256At8();
  }

  lemma {:induction false} LengthIsChecked(env: Env, bound: nat, e: Ty, c: Cursor)
    requires Live(env, c) && ReadLength(env, bound, e, c).Done?
    ensures var r := ReadLength(env, bound, e, c);
            && r.value <= U32_MAX && (bound != 0 ==> r.value <= bound)
            && r.value <= env.limits.elements
            && r.next.used == c.used + Times(r.value, SizeOf(env.schema, e))
            && r.next.pos == ReadRaw(env, c, 4).next.pos
  {
    Pow256At8();
  }

  lemma {:induction false} ReadAllIsAccounted(env: Env, room: nat, tys: List<Ty>, c: Cursor)
    requires Live(env, c)
    requires ReadAll(env, room, tys, c).Done?
    ensures var r := ReadAll(env, room, tys, c); AccountedAll(env, room, tys, c, r.value, r.next)
    decreases room, MaxHeight(tys), 1, tys
  {
    match tys {
      case Nil =>
      case Cons(ty, rest) =>
        ReadIsAccounted(env, room, ty, c);
        ReadAllIsAccounted(env, room, rest, ReadTy(env, room, ty, c).next);
    }
  }

  // ----- limits that cover the cost are enough -----

  /** The same payload, schema and wire format under other limits, at the same position. */
  ghost predicate Relimited(env: Env, c: Cursor, env': Env, c': Cursor) {
    Live(env, c) && Live(env', c') && c'.pos == c.pos && env' == env.(limits := env'.limits)
  }

  /** Whatever decodes under some limits decodes to the same value under any that cover its cost. */
  lemma {:induction false} CoveringLimitsSuffice(env: Env, room: nat, ty: Ty, c: Cursor, v: Value, n: Cursor,
      env': Env, room': nat, c': Cursor)
    requires Relimited(env, c, env', c')
    requires ReadTy(env, room, ty, c) == Done(v, n)
    requires Covers(env'.limits, room', v)
    requires c'.used + Storage(env.schema, env.wire, ty, v) <= env'.limits.storage
    ensures ReadTy(env', room', ty, c')
            == Done(v, Cursor(n.pos, c'.used + Storage(env.schema, env.wire, ty, v)))
    decreases room, Height(ty), 0, 1
  {
    match ty {
      case Scalar(p) => RawIgnoresLimits(env, c, env', c', Width(p));
      case Text(bound) => TextSuffices(env, bound, c, v, n, env', c');
      case Named(id) =>
        CoveringLimitsSufficeMessage(env, room, id, c, v, n, env', room', c');
      case Array(count, e) =>
        CoveringLimitsSufficeArray(env, room, count, e, c, v, n, env', room', c');
      case Sequence(bound, e) =>
        CoveringLimitsSufficeSequence(env, room, bound, e, c, v, n, env', room', c');
    }
  }

  lemma {:induction false} CoveringLimitsSufficeMessage(env: Env, room: nat, id: nat, c: Cursor, v: Value,
      n: Cursor, env': Env, room': nat, c': Cursor)
    requires Relimited(env, c, env', c')
    requires ReadTy(env, room, Named(id), c) == Done(v, n)
    requires Covers(env'.limits, room', v)
    requires c'.used + Storage(env.schema, env.wire, Named(id), v) <= env'.limits.storage
    ensures ReadTy(env', room', Named(id), c')
            == Done(v, Cursor(n.pos, c'.used + Storage(env.schema, env.wire, Named(id), v)))
    decreases room, Height(Named(id)), 0, 0
  {
    var tys := Fields(env.schema, env.wire, id);
    CoveringLimitsSufficeAll(env, room - 1, tys, c, v.items, n, env', room' - 1, c');
    MessageFromParts(env', room', id, c', v.items, ReadAll(env', room' - 1, tys, c').next);
  }

  lemma {:induction false} CoveringLimitsSufficeArray(env: Env, room: nat, count: nat, e: Ty, c: Cursor,
      v: Value, n: Cursor, env': Env, room': nat, c': Cursor)
    requires Relimited(env, c, env', c')
    requires ReadTy(env, room, Array(count, e), c) == Done(v, n)
    requires Covers(env'.limits, room', v)
    requires c'.used + Storage(env.schema, env.wire, Array(count, e), v) <= env'.limits.storage
    ensures ReadTy(env', room', Array(count, e), c')
            == Done(v, Cursor(n.pos, c'.used + Storage(env.schema, env.wire, Array(count, e), v)))
    decreases room, Height(Array(count, e)), 0, 0
  {
    RepeatHeight(count, e);
    CoveringLimitsSufficeAll(env, room, Repeat(count, e), c, v.items, n, env', room', c');
  }

  lemma {:induction false} CoveringLimitsSufficeSequence(env: Env, room: nat, bound: nat, e: Ty, c: Cursor,
      v: Value, n: Cursor, env': Env, room': nat, c': Cursor)
    requires Relimited(env, c, env', c')
    requires ReadTy(env, room, Sequence(bound, e), c) == Done(v, n)
    requires Covers(env'.limits, room', v)
    requires c'.used + Storage(env.schema, env.wire, Sequence(bound, e), v) <= env'.limits.storage
    ensures ReadTy(env', room', Sequence(bound, e), c')
            == Done(v, Cursor(n.pos, c'.used + Storage(env.schema, env.wire, Sequence(bound, e), v)))
    decreases room, Height(Sequence(bound, e)), 0, 0
  {
    var count, start := SequenceParts(env, room, bound, e, c);
    LengthSuffices(env, bound, e, c, env', c');
    var start' := ReadLength(env', bound, e, c').next;
    CoveringLimitsSufficeAll(env, room, Repeat(count, e), start, v.items, n, env', room', start');
    var end := ReadAll(env', room', Repeat(count, e), start').next;
    SequenceFromParts(env', room', bound, e, c', count, start', v.items, end);
  }

  lemma {:induction false} RawIgnoresLimits(env: Env, c: Cursor, env': Env, c': Cursor, k: nat)
    requires Relimited(env, c, env', c') && IsWidth(k)
    ensures var a := ReadRaw(env, c, k);
            ReadRaw(env', c', k) == if a.Done? then Done(a.value, Cursor(a.next.pos, c'.used)) else a
  {
  }

  lemma {:induction false} TextSuffices(env: Env, bound: nat, c: Cursor, v: Value, n: Cursor, env': Env, c': Cursor)
    requires Relimited(env, c, env', c')
    requires ReadText(env, bound, c) == Done(v, n) && v.Str?
    requires c'.used + |v.s| + 1 <= env'.limits.storage
    ensures ReadText(env', bound, c') == Done(v, Cursor(n.pos, c'.used + |v.s| + 1))
  {
    RawIgnoresLimits(env, c, env', c', 4);
    var size, size' := ReadRaw(env, c, 4), ReadRaw(env', c', 4);
    TextBodySuffices(env, size.value, size.next, v, n, env', size'.next);
  }

  lemma {:induction false} TextBodySuffices(env: Env, size: nat, c: Cursor, v: Value, n: Cursor, env': Env, c': Cursor)
    requires Relimited(env, c, env', c')
    requires ReadTextBody(env, size, c) == Done(v, n) && v.Str?
    requires c'.used + |v.s| + 1 <= env'.limits.storage
    ensures ReadTextBody(env', size, c') == Done(v, Cursor(n.pos, c'.used + |v.s| + 1))
  {
  }

  lemma {:induction false} LengthSuffices(env: Env, bound: nat, e: Ty, c: Cursor, env': Env, c': Cursor)
    requires Relimited(env, c, env', c') && ReadLength(env, bound, e, c).Done?
    requires var count := ReadLength(env, bound, e, c).value;
             count <= env'.limits.elements && c'.used + Times(count, SizeOf(env.schema, e)) <= env'.limits.storage
    ensures var r := ReadLength(env, bound, e, c);
            ReadLength(env', bound, e, c')
            == Done(r.value, Cursor(r.next.pos, c'.used + Times(r.value, SizeOf(env.schema, e))))
  {
    RawIgnoresLimits(env, c, env', c', 4);
    var head, head' := ReadRaw(env, c, 4), ReadRaw(env', c', 4);
    CheckSuffices(env, head.next, env', head'.next, head.value, SizeOf(env.schema, e),
                  Minimum(env.schema, env.wire, e));
  }

  lemma {:induction false} CheckSuffices(env: Env, c: Cursor, env': Env, c': Cursor, count: nat, size: nat,
      minimum: nat)
    requires Relimited(env, c, env', c') && CheckSequence(env, c, count, size, minimum).Done?
    requires count <= env'.limits.elements && c'.used + Times(count, size) <= env'.limits.storage
    ensures CheckSequence(env', c', count, size, minimum) == Done((), Cursor(c.pos, c'.used + Times(count, size)))
  {
    if size != 0 {
      QuotientTest(count, size, env'.limits.storage - c'.used);
    }
  }

  lemma {:induction false} CoveringLimitsSufficeAll(env: Env, room: nat, tys: List<Ty>, c: Cursor,
      vs: List<Value>, n: Cursor, env': Env, room': nat, c': Cursor)
    requires Relimited(env, c, env', c')
    requires ReadAll(env, room, tys, c) == Done(vs, n)
    requires CoversAll(env'.limits, room', vs)
    requires c'.used + StorageOf(env.schema, env.wire, tys, vs) <= env'.limits.storage
    ensures ReadAll(env', room', tys, c')
            == Done(vs, Cursor(n.pos, c'.used + StorageOf(env.schema, env.wire, tys, vs)))
    decreases room, MaxHeight(tys), 1, tys
  {
    match tys {
      case Nil =>
      case Cons(ty, rest) =>
        var first := ReadTy(env, room, ty, c);
        CoveringLimitsSuffice(env, room, ty, c, vs.head, first.next, env', room', c');
        var first' := ReadTy(env', room', ty, c');
        CoveringLimitsSufficeAll(env, room, rest, first.next, vs.tail, n, env', room', first'.next);
    }
  }
}
