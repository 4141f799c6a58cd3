/** The early rejection of over-long sequences accepts exactly what reading them would accept. */
module WireBound {
  import opened Bytes
  import opened Lists
  import opened Schema
  import opened Codec

  /** A successful read of a type consumes at least its `WireMinimum`. */
  lemma {:induction false} ConsumesMinimum(env: Env, room: nat, ty: Ty, c: Cursor, limit: nat)
    requires Live(env, c) && ReadTy(env, room, ty, c).Done?
    ensures ReadTy(env, room, ty, c).next.pos >= c.pos + WireMinimum(env.schema, env.wire, ty, limit)
    decreases room, Height(ty), 0, 0
  {
    match ty {
      case Named(id) =>
        ConsumesMinimumAll(env, room - 1, Fields(env.schema, env.wire, id), c, id);
      case Array(n, e) =>
        RepeatHeight(n, e);
        ConsumesMinimumAll(env, room, Repeat(n, e), c, limit);
        MinimumRepeat(env.schema, env.wire, n, e, limit);
      case Sequence(bound, e) =>
        var length := ReadLength(env, bound, e, c);
        assert length.next.pos >= c.pos + 4;
      case _ =>
    }
  }

  lemma {:induction false} ConsumesMinimumAll(env: Env, room: nat, tys: List<Ty>, c: Cursor, limit: nat)
    requires Live(env, c) && ReadAll(env, room, tys, c).Done?
    ensures ReadAll(env, room, tys, c).next.pos >= c.pos + MinimumAll(env.schema, env.wire, tys, limit)
    decreases room, MaxHeight(tys), 1, tys
  {
    match tys {
      case Nil =>
      case Cons(ty, rest) =>
        ConsumesMinimum(env, room, ty, c, limit);
        ConsumesMinimumAll(env, room, rest, ReadTy(env, room, ty, c).next, limit);
    }
  }

  ghost predicate SameSuccess<T>(a: Step<T>, b: Step<T>) {
    if a.Done? || b.Done? then a == b else true
  }

  /**
   With the test and without it, a reader succeeds on the same payloads with the same value,
   position and charge, whatever the limits; only the reported failure may differ.
   */
  lemma {:induction false} EarlyIsInvisible(env: Env, room: nat, ty: Ty, c: Cursor)
    requires Live(env, c)
    ensures SameSuccess(ReadTy(env.(early := true), room, ty, c), ReadTy(env.(early := false), room, ty, c))
    decreases room, Height(ty), 0, 0
  {
    var on, off := env.(early := true), env.(early := false);
    match ty {
      case Named(id) =>
        if room > 0 {
          EarlyIsInvisibleAll(env, room - 1, Fields(env.schema, env.wire, id), c);
        }
      case Array(n, e) =>
        RepeatHeight(n, e);
        EarlyIsInvisibleAll(env, room, Repeat(n, e), c);
      case Sequence(bound, e) =>
        var length := ReadLength(off, bound, e, c);
        if length.Done? {
          RepeatHeight(length.value, e);
          EarlyIsInvisibleAll(env, room, Repeat(length.value, e), length.next);
        }
        SequenceEarly(env, room, bound, e, c);
      case Text(bound) => TextEarly(env, bound, c);
      case Scalar(p) => assert ReadRaw(on, c, Width(p)) == ReadRaw(off, c, Width(p));
    }
  }

  lemma {:induction false} SequenceEarly(env: Env, room: nat, bound: nat, e: Ty, c: Cursor)
    requires Live(env, c)
    requires var length := ReadLength(env.(early := false), bound, e, c);
             length.Done? ==>
               SameSuccess(ReadAll(env.(early := true), room, Repeat(length.value, e), length.next),
                           ReadAll(env.(early := false), room, Repeat(length.value, e), length.next))
    ensures SameSuccess(ReadTy(env.(early := true), room, Sequence(bound, e), c),
                        ReadTy(env.(early := false), room, Sequence(bound, e), c))
  {
    var on, off := env.(early := true), env.(early := false);
    LengthEarly(env, bound, e, c);
    if ReadLength(off, bound, e, c).Done? && ReadLength(on, bound, e, c).Fail? {
      RejectedEarlyWouldFail(off, room, bound, e, c);
      assert off.(early := true) == on;
    }
  }

  lemma {:induction false} TextEarly(env: Env, bound: nat, c: Cursor)
    requires Live(env, c)
    ensures ReadText(env.(early := true), bound, c) == ReadText(env.(early := false), bound, c)
  {
    var on, off := env.(early := true), env.(early := false);
    var size := ReadRaw(on, c, 4);
    assert size == ReadRaw(off, c, 4);
    if size.Done? {
      TextBodyEarly(env, size.value, size.next);
    }
  }

  lemma {:induction false} TextBodyEarly(env: Env, size: nat, c: Cursor)
    requires Live(env, c)
    ensures ReadTextBody(env.(early := true), size, c) == ReadTextBody(env.(early := false), size, c)
  {
  }

  lemma {:induction false} LengthEarly(env: Env, bound: nat, e: Ty, c: Cursor)
    requires Live(env, c)
    ensures var on := ReadLength(env.(early := true), bound, e, c);
            var off := ReadLength(env.(early := false), bound, e, c);
            on == off || on.Fail?
  {
    var on, off := env.(early := true), env.(early := false);
    assert ReadRaw(on, c, 4) == ReadRaw(off, c, 4);
  }

  lemma {:induction false} EarlyIsInvisibleAll(env: Env, room: nat, tys: List<Ty>, c: Cursor)
    requires Live(env, c)
    ensures SameSuccess(ReadAll(env.(early := true), room, tys, c), ReadAll(env.(early := false), room, tys, c))
    decreases room, MaxHeight(tys), 1, tys
  {
    match tys {
      case Nil =>
      case Cons(ty, rest) =>
        EarlyIsInvisible(env, room, ty, c);
        var first := ReadTy(env.(early := false), room, ty, c);
        if first.Done? {
          EarlyIsInvisibleAll(env, room, rest, first.next);
        }
    }
  }

  /** If only the early test rejects a length, reading that many elements runs out of payload. */
  lemma {:induction false} RejectedEarlyWouldFail(env: Env, room: nat, bound: nat, e: Ty, c: Cursor)
    requires Live(env, c) && !env.early
    requires ReadLength(env, bound, e, c).Done?
    requires ReadLength(env.(early := true), bound, e, c) != ReadLength(env, bound, e, c)
    ensures var length := ReadLength(env, bound, e, c);
            ReadAll(env, room, Repeat(length.value, e), length.next).Fail?
  {
    var length := ReadLength(env, bound, e, c);
    var count, from := length.value, length.next;
    var minimum := Minimum(env.schema, env.wire, e);
    var left := |env.bytes| - from.pos;
    assert minimum != 0 && count > left / minimum;
    QuotientTest(count, minimum, left);
    var all := ReadAll(env, room, Repeat(count, e), from);
    if all.Done? {
      ConsumesMinimumAll(env, room, Repeat(count, e), from, |env.schema.types|);
      MinimumRepeat(env.schema, env.wire, count, e, |env.schema.types|);
      assert false;
    }
  }

  /** The early test never changes what a whole payload decodes to. */
  lemma {:induction false} EarlyRejectionIsPureOptimisation(s: Schema, ros1: bool, id: nat, bytes: seq<byte>,
      limits: Limits, v: Value)
    requires id < |s.types|
    ensures Decode(s, ros1, id, bytes, limits, true) == Good(v)
       <==> Decode(s, ros1, id, bytes, limits, false) == Good(v)
  {
    if ros1 || (|bytes| >= 4 && bytes[0] == 0 && (bytes[1] == 0 || bytes[1] == 1)) {
      var wire := if ros1 then Ros1 else Cdr(bytes[1] == 1);
      var env := Env(s, wire, bytes, limits, true);
      if s.types[id].size <= limits.storage {
        EarlyIsInvisible(env, limits.depth, Named(id), Cursor(Origin(wire), s.types[id].size));
      }
    }
  }
}
