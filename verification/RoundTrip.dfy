/** Reading back what the formats prescribe, and the exact limits under which a payload decodes. */
module RoundTrip {
  import opened Bytes
  import opened Lists
  import opened Schema
  import opened Codec
  import opened Budget
  import opened WireBound

  lemma {:induction false} RawInverse(w: Wire, p: Prim, n: int)
    requires InRange(w, p, n)
    ensures 0 <= ToRaw(p, n) < Pow256(Width(p)) && FromRaw(w, p, ToRaw(p, n)) == n
  {
    Pow256At8();
  }

  lemma {:induction false} PutRawThenRead(env: Env, raw: nat, k: nat, c: Cursor)
    requires Live(env, c) && IsWidth(k) && raw < Pow256(k)
    requires At(env.bytes, c.pos, PutRaw(env.wire, raw, k, c.pos))
    ensures ReadRaw(env, c, k) == Done(raw, Cursor(c.pos + |PutRaw(env.wire, raw, k, c.pos)|, c.used))
  {
    StoredThenLoaded(env.bytes, c.pos, Padding(env.wire, c.pos, k), raw, k, Little(env.wire));
  }

  lemma {:induction false} StoredThenLoaded(bytes: seq<byte>, pos: nat, pad: nat, raw: nat, k: nat, little: bool)
    requires raw < Pow256(k) && At(bytes, pos, Zeros(pad) + Store(raw, k, little))
    ensures pos + pad + k <= |bytes| && Load(bytes, pos + pad, k, little) == raw
  {
    AtSplit(bytes, pos, Zeros(pad), Store(raw, k, little));
    LoadStored(bytes, pos + pad, raw, k, little);
  }

  /**
   At any position and alignment, and in either byte order, reading the prescribed bytes of a value
   gives the value back, stops at their end, and charges the value's cost.
   */
  lemma {:induction false} PutThenRead(env: Env, room: nat, ty: Ty, v: Value, c: Cursor)
    requires Live(env, c) && !env.early && Fits(env.schema, env.wire, ty, v)
    requires At(env.bytes, c.pos, Put(env.schema, env.wire, ty, v, c.pos))
    requires Covers(env.limits, room, v) && c.used + Storage(env.schema, env.wire, ty, v) <= env.limits.storage
    ensures ReadTy(env, room, ty, c)
            == Done(v, Cursor(c.pos + |Put(env.schema, env.wire, ty, v, c.pos)|,
                              c.used + Storage(env.schema, env.wire, ty, v)))
    decreases v, 1
  {
    match ty {
      case Scalar(p) =>
        RawInverse(env.wire, p, v.n);
        PutRawThenRead(env, ToRaw(p, v.n), Width(p), c);
      case Text(bound) => PutTextThenRead(env, bound, v, c);
      case Named(id) =>
        PutAllThenRead(env, room - 1, Fields(env.schema, env.wire, id), v.items, c);
      case Array(n, e) =>
        PutAllThenRead(env, room, Repeat(n, e), v.items, c);
      case Sequence(bound, e) =>
        PutSequenceThenRead(env, room, bound, e, v, c);
    }
  }

  lemma {:induction false} PutSequenceThenRead(env: Env, room: nat, bound: nat, e: Ty, v: Value, c: Cursor)
    requires Live(env, c) && !env.early && Fits(env.schema, env.wire, Sequence(bound, e), v)
    requires At(env.bytes, c.pos, Put(env.schema, env.wire, Sequence(bound, e), v, c.pos))
    requires Covers(env.limits, room, v)
    requires c.used + Storage(env.schema, env.wire, Sequence(bound, e), v) <= env.limits.storage
    ensures ReadTy(env, room, Sequence(bound, e), c)
            == Done(v, Cursor(c.pos + |Put(env.schema, env.wire, Sequence(bound, e), v, c.pos)|,
                              c.used + Storage(env.schema, env.wire, Sequence(bound, e), v)))
    decreases v, 0
  {
    var count := Length(v.items);
    var header := PutRaw(env.wire, count, 4, c.pos);
    PutSequenceParts(env, bound, e, v, c.pos);
    PutLengthThenRead(env, bound, e, count, c);
    var start := Cursor(c.pos + |header|, c.used + Times(count, SizeOf(env.schema, e)));
    PutItemsThenRead(env, room, bound, e, v.items, c, start);
  }

  /** A sequence is written as its length and its elements. */
  lemma {:induction false} PutSequenceParts(env: Env, bound: nat, e: Ty, v: Value, pos: nat)
    requires Origin(env.wire) <= pos && Fits(env.schema, env.wire, Sequence(bound, e), v)
    requires At(env.bytes, pos, Put(env.schema, env.wire, Sequence(bound, e), v, pos))
    ensures var count := Length(v.items);
            var header := PutRaw(env.wire, count, 4, pos);
            && At(env.bytes, pos, header)
            && At(env.bytes, pos + |header|,
                  PutAll(env.schema, env.wire, Repeat(count, e), v.items, pos + |header|))
            && |Put(env.schema, env.wire, Sequence(bound, e), v, pos)|
               == |header| + |PutAll(env.schema, env.wire, Repeat(count, e), v.items, pos + |header|)|
  {
    var count := Length(v.items);
    var header := PutRaw(env.wire, count, 4, pos);
    AtSplit(env.bytes, pos, header, PutAll(env.schema, env.wire, Repeat(count, e), v.items, pos + |header|));
  }

  lemma {:induction false} PutItemsThenRead(env: Env, room: nat, bound: nat, e: Ty, vs: List<Value>, c: Cursor,
      start: Cursor)
    requires Live(env, c) && Live(env, start) && !env.early && ReadLength(env, bound, e, c) == Done(Length(vs), start)
    requires FitsAll(env.schema, env.wire, Repeat(Length(vs), e), vs) && CoversAll(env.limits, room, vs)
    requires At(env.bytes, start.pos, PutAll(env.schema, env.wire, Repeat(Length(vs), e), vs, start.pos))
    requires start.used + StorageOf(env.schema, env.wire, Repeat(Length(vs), e), vs) <= env.limits.storage
    ensures ReadTy(env, room, Sequence(bound, e), c)
            == Done(Dynamic(vs),
                    Cursor(start.pos + |PutAll(env.schema, env.wire, Repeat(Length(vs), e), vs, start.pos)|,
                           start.used + StorageOf(env.schema, env.wire, Repeat(Length(vs), e), vs)))
    decreases vs, 1
  {
    PutAllThenRead(env, room, Repeat(Length(vs), e), vs, start);
    var end := ReadAll(env, room, Repeat(Length(vs), e), start).next;
    SequenceFromParts(env, room, bound, e, c, Length(vs), start, vs, end);
  }

  lemma {:induction false} PutWordThenRead(env: Env, raw: nat, c: Cursor)
    requires Live(env, c) && raw <= U32_MAX && At(env.bytes, c.pos, PutRaw(env.wire, raw, 4, c.pos))
    ensures ReadRaw(env, c, 4) == Done(raw, Cursor(c.pos + |PutRaw(env.wire, raw, 4, c.pos)|, c.used))
  {
    Pow256At8();
    PutRawThenRead(env, raw, 4, c);
  }

  lemma {:induction false} PutLengthThenRead(env: Env, bound: nat, e: Ty, count: nat, c: Cursor)
    requires Live(env, c) && !env.early && count <= U32_MAX && (bound != 0 ==> count <= bound)
    requires At(env.bytes, c.pos, PutRaw(env.wire, count, 4, c.pos))
    requires count <= env.limits.elements && c.used + Times(count, SizeOf(env.schema, e)) <= env.limits.storage
    ensures ReadLength(env, bound, e, c)
            == Done(count, Cursor(c.pos + |PutRaw(env.wire, count, 4, c.pos)|,
                                  c.used + Times(count, SizeOf(env.schema, e))))
  {
    PutWordThenRead(env, count, c);
    if SizeOf(env.schema, e) != 0 {
      QuotientTest(count, SizeOf(env.schema, e), env.limits.storage - c.used);
    }
  }

  lemma {:induction false} PutTextThenRead(env: Env, bound: nat, v: Value, c: Cursor)
    requires Live(env, c) && Fits(env.schema, env.wire, Text(bound), v)
    requires At(env.bytes, c.pos, Put(env.schema, env.wire, Text(bound), v, c.pos))
    requires c.used + |v.s| + 1 <= env.limits.storage
    ensures ReadText(env, bound, c)
            == Done(v, Cursor(c.pos + |Put(env.schema, env.wire, Text(bound), v, c.pos)|, c.used + |v.s| + 1))
  {
    var stored := if env.wire.Ros1? then |v.s| else |v.s| + 1;
    var header := PutRaw(env.wire, stored, 4, c.pos);
    PutTextParts(env, bound, v, c.pos);
    PutWordThenRead(env, stored, c);
    PutTextBodyThenRead(env, v.s, Cursor(c.pos + |header|, c.used));
  }

  /** A string is written as its size and its bytes, in CDR with a terminator that counts. */
  lemma {:induction false} PutTextParts(env: Env, bound: nat, v: Value, pos: nat)
    requires Origin(env.wire) <= pos && Fits(env.schema, env.wire, Text(bound), v)
    requires At(env.bytes, pos, Put(env.schema, env.wire, Text(bound), v, pos))
    ensures var header := PutRaw(env.wire, if env.wire.Ros1? then |v.s| else |v.s| + 1, 4, pos);
            var body: seq<byte> := if env.wire.Ros1? then v.s else v.s + [0];
            && At(env.bytes, pos, header) && At(env.bytes, pos + |header|, body)
            && |Put(env.schema, env.wire, Text(bound), v, pos)| == |header| + |body|
  {
    var header := PutRaw(env.wire, if env.wire.Ros1? then |v.s| else |v.s| + 1, 4, pos);
    AtSplit(env.bytes, pos, header, if env.wire.Ros1? then v.s else v.s + [0]);
  }

  lemma {:induction false} PutTextBodyThenRead(env: Env, s: seq<byte>, c: Cursor)
    requires Live(env, c) && c.used + |s| + 1 <= env.limits.storage
    requires At(env.bytes, c.pos, if env.wire.Ros1? then s else s + [0])
    ensures var stored := if env.wire.Ros1? then |s| else |s| + 1;
            ReadTextBody(env, stored, c) == Done(Str(s), Cursor(c.pos + stored, c.used + |s| + 1))
  {
    if env.wire.Cdr? {
      AtSnoc(env.bytes, c.pos, s, 0);
    }
    AtSlice(env.bytes, c.pos, s);
  }

  lemma {:induction false} PutAllParts(env: Env, ty: Ty, moreTys: List<Ty>, v: Value, moreVs: List<Value>, pos: nat)
    requires Origin(env.wire) <= pos && FitsAll(env.schema, env.wire, Cons(ty, moreTys), Cons(v, moreVs))
    requires At(env.bytes, pos, PutAll(env.schema, env.wire, Cons(ty, moreTys), Cons(v, moreVs), pos))
    ensures var first := Put(env.schema, env.wire, ty, v, pos);
            && At(env.bytes, pos, first)
            && At(env.bytes, pos + |first|, PutAll(env.schema, env.wire, moreTys, moreVs, pos + |first|))
            && |PutAll(env.schema, env.wire, Cons(ty, moreTys), Cons(v, moreVs), pos)|
               == |first| + |PutAll(env.schema, env.wire, moreTys, moreVs, pos + |first|)|
  {
    var first := Put(env.schema, env.wire, ty, v, pos);
    AtSplit(env.bytes, pos, first, PutAll(env.schema, env.wire, moreTys, moreVs, pos + |first|));
  }

  lemma {:induction false} PutAllThenRead(env: Env, room: nat, tys: List<Ty>, vs: List<Value>, c: Cursor)
    requires Live(env, c) && !env.early && FitsAll(env.schema, env.wire, tys, vs)
    requires At(env.bytes, c.pos, PutAll(env.schema, env.wire, tys, vs, c.pos))
    requires CoversAll(env.limits, room, vs) && c.used + StorageOf(env.schema, env.wire, tys, vs) <= env.limits.storage
    ensures ReadAll(env, room, tys, c)
            == Done(vs, Cursor(c.pos + |PutAll(env.schema, env.wire, tys, vs, c.pos)|,
                               c.used + StorageOf(env.schema, env.wire, tys, vs)))
    decreases vs, 0
  {
    match (tys, vs) {
      case (Cons(ty, moreTys), Cons(v, moreVs)) =>
        var first := Put(env.schema, env.wire, ty, v, c.pos);
        PutAllParts(env, ty, moreTys, v, moreVs, c.pos);
        PutThenRead(env, room, ty, v, c);
        var next := Cursor(c.pos + |first|, c.used + Storage(env.schema, env.wire, ty, v));
        PutAllThenRead(env, room, moreTys, moreVs, next);
        var end := ReadAll(env, room, moreTys, next).next;
        AllFromParts(env, room, ty, moreTys, c, v, next, moreVs, end);
      case _ =>
    }
  }

  // ----- whole payloads -----

  /** The limits under which a root object with contents `v` can be decoded, and no others. */
  ghost predicate Within(s: Schema, w: Wire, id: nat, v: Value, limits: Limits)
    requires id < |s.types|
  {
    && Widest(v) <= limits.elements
    && s.types[id].size + Storage(s, w, Named(id), v) <= limits.storage
    && Depth(v) <= limits.depth
  }

  function Ample(s: Schema, w: Wire, id: nat, v: Value): Limits
    requires id < |s.types|
  {
    Limits(Widest(v), s.types[id].size + Storage(s, w, Named(id), v), Depth(v))
  }

  /** The wire format a payload announces. */
  function Announced(ros1: bool, bytes: seq<byte>): Wire {
    if ros1 then Ros1 else Cdr(|bytes| > 1 && bytes[1] == 1)
  }

  /** A whole payload decodes to `v` only if its format can carry `v` and the limits cover it. */
  lemma {:induction false} DecodedIsAccounted(s: Schema, ros1: bool, id: nat, bytes: seq<byte>, limits: Limits,
      early: bool, v: Value)
    requires id < |s.types| && Decode(s, ros1, id, bytes, limits, early) == Good(v)
    ensures Fits(s, Announced(ros1, bytes), Named(id), v)
    ensures Within(s, Announced(ros1, bytes), id, v, limits)
  {
    var w := Announced(ros1, bytes);
    var env := Env(s, w, bytes, limits, early);
    ReadIsAccounted(env, limits.depth, Named(id), Cursor(Origin(w), s.types[id].size));
  }

  /**
   The limits are exact thresholds.  A payload that decodes to `v` under any limits at all decodes
   under others if and only if they cover the cost of `v`, and then to the same value: so
   `max_decoded_bytes` is compared with the root size plus every count times element size plus
   every string length plus one, and raising a limit never changes a result.
   */
  lemma {:induction false} LimitsAreExact(s: Schema, ros1: bool, id: nat, bytes: seq<byte>, some: Limits,
      limits: Limits, early: bool, v: Value)
    requires id < |s.types| && Decode(s, ros1, id, bytes, some, early) == Good(v)
    ensures Decode(s, ros1, id, bytes, limits, early).Good? <==> Within(s, Announced(ros1, bytes), id, v, limits)
    ensures Decode(s, ros1, id, bytes, limits, early).Good? ==> Decode(s, ros1, id, bytes, limits, early) == Good(v)
  {
    var w := Announced(ros1, bytes);
    if Within(s, w, id, v, limits) {
      DecodeUnder(s, ros1, id, bytes, some, limits, early, v);
    }
    match Decode(s, ros1, id, bytes, limits, early)
    case Rejected(_) =>
    case Good(v') =>
      var both := Limits(some.elements + limits.elements, some.storage + limits.storage, some.depth + limits.depth);
      DecodedIsAccounted(s, ros1, id, bytes, some, early, v);
      DecodedIsAccounted(s, ros1, id, bytes, limits, early, v');
      DecodeUnder(s, ros1, id, bytes, some, both, early, v);
      DecodeUnder(s, ros1, id, bytes, limits, both, early, v');
  }

  lemma {:induction false} DecodeUnder(s: Schema, ros1: bool, id: nat, bytes: seq<byte>, some: Limits,
      limits: Limits, early: bool, v: Value)
    requires id < |s.types| && Decode(s, ros1, id, bytes, some, early) == Good(v)
    requires Within(s, Announced(ros1, bytes), id, v, limits)
    ensures Decode(s, ros1, id, bytes, limits, early) == Good(v)
  {
    var w := Announced(ros1, bytes);
    var env, env' := Env(s, w, bytes, some, early), Env(s, w, bytes, limits, early);
    var c := Cursor(Origin(w), s.types[id].size);
    var n := ReadTy(env, some.depth, Named(id), c).next;
    CoveringLimitsSuffice(env, some.depth, Named(id), c, v, n, env', limits.depth, c);
  }

  /**
   Round trip.  The prescribed payload of every value the format can carry, in ROS1 or in either
   CDR byte order, decodes to exactly that value whenever the limits cover it, and to no value
   otherwise.
   */
  lemma {:induction false} EncodeThenDecode(s: Schema, w: Wire, id: nat, v: Value, limits: Limits, early: bool)
    requires id < |s.types| && Fits(s, w, Named(id), v)
    ensures var r := Decode(s, w.Ros1?, id, Encode(s, w, id, v), limits, early);
            if Within(s, w, id, v, limits) then r == Good(v) else r.Rejected?
  {
    var ample := Ample(s, w, id, v);
    EncodeThenDecodeAmply(s, w, id, v, ample);
    var bytes := Encode(s, w, id, v);
    EarlyRejectionIsPureOptimisation(s, w.Ros1?, id, bytes, ample, v);
    LimitsAreExact(s, w.Ros1?, id, bytes, ample, limits, early, v);
  }

  lemma {:induction false} EncodeThenDecodeAmply(s: Schema, w: Wire, id: nat, v: Value, limits: Limits)
    requires id < |s.types| && Fits(s, w, Named(id), v) && Within(s, w, id, v, limits)
    ensures Decode(s, w.Ros1?, id, Encode(s, w, id, v), limits, false) == Good(v)
    ensures Announced(w.Ros1?, Encode(s, w, id, v)) == w
  {
    var bytes := Encode(s, w, id, v);
    var body := Put(s, w, Named(id), v, Origin(w));
    var env := Env(s, w, bytes, limits, false);
    AtSuffix(Encapsulation(w), body);
    if w.Cdr? {
      assert bytes[0] == Encapsulation(w)[0] && bytes[1] == Encapsulation(w)[1];
    }
    PutThenRead(env, limits.depth, Named(id), v, Cursor(Origin(w), s.types[id].size));
  }

  lemma {:induction false} AtSuffix(a: seq<byte>, b: seq<byte>)
    ensures At(a + b, |a|, b)
  {
  }

  /**
   Every accepted payload, whatever its padding bytes and however its booleans were written, decodes
   to the value of a canonical payload that decodes to the same value under the same limits.
   */
  lemma {:induction false} AcceptedHasCanonicalForm(s: Schema, ros1: bool, id: nat, bytes: seq<byte>,
      limits: Limits, early: bool, v: Value)
    requires id < |s.types| && Decode(s, ros1, id, bytes, limits, early) == Good(v)
    ensures Fits(s, Announced(ros1, bytes), Named(id), v)
    ensures Decode(s, ros1, id, Encode(s, Announced(ros1, bytes), id, v), limits, early) == Good(v)
  {
    DecodedIsAccounted(s, ros1, id, bytes, limits, early, v);
    EncodeThenDecode(s, Announced(ros1, bytes), id, v, limits, early);
  }
}
