/**
 The reading rules of the two wire formats as one interpreter over a schema, and the encoder
 that the formats' specifications prescribe.  CDR alignment follows section 9.3 of OMG CORBA 3
 Part 2; the encapsulation header follows section 10 of DDSI-RTPS 2.2.
 */
module Codec {
  import opened Bytes
  import opened Lists
  import opened Schema

  datatype Limits = Limits(elements: nat, storage: nat, depth: nat)

  datatype Failure =
    | Truncated | TrailingBytes | BadEncapsulation | BadByteOrder
    | TextTooLong | NoTerminator | SequenceTooLong | CountExceedsPayload
    | ElementLimit | StorageLimit | DepthLimit

  /** How far a reader has come: bytes consumed and decoded storage charged. */
  datatype Cursor = Cursor(pos: nat, used: nat)

  datatype Step<T> = Done(value: T, next: Cursor) | Fail(e: Failure)

  /** `early` turns the comparison of a sequence's length with the remaining payload on or off. */
  datatype Env = Env(schema: Schema, wire: Wire, bytes: seq<byte>, limits: Limits, early: bool)

  /** CDR alignment is counted from the end of the encapsulation header. */
  const DATA_ORIGIN := 4

  ghost predicate Live(env: Env, c: Cursor) {
    && Origin(env.wire) <= c.pos <= |env.bytes|
    && c.used <= env.limits.storage
  }

  function Origin(w: Wire): nat {
    if w.Ros1? then 0 else DATA_ORIGIN
  }

  function Little(w: Wire): bool {
    w.Ros1? || w.little
  }

  predicate IsWidth(k: nat) {
    k == 1 || k == 2 || k == 4 || k == 8
  }

  /** Bytes skipped before an `alignment`-byte primitive; ROS1 packs its fields. */
  function Padding(w: Wire, pos: nat, alignment: nat): (pad: nat)
    requires Origin(w) <= pos && IsWidth(alignment)
    ensures pad < alignment
  {
    if w.Ros1? || alignment == 1 then 0
    else
      var remainder := Remainder(pos - DATA_ORIGIN, alignment);
      if remainder == 0 then 0 else alignment - remainder
  }

  /** `offset % alignment`, by repeated subtraction. */
  function Remainder(offset: nat, alignment: nat): (r: nat)
    requires alignment > 0
    ensures r < alignment
  {
    if offset < alignment then offset else Remainder(offset - alignment, alignment)
  }

  lemma {:induction false} RemainderIsModulo(offset: nat, alignment: nat)
    requires IsWidth(alignment)
    ensures Remainder(offset, alignment) == offset % alignment
  {
    if alignment == 1 {
      RemainderBy1(offset);
    } else if alignment == 2 {
      RemainderBy2(offset);
    } else if alignment == 4 {
      RemainderBy4(offset);
    } else {
      RemainderBy8(offset);
    }
  }

  lemma {:induction false} RemainderBy1(offset: nat)
    ensures Remainder(offset, 1) == offset % 1
  {
    if offset >= 1 {
      RemainderBy1(offset - 1);
    }
  }

  lemma {:induction false} RemainderBy2(offset: nat)
    ensures Remainder(offset, 2) == offset % 2
  {
    if offset >= 2 {
      RemainderBy2(offset - 2);
    }
  }

  lemma {:induction false} RemainderBy4(offset: nat)
    ensures Remainder(offset, 4) == offset % 4
  {
    if offset >= 4 {
      RemainderBy4(offset - 4);
    }
  }

  lemma {:induction false} RemainderBy8(offset: nat)
    ensures Remainder(offset, 8) == offset % 8
  {
    if offset >= 8 {
      RemainderBy8(offset - 8);
    }
  }

  /** CDR places every primitive at a multiple of its own size. */
  lemma {:induction false} PaddingAligns(w: Wire, pos: nat, alignment: nat)
    requires w.Cdr? && Origin(w) <= pos && IsWidth(alignment)
    ensures (pos + Padding(w, pos, alignment) - DATA_ORIGIN) % alignment == 0
  {
    var offset := pos - DATA_ORIGIN;
    RemainderIsModulo(offset, alignment);
    if alignment == 2 {
      RoundedUp2(offset);
    } else if alignment == 4 {
      RoundedUp4(offset);
    } else if alignment == 8 {
      RoundedUp8(offset);
    }
  }

  lemma {:induction false} RoundedUp2(offset: nat)
    ensures (offset + if offset % 2 == 0 then 0 else 2 - offset % 2) % 2 == 0
  {
  }

  lemma {:induction false} RoundedUp4(offset: nat)
    ensures (offset + if offset % 4 == 0 then 0 else 4 - offset % 4) % 4 == 0
  {
  }

  lemma {:induction false} RoundedUp8(offset: nat)
    ensures (offset + if offset % 8 == 0 then 0 else 8 - offset % 8) % 8 == 0
  {
  }

  // ----- reading -----

  /** An unsigned integer of k bytes, aligned to its own width in CDR. */
  function ReadRaw(env: Env, c: Cursor, k: nat): (r: Step<nat>)
    requires Live(env, c) && IsWidth(k)
    ensures r.Done? ==> Live(env, r.next) && r.value < Pow256(k)
    ensures r.Done? ==> r.next == Cursor(c.pos + Padding(env.wire, c.pos, k) + k, c.used)
  {
    var start := c.pos + Padding(env.wire, c.pos, k);
    if start + k > |env.bytes| then Fail(Truncated)
    else Done(Load(env.bytes, start, k, Little(env.wire)), Cursor(start + k, c.used))
  }

  function FromRaw(w: Wire, p: Prim, raw: nat): int {
    var span := Pow256(Width(p));
    if p.Bool? then (if raw != 0 then 1 else 0)
    else if Signed(w, p) && raw >= span / 2 then raw - span
    else raw
  }

  function Charge(env: Env, c: Cursor, n: nat): (r: Step<()>)
    requires Live(env, c)
    ensures r.Done? ==> Live(env, r.next)
  {
    if n > env.limits.storage - c.used then Fail(StorageLimit) else Done((), c.(used := c.used + n))
  }

  function ReadText(env: Env, bound: nat, c: Cursor): (r: Step<Value>)
    requires Live(env, c)
    ensures r.Done? ==> Live(env, r.next) && c.pos <= r.next.pos && c.used <= r.next.used
  {
    match ReadRaw(env, c, 4)
    case Fail(e) => Fail(e)
    case Done(size, c1) =>
      if bound != 0 && size > (if env.wire.Ros1? then bound else bound + 1) then Fail(TextTooLong)
      else ReadTextBody(env, size, c1)
  }

  /** In CDR the announced size counts a terminating NUL, which is checked and dropped. */
  function ReadTextBody(env: Env, size: nat, c: Cursor): (r: Step<Value>)
    requires Live(env, c)
    ensures r.Done? ==> Live(env, r.next) && c.pos <= r.next.pos && c.used <= r.next.used
  {
    var end := c.pos + size;
    if end > |env.bytes| then Fail(Truncated)
    else if env.wire.Cdr? && (size == 0 || env.bytes[end - 1] != 0) then Fail(NoTerminator)
    else
      match Charge(env, Cursor(end, c.used), if env.wire.Ros1? then size + 1 else size)
      case Fail(e) => Fail(e)
      case Done(_, n) => Done(Str(env.bytes[c.pos..if env.wire.Ros1? then end else end - 1]), n)
  }

  /** `check_sequence`: the three tests before a vector is reserved, and the charge for it. */
  function CheckSequence(env: Env, c: Cursor, count: nat, elementSize: nat, minimum: nat): (r: Step<()>)
    requires Live(env, c)
    ensures r.Done? ==> Live(env, r.next) && c.used <= r.next.used
    ensures r.Done? ==> r.next == Cursor(c.pos, c.used + Times(count, elementSize))
  {
    if env.early && minimum != 0 && count > (|env.bytes| - c.pos) / minimum then Fail(CountExceedsPayload)
    else if count > env.limits.elements then Fail(ElementLimit)
    else if elementSize != 0 && count > (env.limits.storage - c.used) / elementSize then Fail(StorageLimit)
    else Charge(env, c, Times(count, elementSize))
  }

  /** A sequence's length prefix, checked against its declared bound and then by `CheckSequence`. */
  function ReadLength(env: Env, bound: nat, e: Ty, c: Cursor): (r: Step<nat>)
    requires Live(env, c)
    ensures r.Done? ==> Live(env, r.next) && c.pos <= r.next.pos && c.used <= r.next.used
  {
    match ReadRaw(env, c, 4)
    case Fail(f) => Fail(f)
    case Done(count, c1) =>
      if bound != 0 && count > bound then Fail(SequenceTooLong)
      else
        match CheckSequence(env, c1, count, SizeOf(env.schema, e), Minimum(env.schema, env.wire, e))
        case Fail(f) => Fail(f)
        case Done(_, c2) => Done(count, c2)
  }

  /** One value of type `ty`, with `room` more nested messages allowed. */
  function ReadTy(env: Env, room: nat, ty: Ty, c: Cursor): (r: Step<Value>)
    requires Live(env, c)
    ensures r.Done? ==> Live(env, r.next) && c.pos <= r.next.pos && c.used <= r.next.used
    decreases room, Height(ty), 0, 0
  {
    match ty
    case Scalar(p) =>
      (match ReadRaw(env, c, Width(p))
       case Fail(f) => Fail(f)
       case Done(raw, n) => Done(Num(FromRaw(env.wire, p, raw)), n))
    case Text(bound) => ReadText(env, bound, c)
    case Named(id) =>
      if room == 0 then Fail(DepthLimit)
      else
        (match ReadAll(env, room - 1, Fields(env.schema, env.wire, id), c)
         case Fail(f) => Fail(f)
         case Done(vs, n) => Done(Message(vs), n))
    case Array(count, e) =>
      RepeatHeight(count, e);
      (match ReadAll(env, room, Repeat(count, e), c)
       case Fail(f) => Fail(f)
       case Done(vs, n) => Done(Fixed(vs), n))
    case Sequence(bound, e) =>
      match ReadLength(env, bound, e, c)
      case Fail(f) => Fail(f)
      case Done(count, c1) =>
        RepeatHeight(count, e);
        match ReadAll(env, room, Repeat(count, e), c1)
        case Fail(f) => Fail(f)
        case Done(vs, n) => Done(Dynamic(vs), n)
  }

  /** The values of `tys` one after another: a message's fields, or the elements of a container. */
  function ReadAll(env: Env, room: nat, tys: List<Ty>, c: Cursor): (r: Step<List<Value>>)
    requires Live(env, c)
    ensures r.Done? ==> Live(env, r.next) && c.pos <= r.next.pos && c.used <= r.next.used
    decreases room, MaxHeight(tys), 1, tys
  {
    match tys
    case Nil => Done(Nil, c)
    case Cons(ty, rest) =>
      match ReadTy(env, room, ty, c)
      case Fail(f) => Fail(f)
      case Done(v, n) => Then(v, ReadAll(env, room, rest, n))
  }

  function Then(v: Value, r: Step<List<Value>>): Step<List<Value>> {
    match r
    case Fail(f) => Fail(f)
    case Done(vs, n) => Done(Cons(v, vs), n)
  }

  lemma {:induction false} ReadAllLength(env: Env, room: nat, tys: List<Ty>, c: Cursor)
    requires Live(env, c) && ReadAll(env, room, tys, c).Done?
    ensures Length(ReadAll(env, room, tys, c).value) == Length(tys)
    decreases tys
  {
    match tys
    case Nil =>
    case Cons(ty, rest) => ReadAllLength(env, room, rest, ReadTy(env, room, ty, c).next);
  }

  /** A sequence delivers as many elements as its length prefix announced. */
  lemma {:induction false} SequenceParts(env: Env, room: nat, bound: nat, e: Ty, c: Cursor)
      returns (count: nat, start: Cursor)
    requires Live(env, c) && ReadTy(env, room, Sequence(bound, e), c).Done?
    ensures ReadLength(env, bound, e, c) == Done(count, start)
    ensures var r := ReadTy(env, room, Sequence(bound, e), c);
            && r.value.Dynamic? && Length(r.value.items) == count
            && ReadAll(env, room, Repeat(count, e), start) == Done(r.value.items, r.next)
    ensures Live(env, start) && MaxHeight(Repeat(count, e)) <= Height(e)
  {
    var length := ReadLength(env, bound, e, c);
    count, start := length.value, length.next;
    RepeatHeight(count, e);
    LengthRepeat(count, e);
    ReadAllLength(env, room, Repeat(count, e), start);
  }

  lemma {:induction false} MessageFromParts(env: Env, room: nat, id: nat, c: Cursor, vs: List<Value>, n: Cursor)
    requires Live(env, c) && room > 0
    requires ReadAll(env, room - 1, Fields(env.schema, env.wire, id), c) == Done(vs, n)
    ensures ReadTy(env, room, Named(id), c) == Done(Message(vs), n)
  {
  }

  lemma {:induction false} SequenceFromParts(env: Env, room: nat, bound: nat, e: Ty, c: Cursor, count: nat,
      start: Cursor, vs: List<Value>, n: Cursor)
    requires Live(env, c) && ReadLength(env, bound, e, c) == Done(count, start)
    requires ReadAll(env, room, Repeat(count, e), start) == Done(vs, n)
    ensures ReadTy(env, room, Sequence(bound, e), c) == Done(Dynamic(vs), n)
  {
  }

  lemma {:induction false} AllFromParts(env: Env, room: nat, ty: Ty, rest: List<Ty>, c: Cursor, v: Value,
      next: Cursor, vs: List<Value>, n: Cursor)
    requires Live(env, c) && ReadTy(env, room, ty, c) == Done(v, next)
    requires ReadAll(env, room, rest, next) == Done(vs, n)
    ensures ReadAll(env, room, Cons(ty, rest), c) == Done(Cons(v, vs), n)
  {
  }

  datatype Decoded = Good(value: Value) | Rejected(e: Failure)

  /** `deserialize_ros1_*` and `deserialize_cdr_*`: the whole payload must be one object. */
  function Decode(s: Schema, ros1: bool, id: nat, bytes: seq<byte>, limits: Limits, early: bool): Decoded
    requires id < |s.types|
  {
    if !ros1 && (|bytes| < 4 || bytes[0] != 0) then Rejected(BadEncapsulation)
    else if !ros1 && bytes[1] != 0 && bytes[1] != 1 then Rejected(BadByteOrder)
    else
      var wire := if ros1 then Ros1 else Cdr(bytes[1] == 1);
      var env := Env(s, wire, bytes, limits, early);
      match Charge(env, Cursor(Origin(wire), 0), s.types[id].size)
      case Fail(e) => Rejected(e)
      case Done(_, c) =>
        match ReadTy(env, limits.depth, Named(id), c)
        case Fail(e) => Rejected(e)
        case Done(v, n) => if n.pos != |bytes| then Rejected(TrailingBytes) else Good(v)
  }

  // ----- writing -----

  function ToRaw(p: Prim, n: int): int {
    if n < 0 then n + Pow256(Width(p)) else n
  }

  function Zeros(n: nat): (bs: seq<byte>)
    ensures |bs| == n
  {
    if n == 0 then [] else [0] + Zeros(n - 1)
  }

  function PutRaw(w: Wire, raw: nat, k: nat, pos: nat): (bs: seq<byte>)
    requires Origin(w) <= pos && IsWidth(k)
    ensures |bs| == Padding(w, pos, k) + k
  {
    Zeros(Padding(w, pos, k)) + Store(raw, k, Little(w))
  }

  /** The bytes the format prescribes for `v` when the next byte is at `pos`. */
  function Put(s: Schema, w: Wire, ty: Ty, v: Value, pos: nat): seq<byte>
    requires Fits(s, w, ty, v) && Origin(w) <= pos
    decreases v
  {
    match ty
    case Scalar(p) => PutRaw(w, ToRaw(p, v.n), Width(p), pos)
    case Text(_) =>
      if w.Ros1? then PutRaw(w, |v.s|, 4, pos) + v.s
      else PutRaw(w, |v.s| + 1, 4, pos) + (v.s + [0])
    case Named(id) => PutAll(s, w, Fields(s, w, id), v.items, pos)
    case Array(n, e) => PutAll(s, w, Repeat(n, e), v.items, pos)
    case Sequence(_, e) =>
      var header := PutRaw(w, Length(v.items), 4, pos);
      header + PutAll(s, w, Repeat(Length(v.items), e), v.items, pos + |header|)
  }

  function PutAll(s: Schema, w: Wire, tys: List<Ty>, vs: List<Value>, pos: nat): seq<byte>
    requires FitsAll(s, w, tys, vs) && Origin(w) <= pos
    decreases vs
  {
    match (tys, vs)
    case (Cons(ty, moreTys), Cons(v, moreVs)) =>
      var first := Put(s, w, ty, v, pos);
      first + PutAll(s, w, moreTys, moreVs, pos + |first|)
    case _ => []
  }

  function Encapsulation(w: Wire): (header: seq<byte>)
    ensures |header| == Origin(w)
  {
    match w
    case Ros1 => []
    case Cdr(little) => [0, if little then 1 else 0, 0, 0]
  }

  function Encode(s: Schema, w: Wire, id: nat, v: Value): seq<byte>
    requires id < |s.types| && Fits(s, w, Named(id), v)
  {
    Encapsulation(w) + Put(s, w, Named(id), v, Origin(w))
  }
}
