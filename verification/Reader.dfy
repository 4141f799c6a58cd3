/**
 The mutable cursor shared by the ROS1 and CDR readers, and the generated `read_*` functions as one
 interpreter over a schema.  Every method is tied to the interpreter of module Codec.
 */
module Reader {
  import opened Bytes
  import opened Lists
  import opened Schema
  import opened Codec

  datatype Read<T> = Got(v: T) | Thrown(e: Failure)

  function Prepend(vs: List<Value>, r: Step<List<Value>>): Step<List<Value>> {
    match r
    case Fail(f) => Fail(f)
    case Done(rest, n) => Done(Concat(vs, rest), n)
  }

  lemma {:induction false} PrependThen(vs: List<Value>, v: Value, r: Step<List<Value>>)
    ensures Prepend(Concat(vs, Cons(v, Nil)), r) == Prepend(vs, Then(v, r))
  {
    if r.Done? {
      ConcatSnoc(vs, v, r.value);
    }
  }

  function Octets(bs: seq<byte>): List<Value> {
    if bs == [] then Nil else Cons(Num(bs[0]), Octets(bs[1..]))
  }

  /** Reading single bytes one after another is reading them all at once. */
  lemma {:induction false} BytesAtOnce(env: Env, room: nat, n: nat, c: Cursor)
    requires Live(env, c)
    ensures ReadAll(env, room, Repeat(n, Scalar(U8)), c)
            == if c.pos + n <= |env.bytes| then Done(Octets(env.bytes[c.pos..c.pos + n]), Cursor(c.pos + n, c.used))
               else Fail(Truncated)
    decreases n
  {
    if n > 0 && c.pos < |env.bytes| {
      var next := Cursor(c.pos + 1, c.used);
      assert ReadTy(env, room, Scalar(U8), c) == Done(Num(env.bytes[c.pos]), next);
      BytesAtOnce(env, room, n - 1, next);
      if c.pos + n <= |env.bytes| {
        var bs := env.bytes[c.pos..c.pos + n];
        assert bs[0] == env.bytes[c.pos] && bs[1..] == env.bytes[c.pos + 1..c.pos + n];
      }
    }
  }

  class Reader {
    const schema: Schema
    const wire: Wire
    const bytes: seq<byte>
    const limits: Limits
    var position: Size
    var used: Size
    var depth: Size

    ghost const env: Env := Env(schema, wire, bytes, limits, true)

    ghost predicate Valid()
      reads this
    {
      && |bytes| <= SIZE_MAX && limits.storage <= SIZE_MAX && limits.depth <= SIZE_MAX
      && Origin(wire) <= position <= |bytes|
      && used <= limits.storage
      && depth <= limits.depth
    }

    ghost function Here(): Cursor
      reads this
    {
      Cursor(position, used)
    }

    /** Both reader constructors: a CDR payload starts with its encapsulation header. */
    constructor (schema: Schema, wire: Wire, bytes: seq<byte>, limits: Limits)
      requires |bytes| <= SIZE_MAX && limits.storage <= SIZE_MAX && limits.depth <= SIZE_MAX
      requires Origin(wire) <= |bytes|
      ensures Valid() && Here() == Cursor(Origin(wire), 0) && depth == 0
      ensures this.schema == schema && this.wire == wire && this.bytes == bytes && this.limits == limits
    {
      this.schema, this.wire, this.bytes, this.limits := schema, wire, bytes, limits;
      position, used, depth := Origin(wire), 0, 0;
    }

    method ReadBytes(size: Size) returns (r: Read<seq<byte>>)
      requires Valid()
      modifies this`position
      ensures Valid()
      ensures if old(position) + size <= |bytes|
              then r == Got(bytes[old(position)..old(position) + size]) && position == old(position) + size
              else r == Thrown(Truncated) && position == old(position)
    {
      if size > |bytes| - position {
        return Thrown(Truncated);
      }
      r := Got(bytes[position..position + size]);
      position := position + size;
    }

    method AccountAllocation(size: Size) returns (r: Read<()>)
      requires Valid()
      modifies this`used
      ensures Valid()
      ensures match Charge(env, old(Here()), size)
              case Done(_, n) => r == Got(()) && Here() == n
              case Fail(e) => r == Thrown(e)
    {
      if size > limits.storage - used {
        return Thrown(StorageLimit);
      }
      used := used + size;
      r := Got(());
    }

    method CheckSequence(count: Size, elementSize: nat, minimum: nat) returns (r: Read<()>)
      requires Valid()
      modifies this`used
      ensures Valid()
      ensures match Codec.CheckSequence(env, old(Here()), count, elementSize, minimum)
              case Done(_, n) => r == Got(()) && Here() == n
              case Fail(e) => r == Thrown(e)
    {
      if minimum != 0 && count > (|bytes| - position) / minimum {
        return Thrown(CountExceedsPayload);
      }
      if count > limits.elements {
        return Thrown(ElementLimit);
      }
      if elementSize != 0 && count > (limits.storage - used) / elementSize {
        return Thrown(StorageLimit);
      }
      TimesIsProduct(count, elementSize);
      if elementSize != 0 {
        QuotientTest(count, elementSize, limits.storage - used);
      }
      r := AccountAllocation(count * elementSize);
    }

    /** `align`, which only CDR readers call. */
    method Align(alignment: Size) returns (r: Read<()>)
      requires Valid() && IsWidth(alignment)
      modifies this`position
      ensures Valid()
      ensures var pad := Padding(wire, old(position), alignment);
              if old(position) + pad <= |bytes| then r == Got(()) && position == old(position) + pad
              else r == Thrown(Truncated)
    {
      r := Got(());
      if wire.Cdr? {
        var remainder := (position - DATA_ORIGIN) % alignment;
        RemainderIsModulo(position - DATA_ORIGIN, alignment);
        if remainder != 0 {
          var skipped := ReadBytes(alignment - remainder);
          if skipped.Thrown? {
            return Thrown(skipped.e);
          }
        }
      }
    }

    method ReadUnsigned(width: Size) returns (r: Read<nat>)
      requires Valid() && IsWidth(width)
      modifies this`position
      ensures Valid()
      ensures match ReadRaw(env, old(Here()), width)
              case Done(raw, n) => r == Got(raw) && Here() == n
              case Fail(e) => r == Thrown(e)
    {
      var aligned := Align(width);
      if aligned.Thrown? {
        return Thrown(aligned.e);
      }
      var start := position;
      var data := ReadBytes(width);
      if data.Thrown? {
        return Thrown(data.e);
      }
      LoadView(bytes, start, width, 0, width, Little(wire));
      if width == 8 {
        var value := Load64(data.v, Little(wire));
        r := Got(value);
      } else {
        r := Got(Load(data.v, 0, width, Little(wire)));
      }
    }

    /** `string` and `bounded_string` of both readers; a bound of 0 stands for the default bound. */
    method ReadString(bound: nat) returns (r: Read<Value>)
      requires Valid()
      modifies this`position, this`used
      ensures Valid()
      ensures match ReadText(env, bound, old(Here()))
              case Done(v, n) => r == Got(v) && Here() == n
              case Fail(e) => r == Thrown(e)
    {
      Pow256At8();
      var size := ReadUnsigned(4);
      if size.Thrown? {
        return Thrown(size.e);
      }
      if bound != 0 && (if wire.Ros1? then size.v > bound else size.v != 0 && size.v - 1 > bound) {
        return Thrown(TextTooLong);
      }
      r := ReadStringBody(size.v);
    }

    /** The announced bytes of a string, its terminator, and what it is charged. */
    method ReadStringBody(size: Size) returns (r: Read<Value>)
      requires Valid() && size <= U32_MAX
      modifies this`position, this`used
      ensures Valid()
      ensures match ReadTextBody(env, size, old(Here()))
              case Done(v, n) => r == Got(v) && Here() == n
              case Fail(e) => r == Thrown(e)
    {
      var start := position;
      var body := ReadBytes(size);
      if body.Thrown? {
        return Thrown(body.e);
      }
      if wire.Cdr? && (size == 0 || body.v[size - 1] != 0) {
        return Thrown(NoTerminator);
      }
      var charged := AccountAllocation(if wire.Ros1? then size + 1 else size);
      if charged.Thrown? {
        return Thrown(charged.e);
      }
      assert wire.Cdr? ==> body.v[..size - 1] == bytes[start..start + size - 1];
      r := Got(Str(if wire.Ros1? then body.v else body.v[..size - 1]));
    }

    /** `read_byte_values`: a `uint8` sequence is copied in one piece. */
    method ReadByteValues(count: Size) returns (r: Read<List<Value>>)
      requires Valid()
      modifies this`position
      ensures Valid()
      ensures match ReadAll(env, limits.depth - depth, Repeat(count, Scalar(U8)), old(Here()))
              case Done(vs, n) => r == Got(vs) && Here() == n
              case Fail(e) => r == Thrown(e)
    {
      BytesAtOnce(env, limits.depth - depth, count, Here());
      var data := ReadBytes(count);
      r := match data case Thrown(e) => Thrown(e) case Got(bs) => Got(Octets(bs));
    }

    /**
     One value of type `ty`.  The nesting depth never exceeds its limit, and is back at its entry value
     on every way out, also when an exception passes through a `NestingGuard`.
     */
    method ReadValue(ty: Ty) returns (r: Read<Value>)
      requires Valid()
      modifies this`position, this`used, this`depth
      ensures Valid() && depth == old(depth)
      ensures match ReadTy(env, limits.depth - old(depth), ty, old(Here()))
              case Done(v, n) => r == Got(v) && Here() == n
              case Fail(e) => r == Thrown(e)
      decreases limits.depth - depth, Height(ty), 1
    {
      match ty
      case Scalar(p) =>
        var raw := ReadUnsigned(Width(p));
        r := match raw case Thrown(e) => Thrown(e) case Got(n) => Got(Num(FromRaw(wire, p, n)));
      case Text(bound) => r := ReadString(bound);
      case Named(id) =>
        if depth >= limits.depth {
          return Thrown(DepthLimit);
        }
        depth := depth + 1;
        var fields := ReadFields(Fields(schema, wire, id));
        depth := depth - 1;
        r := match fields case Thrown(e) => Thrown(e) case Got(vs) => Got(Message(vs));
      case Array(n, e) =>
        var items := ReadItems(n, e);
        r := match items case Thrown(f) => Thrown(f) case Got(vs) => Got(Fixed(vs));
      case Sequence(bound, e) => r := ReadSequence(bound, e);
    }

    /** The length prefix of a sequence and the tests made before anything is reserved for it. */
    method ReadLength(bound: nat, e: Ty) returns (r: Read<nat>)
      requires Valid()
      modifies this`position, this`used
      ensures Valid()
      ensures match Codec.ReadLength(env, bound, e, old(Here()))
              case Done(count, n) => r == Got(count) && Here() == n && count <= U32_MAX
              case Fail(f) => r == Thrown(f)
    {
      Pow256At8();
      var size := ReadUnsigned(4);
      if size.Thrown? {
        return Thrown(size.e);
      }
      if bound != 0 && size.v > bound {
        return Thrown(SequenceTooLong);
      }
      var checked := CheckSequence(size.v, SizeOf(schema, e), Minimum(schema, wire, e));
      r := match checked case Thrown(f) => Thrown(f) case Got(_) => Got(size.v);
    }

    method ReadSequence(bound: nat, e: Ty) returns (r: Read<Value>)
      requires Valid()
      modifies this`position, this`used, this`depth
      ensures Valid() && depth == old(depth)
      ensures match ReadTy(env, limits.depth - old(depth), Sequence(bound, e), old(Here()))
              case Done(v, n) => r == Got(v) && Here() == n
              case Fail(f) => r == Thrown(f)
      decreases limits.depth - depth, Height(Sequence(bound, e)), 0
    {
      var length := ReadLength(bound, e);
      if length.Thrown? {
        return Thrown(length.e);
      }
      var items;
      if e == Scalar(U8) {
        items := ReadByteValues(length.v);
      } else {
        items := ReadItems(length.v, e);
      }
      r := match items case Thrown(f) => Thrown(f) case Got(vs) => Got(Dynamic(vs));
    }

    /** The statements of a generated reader: one per field, in declaration order. */
    method ReadFields(tys: List<Ty>) returns (r: Read<List<Value>>)
      requires Valid()
      modifies this`position, this`used, this`depth
      ensures Valid() && depth == old(depth)
      ensures match ReadAll(env, limits.depth - old(depth), tys, old(Here()))
              case Done(vs, n) => r == Got(vs) && Here() == n
              case Fail(e) => r == Thrown(e)
      decreases limits.depth - depth, MaxHeight(tys) + 1, 0
    {
      var rest, values := tys, Nil;
      ghost var room := limits.depth - depth;
      while rest.Cons?
        invariant Valid() && depth == old(depth) && MaxHeight(rest) <= MaxHeight(tys)
        invariant ReadAll(env, room, tys, old(Here())) == Prepend(values, ReadAll(env, room, rest, Here()))
        decreases rest
      {
        var item := ReadValue(rest.head);
        if item.Thrown? {
          return Thrown(item.e);
        }
        PrependThen(values, item.v, ReadAll(env, room, rest.tail, Here()));
        values := Concat(values, Cons(item.v, Nil));
        rest := rest.tail;
      }
      ConcatNil(values);
      r := Got(values);
    }

    /** The counted loop over the elements of an array or a sequence. */
    method ReadItems(count: nat, e: Ty) returns (r: Read<List<Value>>)
      requires Valid()
      modifies this`position, this`used, this`depth
      ensures Valid() && depth == old(depth)
      ensures match ReadAll(env, limits.depth - old(depth), Repeat(count, e), old(Here()))
              case Done(vs, n) => r == Got(vs) && Here() == n
              case Fail(f) => r == Thrown(f)
      decreases limits.depth - depth, Height(e), 2
    {
      var values := Nil;
      ghost var room := limits.depth - depth;
      for i := 0 to count
        invariant Valid() && depth == old(depth)
        invariant ReadAll(env, room, Repeat(count, e), old(Here()))
               == Prepend(values, ReadAll(env, room, Repeat(count - i, e), Here()))
      {
        var item := ReadValue(e);
        if item.Thrown? {
          return Thrown(item.e);
        }
        PrependThen(values, item.v, ReadAll(env, room, Repeat(count - i - 1, e), Here()));
        values := Concat(values, Cons(item.v, Nil));
      }
      ConcatNil(values);
      r := Got(values);
    }

    method Finish() returns (r: Read<()>)
      requires Valid()
      ensures r == if position == |bytes| then Got(()) else Thrown(TrailingBytes)
    {
      r := if position != |bytes| then Thrown(TrailingBytes) else Got(());
    }
  }

  /** `deserialize_ros1_*` and `deserialize_cdr_*`. */
  method Deserialize(schema: Schema, ros1: bool, id: nat, bytes: seq<byte>, limits: Limits) returns (r: Decoded)
    requires id < |schema.types| && schema.types[id].size <= SIZE_MAX
    requires |bytes| <= SIZE_MAX && limits.storage <= SIZE_MAX && limits.depth <= SIZE_MAX
    ensures r == Decode(schema, ros1, id, bytes, limits, true)
  {
    var wire := Ros1;
    if !ros1 {
      if |bytes| < 4 || bytes[0] != 0 {
        return Rejected(BadEncapsulation);
      }
      if bytes[1] != 0 && bytes[1] != 1 {
        return Rejected(BadByteOrder);
      }
      wire := Cdr(bytes[1] == 1);
    }
    var reader := new Reader(schema, wire, bytes, limits);
    var charged := reader.AccountAllocation(schema.types[id].size);
    if charged.Thrown? {
      return Rejected(charged.e);
    }
    var root := reader.ReadValue(Named(id));
    if root.Thrown? {
      return Rejected(root.e);
    }
    var finished := reader.Finish();
    r := match finished case Thrown(e) => Rejected(e) case Got(_) => Good(root.v);
  }
}
