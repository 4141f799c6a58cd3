/**
 What a read delivers, type by type, in bytes and numbers: the rules of the two wire formats written
 out, so that they do not depend on how the interpreter is put together.
 */
module ReadingRules {
  import opened Bytes
  import opened Lists
  import opened Schema
  import opened Codec

  // ----- where a number starts -----

  /** `s` is where a number of `k` bytes starts that is read at `pos`: at once in ROS1, aligned in CDR. */
  predicate Starts(w: Wire, pos: nat, k: nat, s: nat)
    requires k > 0
  {
    if w.Ros1? then s == pos else pos <= s < pos + k && s >= 4 && (s - 4) % k == 0
  }

  lemma {:induction false} StartsPadded(w: Wire, pos: nat, k: nat, s: nat)
    requires Origin(w) <= pos && (k == 1 || k == 2 || k == 4 || k == 8) && Starts(w, pos, k, s)
    ensures s == pos + Padding(w, pos, k)
  {
    if w.Cdr? {
      PaddingAligns(w, pos, k);
      SameMultiple(s - 4, pos + Padding(w, pos, k) - 4);
    }
  }

  lemma {:induction false} SameMultiple(a: int, b: int)
    ensures a % 2 == 0 == b % 2 && -2 < a - b < 2 ==> a == b
    ensures a % 4 == 0 == b % 4 && -4 < a - b < 4 ==> a == b
    ensures a % 8 == 0 == b % 8 && -8 < a - b < 8 ==> a == b
  {
  }

  lemma {:induction false} ReadsUnsigned(env: Env, c: Cursor, k: nat, s: nat)
    requires Live(env, c) && (k == 1 || k == 2 || k == 4 || k == 8) && Starts(env.wire, c.pos, k, s)
    ensures ReadRaw(env, c, k)
         == if s + k > |env.bytes| then Fail(Truncated)
            else Done(Load(env.bytes, s, k, env.wire != Cdr(false)), Cursor(s + k, c.used))
  {
    StartsPadded(env.wire, c.pos, k, s);
  }

  // ----- the twelve scalars -----

  /** A number of `n` that starts at `s` and takes `k` bytes. */
  function Number(env: Env, c: Cursor, s: nat, k: nat, n: int): Step<Value> {
    if s + k > |env.bytes| then Fail(Truncated) else Done(Num(n), Cursor(s + k, c.used))
  }

  /** One byte: unsigned, two's complement, a truth value, and `byte`, which is signed in ROS1 alone. */
  lemma {:induction false} ReadsBytes(env: Env, room: nat, c: Cursor)
    requires Live(env, c)
    ensures var b: int := if c.pos < |env.bytes| then env.bytes[c.pos] else 0;
            && ReadTy(env, room, Scalar(U8), c) == Number(env, c, c.pos, 1, b)
            && ReadTy(env, room, Scalar(I8), c) == Number(env, c, c.pos, 1, if b < 128 then b else b - 256)
            && ReadTy(env, room, Scalar(Bool), c) == Number(env, c, c.pos, 1, if b == 0 then 0 else 1)
            && ReadTy(env, room, Scalar(Octet), c)
               == Number(env, c, c.pos, 1, if env.wire.Ros1? && b >= 128 then b - 256 else b)
  {
    Pow256At8();
    assert Starts(env.wire, c.pos, 1, c.pos);
    ReadsUnsigned(env, c, 1, c.pos);
    LoadIsSum(env.bytes, c.pos);
  }

  /** Two bytes, the least first unless the payload is big-endian CDR. */
  lemma {:induction false} ReadsPairs(env: Env, room: nat, c: Cursor, s: nat)
    requires Live(env, c) && Starts(env.wire, c.pos, 2, s)
    ensures var b := env.bytes;
            var n: int := if s + 2 > |b| then 0 else if env.wire == Cdr(false) then High2(b, s) else Low2(b, s);
            && ReadTy(env, room, Scalar(U16), c) == Number(env, c, s, 2, n)
            && ReadTy(env, room, Scalar(I16), c) == Number(env, c, s, 2, if n < 0x8000 then n else n - 0x1_0000)
  {
    Pow256At8();
    ReadsUnsigned(env, c, 2, s);
    LoadIsSum(env.bytes, s);
  }

  lemma {:induction false} WordsFromRaw(w: Wire, n: nat)
    requires n < 0x1_0000_0000
    ensures FromRaw(w, U32, n) == FromRaw(w, F32, n) == n
    ensures FromRaw(w, I32, n) == if n < 0x8000_0000 then n else n - 0x1_0000_0000
  {
    Pow256At8();
  }

  lemma {:induction false} DoubleWordsFromRaw(w: Wire, n: nat)
    requires n < 0x1_0000_0000_0000_0000
    ensures FromRaw(w, U64, n) == FromRaw(w, F64, n) == n
    ensures FromRaw(w, I64, n) == if n < 0x8000_0000_0000_0000 then n else n - 0x1_0000_0000_0000_0000
  {
    Pow256At8();
  }

  lemma {:induction false} ReadsScalar(env: Env, room: nat, c: Cursor, p: Prim, s: nat)
    requires Live(env, c) && Starts(env.wire, c.pos, Width(p), s)
    ensures ReadTy(env, room, Scalar(p), c)
         == if s + Width(p) > |env.bytes| then Fail(Truncated)
            else
              var raw := Load(env.bytes, s, Width(p), env.wire != Cdr(false));
              Done(Num(FromRaw(env.wire, p, raw)), Cursor(s + Width(p), c.used))
  {
    ReadsUnsigned(env, c, Width(p), s);
  }

  /** Four bytes likewise; a float is its bit pattern. */
  lemma {:induction false} ReadsWords(env: Env, room: nat, c: Cursor, s: nat)
    requires Live(env, c) && Starts(env.wire, c.pos, 4, s)
    ensures var b := env.bytes;
            var n: int := if s + 4 > |b| then 0 else if env.wire == Cdr(false) then High4(b, s) else Low4(b, s);
            && ReadTy(env, room, Scalar(U32), c) == Number(env, c, s, 4, n)
            && ReadTy(env, room, Scalar(F32), c) == Number(env, c, s, 4, n)
            && ReadTy(env, room, Scalar(I32), c)
               == Number(env, c, s, 4, if n < 0x8000_0000 then n else n - 0x1_0000_0000)
  {
    LoadIsSum(env.bytes, s);
    if s + 4 <= |env.bytes| {
      WordsFromRaw(env.wire, if env.wire == Cdr(false) then High4(env.bytes, s) else Low4(env.bytes, s));
    }
    ReadsScalar(env, room, c, U32, s);
    ReadsScalar(env, room, c, F32, s);
    ReadsScalar(env, room, c, I32, s);
  }

  lemma {:induction false} ReadsDoubleWord(env: Env, room: nat, c: Cursor, p: Prim, s: nat)
    requires Live(env, c) && Starts(env.wire, c.pos, 8, s) && (p == U64 || p == F64 || p == I64)
    ensures ReadTy(env, room, Scalar(p), c)
         == if s + 8 > |env.bytes| then Fail(Truncated)
            else
              var n := if env.wire == Cdr(false) then High8(env.bytes, s) else Low8(env.bytes, s);
              Done(Num(FromRaw(env.wire, p, n)), Cursor(s + 8, c.used))
  {
    if s + 8 <= |env.bytes| {
      LoadIsSum8(env.bytes, s);
    }
    ReadsScalar(env, room, c, p, s);
  }

  /** Eight bytes likewise. */
  lemma {:induction false} ReadsDoubleWords(env: Env, room: nat, c: Cursor, s: nat)
    requires Live(env, c) && Starts(env.wire, c.pos, 8, s)
    ensures var b := env.bytes;
            var n: int := if s + 8 > |b| then 0 else if env.wire == Cdr(false) then High8(b, s) else Low8(b, s);
            && ReadTy(env, room, Scalar(U64), c) == Number(env, c, s, 8, n)
            && ReadTy(env, room, Scalar(F64), c) == Number(env, c, s, 8, n)
            && ReadTy(env, room, Scalar(I64), c)
               == Number(env, c, s, 8, if n < 0x8000_0000_0000_0000 then n else n - 0x1_0000_0000_0000_0000)
  {
    if s + 8 <= |env.bytes| {
      DoubleWordsFromRaw(env.wire, if env.wire == Cdr(false) then High8(env.bytes, s) else Low8(env.bytes, s));
    }
    ReadsDoubleWord(env, room, c, U64, s);
    ReadsDoubleWord(env, room, c, F64, s);
    ReadsDoubleWord(env, room, c, I64, s);
  }

  // ----- strings -----

  /** ROS1: size, bytes; storage for one byte more than the string has. */
  lemma {:induction false} ReadsRos1Text(env: Env, room: nat, bound: nat, c: Cursor)
    requires Live(env, c) && env.wire.Ros1?
    ensures ReadTy(env, room, Text(bound), c)
         == if c.pos + 4 > |env.bytes| then Fail(Truncated)
            else
              var n, start := Low4(env.bytes, c.pos), c.pos + 4;
              if bound != 0 && n > bound then Fail(TextTooLong)
              else if start + n > |env.bytes| then Fail(Truncated)
              else if n + 1 > env.limits.storage - c.used then Fail(StorageLimit)
              else Done(Str(env.bytes[start..start + n]), Cursor(start + n, c.used + n + 1))
  {
    ReadsUnsigned(env, c, 4, c.pos);
    LoadIsSum(env.bytes, c.pos);
  }

  /** CDR: the size counts a final NUL, which is no part of the string or of its bound. */
  lemma {:induction false} ReadsCdrText(env: Env, room: nat, bound: nat, c: Cursor, s: nat)
    requires Live(env, c) && env.wire.Cdr? && Starts(env.wire, c.pos, 4, s)
    ensures ReadTy(env, room, Text(bound), c)
         == if s + 4 > |env.bytes| then Fail(Truncated)
            else
              var n := if env.wire.little then Low4(env.bytes, s) else High4(env.bytes, s);
              var start := s + 4;
              if bound != 0 && n > bound + 1 then Fail(TextTooLong)
              else if start + n > |env.bytes| then Fail(Truncated)
              else if n == 0 || env.bytes[start + n - 1] != 0 then Fail(NoTerminator)
              else if n > env.limits.storage - c.used then Fail(StorageLimit)
              else Done(Str(env.bytes[start..start + n - 1]), Cursor(start + n, c.used + n))
  {
    ReadsUnsigned(env, c, 4, s);
    LoadIsSum(env.bytes, s);
  }

  // ----- containers -----

  /** Both containers read their elements one after another, as many as there are. */
  lemma {:induction false} ReadsElements(env: Env, room: nat, n: nat, e: Ty, c: Cursor)
    requires Live(env, c)
    ensures ReadAll(env, room, Repeat(0, e), c) == Done(Nil, c)
    ensures ReadAll(env, room, Repeat(n + 1, e), c)
         == match ReadTy(env, room, e, c)
            case Fail(f) => Fail(f)
            case Done(v, next) =>
              match ReadAll(env, room, Repeat(n, e), next)
              case Fail(f) => Fail(f)
              case Done(vs, end) => Done(Cons(v, vs), end)
  {
    assert Repeat(n + 1, e) == Cons(e, Repeat(n, e));
  }

  /** A fixed array: no prefix, no charge. */
  lemma {:induction false} ReadsArray(env: Env, room: nat, n: nat, e: Ty, c: Cursor)
    requires Live(env, c)
    ensures ReadTy(env, room, Array(n, e), c)
         == match ReadAll(env, room, Repeat(n, e), c)
            case Fail(f) => Fail(f)
            case Done(vs, end) => Done(Fixed(vs), end)
  {
  }

  /** A sequence: its length, then its bound, the element limit and the storage of all elements. */
  lemma {:induction false} ReadsSequence(env: Env, room: nat, bound: nat, e: Ty, c: Cursor, s: nat)
    requires Live(env, c) && !env.early && Starts(env.wire, c.pos, 4, s)
    ensures ReadTy(env, room, Sequence(bound, e), c)
         == if s + 4 > |env.bytes| then Fail(Truncated)
            else
              var n := if env.wire == Cdr(false) then High4(env.bytes, s) else Low4(env.bytes, s);
              if bound != 0 && n > bound then Fail(SequenceTooLong)
              else if n > env.limits.elements then Fail(ElementLimit)
              else if c.used + n * SizeOf(env.schema, e) > env.limits.storage then Fail(StorageLimit)
              else
                match ReadAll(env, room, Repeat(n, e), Cursor(s + 4, c.used + n * SizeOf(env.schema, e)))
                case Fail(f) => Fail(f)
                case Done(vs, end) => Done(Dynamic(vs), end)
  {
    ReadsUnsigned(env, c, 4, s);
    if s + 4 <= |env.bytes| {
      LoadIsSum(env.bytes, s);
      var n := Load(env.bytes, s, 4, env.wire != Cdr(false));
      ReadsLength(env, bound, e, c, s, n);
    }
  }

  lemma {:induction false} ReadsLength(env: Env, bound: nat, e: Ty, c: Cursor, s: nat, n: nat)
    requires Live(env, c) && !env.early && s + 4 <= |env.bytes|
    requires ReadRaw(env, c, 4) == Done(n, Cursor(s + 4, c.used))
    ensures ReadLength(env, bound, e, c)
         == if bound != 0 && n > bound then Fail(SequenceTooLong)
            else if n > env.limits.elements then Fail(ElementLimit)
            else if c.used + n * SizeOf(env.schema, e) > env.limits.storage then Fail(StorageLimit)
            else Done(n, Cursor(s + 4, c.used + n * SizeOf(env.schema, e)))
  {
    TimesIsProduct(n, SizeOf(env.schema, e));
    if SizeOf(env.schema, e) != 0 {
      QuotientTest(n, SizeOf(env.schema, e), env.limits.storage - c.used);
    }
  }

  /** A message: one level deeper, its fields in order. */
  lemma {:induction false} ReadsMessage(env: Env, room: nat, id: nat, c: Cursor)
    requires Live(env, c) && id < |env.schema.types|
    ensures ReadTy(env, room, Named(id), c)
         == if room == 0 then Fail(DepthLimit)
            else
              var def := env.schema.types[id];
              match ReadAll(env, room - 1, if env.wire.Ros1? then def.ros1 else def.cdr, c)
              case Fail(f) => Fail(f)
              case Done(vs, end) => Done(Message(vs), end)
  {
  }

  /** Fields one after another. */
  lemma {:induction false} ReadsFields(env: Env, room: nat, ty: Ty, rest: List<Ty>, c: Cursor)
    requires Live(env, c)
    ensures ReadAll(env, room, Nil, c) == Done(Nil, c)
    ensures ReadAll(env, room, Cons(ty, rest), c)
         == match ReadTy(env, room, ty, c)
            case Fail(f) => Fail(f)
            case Done(v, next) =>
              match ReadAll(env, room, rest, next)
              case Fail(f) => Fail(f)
              case Done(vs, end) => Done(Cons(v, vs), end)
  {
  }

  // ----- whole payloads -----

  /** ROS1: the object is charged first, and has to take the whole payload. */
  lemma {:induction false} DecodesRos1(s: Schema, id: nat, bytes: seq<byte>, limits: Limits, early: bool)
    requires id < |s.types|
    ensures Decode(s, true, id, bytes, limits, early)
         == if s.types[id].size > limits.storage then Rejected(StorageLimit)
            else
              var env := Env(s, Ros1, bytes, limits, early);
              match ReadTy(env, limits.depth, Named(id), Cursor(0, s.types[id].size))
              case Fail(e) => Rejected(e)
              case Done(v, end) => if end.pos == |bytes| then Good(v) else Rejected(TrailingBytes)
  {
  }

  /** CDR: behind an encapsulation header of four bytes, whose second tells the byte order. */
  lemma {:induction false} DecodesCdr(s: Schema, id: nat, bytes: seq<byte>, limits: Limits, early: bool)
    requires id < |s.types|
    ensures Decode(s, false, id, bytes, limits, early)
         == if |bytes| < 4 || bytes[0] != 0 then Rejected(BadEncapsulation)
            else if bytes[1] > 1 then Rejected(BadByteOrder)
            else if s.types[id].size > limits.storage then Rejected(StorageLimit)
            else
              var env := Env(s, Cdr(bytes[1] == 1), bytes, limits, early);
              match ReadTy(env, limits.depth, Named(id), Cursor(4, s.types[id].size))
              case Fail(e) => Rejected(e)
              case Done(v, end) => if end.pos == |bytes| then Good(v) else Rejected(TrailingBytes)
  {
  }

  // ----- writing -----

  /** Padding is written as zeros. */
  lemma {:induction false} PaddingIsZero(w: Wire, raw: nat, k: nat, pos: nat, s: nat)
    requires Origin(w) <= pos && (k == 1 || k == 2 || k == 4 || k == 8) && Starts(w, pos, k, s)
    ensures |PutRaw(w, raw, k, pos)| == s - pos + k
    ensures forall i :: 0 <= i < s - pos ==> PutRaw(w, raw, k, pos)[i] == 0
  {
    StartsPadded(w, pos, k, s);
    AllZero(s - pos);
  }

  lemma {:induction false} AllZero(n: nat)
    ensures forall i :: 0 <= i < n ==> Zeros(n)[i] == 0
  {
    if n > 0 {
      AllZero(n - 1);
    }
  }

  /** The payload of a CDR value begins with its byte order; that of a ROS1 value has nothing in front. */
  lemma {:induction false} PayloadBegins(s: Schema, w: Wire, id: nat, v: Value)
    requires id < |s.types| && Fits(s, w, Named(id), v)
    ensures w.Cdr? ==> Encode(s, w, id, v)[..4] == [0, if w.little then 1 else 0, 0, 0]
    ensures w.Ros1? ==> Encode(s, w, id, v) == Put(s, w, Named(id), v, 0)
    ensures w.Cdr? ==> Encode(s, w, id, v)[4..] == Put(s, w, Named(id), v, 4)
  {
    assert [] + Put(s, w, Named(id), v, Origin(w)) == Put(s, w, Named(id), v, Origin(w));
  }

  /** The numbers a format can carry. */
  lemma {:induction false} BytesInRange(s: Schema, w: Wire, n: int)
    ensures Fits(s, w, Scalar(U8), Num(n)) <==> 0 <= n < 256
    ensures Fits(s, w, Scalar(I8), Num(n)) <==> -128 <= n < 128
    ensures Fits(s, w, Scalar(Bool), Num(n)) <==> 0 <= n <= 1
    ensures Fits(s, w, Scalar(Octet), Num(n)) <==> if w.Ros1? then -128 <= n < 128 else 0 <= n < 256
  {
    Pow256At8();
  }

  lemma {:induction false} WordsInRange(s: Schema, w: Wire, n: int)
    ensures Fits(s, w, Scalar(U16), Num(n)) <==> 0 <= n < 0x1_0000
    ensures Fits(s, w, Scalar(I16), Num(n)) <==> -0x8000 <= n < 0x8000
    ensures Fits(s, w, Scalar(U32), Num(n)) <==> 0 <= n < 0x1_0000_0000
    ensures Fits(s, w, Scalar(I32), Num(n)) <==> -0x8000_0000 <= n < 0x8000_0000
    ensures Fits(s, w, Scalar(F32), Num(n)) <==> 0 <= n < 0x1_0000_0000
  {
    Pow256At8();
  }

  lemma {:induction false} DoubleWordsInRange(s: Schema, w: Wire, n: int)
    ensures Fits(s, w, Scalar(U64), Num(n)) <==> 0 <= n < 0x1_0000_0000_0000_0000
    ensures Fits(s, w, Scalar(I64), Num(n)) <==> -0x8000_0000_0000_0000 <= n < 0x8000_0000_0000_0000
    ensures Fits(s, w, Scalar(F64), Num(n)) <==> 0 <= n < 0x1_0000_0000_0000_0000
  {
    Pow256At8();
  }

  /** Sizes in storage, on a 64-bit platform apart from strings, vectors and messages; `byte` takes two. */
  lemma {:induction false} SizesOfScalars(s: Schema)
    ensures SizeOf(s, Scalar(U8)) == SizeOf(s, Scalar(I8)) == SizeOf(s, Scalar(Bool)) == 1
    ensures SizeOf(s, Scalar(Octet)) == SizeOf(s, Scalar(U16)) == SizeOf(s, Scalar(I16)) == 2
    ensures SizeOf(s, Scalar(U32)) == SizeOf(s, Scalar(I32)) == SizeOf(s, Scalar(F32)) == 4
    ensures SizeOf(s, Scalar(U64)) == SizeOf(s, Scalar(I64)) == SizeOf(s, Scalar(F64)) == 8
  {
  }

  /** The least bytes of each kind of type, padding apart. */
  lemma {:induction false} LeastBytes(s: Schema, w: Wire, limit: nat, n: nat, e: Ty, bound: nat)
    ensures WireMinimum(s, w, Scalar(U8), limit) == WireMinimum(s, w, Scalar(I8), limit) == 1
    ensures WireMinimum(s, w, Scalar(Bool), limit) == WireMinimum(s, w, Scalar(Octet), limit) == 1
    ensures WireMinimum(s, w, Scalar(U16), limit) == WireMinimum(s, w, Scalar(I16), limit) == 2
    ensures WireMinimum(s, w, Scalar(U32), limit) == WireMinimum(s, w, Scalar(I32), limit) == 4
    ensures WireMinimum(s, w, Scalar(U64), limit) == WireMinimum(s, w, Scalar(I64), limit) == 8
    ensures WireMinimum(s, w, Scalar(F32), limit) == 4 && WireMinimum(s, w, Scalar(F64), limit) == 8
    ensures WireMinimum(s, w, Text(bound), limit) == if w.Ros1? then 4 else 5
    ensures WireMinimum(s, w, Sequence(bound, e), limit) == 4
    ensures WireMinimum(s, w, Array(n, e), limit) == n * WireMinimum(s, w, e, limit)
  {
    TimesIsProduct(n, WireMinimum(s, w, e, limit));
  }
}
