/**
 Built-in message types as schema instances: those whose ROS1 and CDR layouts differ, some with
 sequences, and one that recurs through a sequence.  Sizes are those of a 64-bit platform.
 */
module Profiles {
  import opened Lists
  import opened Schema
  import opened Formats

  const TIME := 0
  const DURATION := 1
  const HEADER := 2
  const REGION_OF_INTEREST := 3
  const POINT_FIELD := 4
  const BYTE := 5
  const RANGE := 6
  const CAMERA_INFO := 7
  const JOINT_STATE := 8
  const POINT_CLOUD2 := 9
  const NODE := 10

  function Two(a: Ty, b: Ty): List<Ty> {
    Cons(a, Cons(b, Nil))
  }

  function Three(a: Ty, b: Ty, c: Ty): List<Ty> {
    Cons(a, Two(b, c))
  }

  function Same(fields: List<Ty>, size: nat): TypeDef {
    TypeDef(fields, fields, size)
  }

  /** The fields each reader assigns, in the order in which it assigns them. */
  function Builtin(id: nat): TypeDef {
    if id == TIME then TypeDef(Two(Scalar(U32), Scalar(U32)), Two(Scalar(I32), Scalar(U32)), 16)
    else if id == DURATION then TypeDef(Two(Scalar(I32), Scalar(I32)), Two(Scalar(I32), Scalar(U32)), 16)
    else if id == HEADER then TypeDef(Three(Scalar(U32), Named(TIME), Text(0)), Two(Named(TIME), Text(0)), 56)
    else if id == REGION_OF_INTEREST then Same(Concat(Repeat(4, Scalar(U32)), Cons(Scalar(Bool), Nil)), 20)
    else if id == POINT_FIELD then Same(Cons(Text(0), Three(Scalar(U32), Scalar(U8), Scalar(U32))), 48)
    else if id == BYTE then Same(Cons(Scalar(Octet), Nil), 2)
    else if id == RANGE then
      var front := Two(Named(HEADER), Scalar(U8));
      TypeDef(Concat(front, Repeat(4, Scalar(F32))), Concat(front, Repeat(5, Scalar(F32))), 80)
    else if id == CAMERA_INFO then Same(Concat(Three(Named(HEADER), Scalar(U32), Scalar(U32)), CameraModel()), 656)
    else if id == JOINT_STATE then
      Same(Concat(Two(Named(HEADER), Sequence(0, Text(0))), Repeat(3, Sequence(0, Scalar(F64)))), 152)
    else if id == POINT_CLOUD2 then
      Same(Concat(Three(Named(HEADER), Scalar(U32), Scalar(U32)), PointLayout()), 136)
    else Same(Cons(Sequence(0, Named(NODE)), Nil), 24)
  }

  function CameraModel(): List<Ty> {
    var matrices := Three(Array(9, Scalar(F64)), Array(9, Scalar(F64)), Array(12, Scalar(F64)));
    Concat(Two(Text(0), Sequence(0, Scalar(F64))),
           Concat(matrices, Three(Scalar(U32), Scalar(U32), Named(REGION_OF_INTEREST))))
  }

  function PointLayout(): List<Ty> {
    Concat(Two(Sequence(0, Named(POINT_FIELD)), Scalar(Bool)),
           Concat(Two(Scalar(U32), Scalar(U32)), Two(Sequence(0, Scalar(U8)), Scalar(Bool))))
  }

  /** A schema that holds the built-in types at their ids, whatever else it holds. */
  ghost predicate Holds(s: Schema) {
    |s.types| > NODE && forall id :: 0 <= id <= NODE ==> s.types[id] == Builtin(id)
  }

  lemma {:induction false} Sum2(s: Schema, w: Wire, a: Ty, b: Ty, limit: nat)
    ensures MinimumAll(s, w, Two(a, b), limit) == WireMinimum(s, w, a, limit) + WireMinimum(s, w, b, limit)
  {
    assert MinimumAll(s, w, Cons(b, Nil), limit) == WireMinimum(s, w, b, limit);
  }

  lemma {:induction false} Sum3(s: Schema, w: Wire, a: Ty, b: Ty, c: Ty, limit: nat)
    ensures MinimumAll(s, w, Three(a, b, c), limit)
            == WireMinimum(s, w, a, limit) + WireMinimum(s, w, b, limit) + WireMinimum(s, w, c, limit)
  {
    Sum2(s, w, b, c, limit);
  }

  lemma {:induction false} SumConcat(s: Schema, w: Wire, a: List<Ty>, b: List<Ty>, limit: nat)
    ensures MinimumAll(s, w, Concat(a, b), limit) == MinimumAll(s, w, a, limit) + MinimumAll(s, w, b, limit)
    decreases a
  {
    match a
    case Nil =>
    case Cons(_, rest) => SumConcat(s, w, rest, b, limit);
  }

  lemma {:induction false} TimeRow(s: Schema, w: Wire, id: nat, limit: nat)
    requires Holds(s) && (id == TIME || id == DURATION) && id < limit
    ensures WireMinimum(s, w, Named(id), limit) == 8
  {
    var fields := Fields(s, w, id);
    Sum2(s, w, fields.head, fields.tail.head, id);
  }

  lemma {:induction false} HeaderRow(s: Schema, w: Wire, limit: nat)
    requires Holds(s) && HEADER < limit
    ensures WireMinimum(s, w, Named(HEADER), limit) == if w.Ros1? then 16 else 13
  {
    TimeRow(s, w, TIME, HEADER);
    Sum2(s, w, Named(TIME), Text(0), HEADER);
    Sum3(s, w, Scalar(U32), Named(TIME), Text(0), HEADER);
  }

  lemma {:induction false} RegionRow(s: Schema, w: Wire, limit: nat)
    requires Holds(s) && REGION_OF_INTEREST < limit
    ensures WireMinimum(s, w, Named(REGION_OF_INTEREST), limit) == 17
  {
    SumConcat(s, w, Repeat(4, Scalar(U32)), Cons(Scalar(Bool), Nil), REGION_OF_INTEREST);
    MinimumRepeat(s, w, 4, Scalar(U32), REGION_OF_INTEREST);
    TimesIsProduct(4, 4);
  }

  lemma {:induction false} PointFieldRow(s: Schema, w: Wire)
    requires Holds(s)
    ensures Minimum(s, w, Named(POINT_FIELD)) == if w.Ros1? then 13 else 14
  {
    var rest := Three(Scalar(U32), Scalar(U8), Scalar(U32));
    Sum3(s, w, Scalar(U32), Scalar(U8), Scalar(U32), POINT_FIELD);
    assert s.types[POINT_FIELD] == Builtin(POINT_FIELD);
    assert MinimumAll(s, w, Cons(Text(0), rest), POINT_FIELD) == WireMinimum(s, w, Text(0), POINT_FIELD) + 9;
  }

  lemma {:induction false} RangeRow(s: Schema, w: Wire)
    requires Holds(s)
    ensures Minimum(s, w, Named(RANGE)) == if w.Ros1? then 33 else 34
  {
    var floats := if w.Ros1? then 4 else 5;
    HeaderRow(s, w, RANGE);
    Sum2(s, w, Named(HEADER), Scalar(U8), RANGE);
    SumConcat(s, w, Two(Named(HEADER), Scalar(U8)), Repeat(floats, Scalar(F32)), RANGE);
    MinimumRepeat(s, w, floats, Scalar(F32), RANGE);
    TimesIsProduct(floats, 4);
  }

  lemma {:induction false} CameraModelSum(s: Schema, w: Wire, limit: nat)
    requires Holds(s) && REGION_OF_INTEREST < limit
    ensures MinimumAll(s, w, CameraModel(), limit) == WireMinimum(s, w, Text(0), limit) + 269
  {
    var square, projection := Array(9, Scalar(F64)), Array(12, Scalar(F64));
    var matrices, back := Three(square, square, projection), Three(Scalar(U32), Scalar(U32), Named(REGION_OF_INTEREST));
    RegionRow(s, w, limit);
    TimesIsProduct(9, 8);
    TimesIsProduct(12, 8);
    Sum3(s, w, square, square, projection, limit);
    Sum3(s, w, Scalar(U32), Scalar(U32), Named(REGION_OF_INTEREST), limit);
    SumConcat(s, w, matrices, back, limit);
    Sum2(s, w, Text(0), Sequence(0, Scalar(F64)), limit);
    SumConcat(s, w, Two(Text(0), Sequence(0, Scalar(F64))), Concat(matrices, back), limit);
  }

  lemma {:induction false} CameraInfoSum(s: Schema, w: Wire, fields: List<Ty>, limit: nat)
    requires Holds(s) && REGION_OF_INTEREST < limit
    requires fields == Concat(Three(Named(HEADER), Scalar(U32), Scalar(U32)), CameraModel())
    ensures MinimumAll(s, w, fields, limit) == if w.Ros1? then 297 else 295
  {
    HeaderRow(s, w, limit);
    CameraModelSum(s, w, limit);
    Sum3(s, w, Named(HEADER), Scalar(U32), Scalar(U32), limit);
    SumConcat(s, w, Three(Named(HEADER), Scalar(U32), Scalar(U32)), CameraModel(), limit);
  }

  lemma {:induction false} CameraInfoRow(s: Schema, w: Wire)
    requires Holds(s)
    ensures Minimum(s, w, Named(CAMERA_INFO)) == if w.Ros1? then 297 else 295
  {
    CameraInfoSum(s, w, Fields(s, w, CAMERA_INFO), CAMERA_INFO);
  }

  lemma {:induction false} JointStateRow(s: Schema, w: Wire)
    requires Holds(s)
    ensures Minimum(s, w, Named(JOINT_STATE)) == if w.Ros1? then 32 else 29
  {
    var numbers := Sequence(0, Scalar(F64));
    HeaderRow(s, w, JOINT_STATE);
    Sum2(s, w, Named(HEADER), Sequence(0, Text(0)), JOINT_STATE);
    SumConcat(s, w, Two(Named(HEADER), Sequence(0, Text(0))), Repeat(3, numbers), JOINT_STATE);
    MinimumRepeat(s, w, 3, numbers, JOINT_STATE);
    TimesIsProduct(3, 4);
  }

  lemma {:induction false} PointLayoutSum(s: Schema, w: Wire, limit: nat)
    ensures MinimumAll(s, w, PointLayout(), limit) == 18
  {
    var steps, data := Two(Scalar(U32), Scalar(U32)), Two(Sequence(0, Scalar(U8)), Scalar(Bool));
    var front := Two(Sequence(0, Named(POINT_FIELD)), Scalar(Bool));
    Sum2(s, w, Scalar(U32), Scalar(U32), limit);
    Sum2(s, w, Sequence(0, Scalar(U8)), Scalar(Bool), limit);
    Sum2(s, w, Sequence(0, Named(POINT_FIELD)), Scalar(Bool), limit);
    SumConcat(s, w, steps, data, limit);
    SumConcat(s, w, front, Concat(steps, data), limit);
  }

  lemma {:induction false} PointCloud2Sum(s: Schema, w: Wire, fields: List<Ty>, limit: nat)
    requires Holds(s) && HEADER < limit
    requires fields == Concat(Three(Named(HEADER), Scalar(U32), Scalar(U32)), PointLayout())
    ensures MinimumAll(s, w, fields, limit) == if w.Ros1? then 42 else 39
  {
    HeaderRow(s, w, limit);
    PointLayoutSum(s, w, limit);
    Sum3(s, w, Named(HEADER), Scalar(U32), Scalar(U32), limit);
    SumConcat(s, w, Three(Named(HEADER), Scalar(U32), Scalar(U32)), PointLayout(), limit);
  }

  lemma {:induction false} PointCloud2Row(s: Schema, w: Wire)
    requires Holds(s)
    ensures Minimum(s, w, Named(POINT_CLOUD2)) == if w.Ros1? then 42 else 39
  {
    PointCloud2Sum(s, w, Fields(s, w, POINT_CLOUD2), POINT_CLOUD2);
  }

  /** `byte` takes one byte, and a type that recurs through a sequence has a finite bound. */
  lemma {:induction false} SmallRows(s: Schema, w: Wire)
    requires Holds(s)
    ensures Minimum(s, w, Named(BYTE)) == 1 && Minimum(s, w, Named(NODE)) == 4
  {
    assert s.types[BYTE] == Builtin(BYTE) && s.types[NODE] == Builtin(NODE);
    assert MinimumAll(s, w, Cons(Scalar(Octet), Nil), BYTE) == 1;
    assert MinimumAll(s, w, Cons(Sequence(0, Named(NODE)), Nil), NODE) == 4;
  }

  lemma {:induction false} ScalarsVanish(front: List<Ty>, n: nat, p: Prim)
    ensures WithoutScalars(Concat(front, Repeat(n, Scalar(p)))) == WithoutScalars(front)
  {
    match front
    case Nil =>
      if n > 0 {
        ScalarsVanish(Nil, n - 1, p);
      }
    case Cons(_, rest) => ScalarsVanish(rest, n, p);
  }

  /** The built-in types differ between the formats in scalar fields only. */
  lemma {:induction false} BuiltinsShareFields(s: Schema, id: nat, w: Wire, w': Wire)
    requires Holds(s) && id <= NODE
    ensures AllAlike(s, WithoutScalars(Fields(s, w, id)), WithoutScalars(Fields(s, w', id)))
  {
    assert s.types[id] == Builtin(id);
    if id == RANGE {
      ScalarsVanish(Two(Named(HEADER), Scalar(U8)), 4, F32);
      ScalarsVanish(Two(Named(HEADER), Scalar(U8)), 5, F32);
    } else if id == HEADER {
      var kept := Two(Named(TIME), Text(0));
      assert WithoutScalars(kept) == kept && WithoutScalars(Cons(Scalar(U32), kept)) == kept;
    } else if id <= DURATION {
      assert WithoutScalars(Fields(s, w, id)) == Nil == WithoutScalars(Fields(s, w', id));
    }
    AllAlikeItself(s, WithoutScalars(Fields(s, w, id)));
  }

  /** A schema of the built-in types alone has the same fields in both formats, scalar fields apart. */
  lemma {:induction false} BuiltinSchemaIsShared(s: Schema)
    requires Holds(s) && |s.types| == NODE + 1
    ensures SharedFields(s)
  {
    forall id: nat, w: Wire, w': Wire
      ensures AllAlike(s, WithoutScalars(Fields(s, w, id)), WithoutScalars(Fields(s, w', id)))
    {
      if id <= NODE {
        BuiltinsShareFields(s, id, w, w');
      }
    }
  }
}
