/** The schema of generated code: collected definitions, in their order, after the built-in types. */
module Emitted {
  import opened Lists
  import D = Definitions
  import C = Collection
  import G = Generation
  import opened Schema
  import opened Emission
  import F = Formats

  /** The type of one element of a field. */
  type ElementTypes = (D.Definition, D.Field) -> Ty

  /** What `emit_reader` reads for a field. */
  function FieldType(element: ElementTypes, owner: D.Definition, f: D.Field): Ty {
    match f.container
    case Scalar => element(owner, f)
    case Array => Ty.Array(f.length, element(owner, f))
    case Sequence => Ty.Sequence(f.bound, element(owner, f))
  }

  function FieldTypes(element: ElementTypes, owner: D.Definition, fields: seq<D.Field>): List<Ty> {
    if fields == [] then Nil
    else Cons(FieldType(element, owner, fields[0]), FieldTypes(element, owner, fields[1..]))
  }

  /** Generated types read the same fields from both wire formats. */
  function Generated(element: ElementTypes, defs: seq<D.Definition>, sizes: seq<nat>): (types: seq<TypeDef>)
    requires |sizes| == |defs|
    ensures |types| == |defs|
  {
    if defs == [] then []
    else
      var fields := FieldTypes(element, defs[0], defs[0].fields);
      [TypeDef(fields, fields, sizes[0])] + Generated(element, defs[1..], sizes[1..])
  }

  function SchemaOf(s: Schema, element: ElementTypes, defs: seq<D.Definition>, sizes: seq<nat>): Schema
    requires |sizes| == |defs|
  {
    s.(types := s.types + Generated(element, defs, sizes))
  }

  lemma {:induction false} GeneratedAt(element: ElementTypes, defs: seq<D.Definition>, sizes: seq<nat>, k: nat)
    requires |sizes| == |defs| && k < |defs|
    ensures var fields := FieldTypes(element, defs[k], defs[k].fields);
            Generated(element, defs, sizes)[k] == TypeDef(fields, fields, sizes[k])
  {
    if k > 0 {
      GeneratedAt(element, defs[1..], sizes[1..], k - 1);
    }
  }

  lemma {:induction false} FieldsOf(s: Schema, element: ElementTypes, defs: seq<D.Definition>, sizes: seq<nat>,
      w: Wire, i: nat)
    requires |sizes| == |defs| && i < |s.types| + |defs|
    ensures Fields(SchemaOf(s, element, defs, sizes), w, i)
            == if i < |s.types| then Fields(s, w, i)
               else FieldTypes(element, defs[i - |s.types|], defs[i - |s.types|].fields)
  {
    if i >= |s.types| {
      GeneratedAt(element, defs, sizes, i - |s.types|);
    }
  }

  /** Definition `k` holds by value only types below its place, the first definition being at `base`. */
  predicate Ranked(element: ElementTypes, defs: seq<D.Definition>, base: nat, k: nat)
    requires k < |defs|
  {
    RanksBelow(FieldTypes(element, defs[k], defs[k].fields), base + k)
  }

  /** If every definition holds by value only types below its place, the whole schema is in emission order. */
  lemma {:induction false} PlacedInOrder(s: Schema, element: ElementTypes, defs: seq<D.Definition>, sizes: seq<nat>)
    requires InOrder(s) && |sizes| == |defs|
    requires forall k :: 0 <= k < |defs| ==> Ranked(element, defs, |s.types|, k)
    ensures InOrder(SchemaOf(s, element, defs, sizes))
  {
    var all := SchemaOf(s, element, defs, sizes);
    forall i, w: Wire {:trigger Fields(all, w, i)} | 0 <= i < |all.types|
      ensures RanksBelow(Fields(all, w, i), i)
    {
      FieldsOf(s, element, defs, sizes, w, i);
      if i < |s.types| {
        assert RanksBelow(Fields(s, w, i), i);
      } else {
        var k := i - |s.types|;
        assert Ranked(element, defs, |s.types|, k);
      }
    }
  }

  // ----- the elements of generated code -----

  /** The place of the definition with this name; past the end if there is none. */
  function PlaceOfName(defs: seq<D.Definition>, name: string): (i: nat)
    ensures i <= |defs| && (i < |defs| ==> defs[i].canonical == name)
    ensures i == |defs| ==> forall d :: d in defs ==> d.canonical != name
  {
    if defs == [] || defs[0].canonical == name then 0 else 1 + PlaceOfName(defs[1..], name)
  }

  /** The id of a type name: a built-in type's own, or a collected definition's place after them. */
  function IdOf(builtins: map<string, nat>, base: nat, defs: seq<D.Definition>, name: string): nat {
    if name in builtins then builtins[name] else base + PlaceOfName(defs, name)
  }

  function Element(builtins: map<string, nat>, base: nat, defs: seq<D.Definition>, owner: D.Definition,
      f: D.Field): Ty
  {
    match D.KindOf(f.ty)
    case Number(p) => Ty.Scalar(p)
    case Text => Ty.Text(f.textBound)
    case Other => Named(IdOf(builtins, base, defs, D.CanonicalType(owner.package, f.ty)))
  }

  function Elements(builtins: map<string, nat>, base: nat, defs: seq<D.Definition>): ElementTypes {
    (owner: D.Definition, f: D.Field) => Element(builtins, base, defs, owner, f)
  }

  /** Scalars by their names, in interface files and in both message languages; strings with their bound. */
  lemma {:induction false} ScalarsAreRead(builtins: map<string, nat>, base: nat, defs: seq<D.Definition>,
      owner: D.Definition, f: D.Field)
    ensures var e := Element(builtins, base, defs, owner, f);
            && (e == Ty.Scalar(Octet) <==> f.ty == "byte")
            && (e == Ty.Scalar(U8) <==> f.ty == "char" || f.ty == "uint8" || f.ty == "octet")
            && (e == Ty.Scalar(I8) <==> f.ty == "int8")
            && (e == Ty.Scalar(Prim.Bool) <==> f.ty == "bool" || f.ty == "boolean")
            && (e == Ty.Scalar(U16) <==> f.ty == "uint16" || f.ty == "unsigned short")
            && (e == Ty.Scalar(I16) <==> f.ty == "int16" || f.ty == "short")
            && (e == Ty.Scalar(U32) <==> f.ty == "uint32" || f.ty == "unsigned long")
            && (e == Ty.Scalar(I32) <==> f.ty == "int32" || f.ty == "long")
    ensures var e := Element(builtins, base, defs, owner, f);
            && (e == Ty.Scalar(U64) <==> f.ty == "uint64" || f.ty == "unsigned long long")
            && (e == Ty.Scalar(I64) <==> f.ty == "int64" || f.ty == "long long")
            && (e == Ty.Scalar(F32) <==> f.ty == "float32" || f.ty == "float")
            && (e == Ty.Scalar(F64) <==> f.ty == "float64" || f.ty == "double")
            && (f.ty == "string" ==> e == Ty.Text(f.textBound))
  {
    D.NamesOfIntegers(f.ty);
    D.NamesOfOthers(f.ty);
    D.NamesOfStrings(f.ty);
  }

  /** Any other name stands for the built-in type of its resolved name, or else for the definition of that name. */
  lemma {:induction false} NamesAreFound(builtins: map<string, nat>, base: nat, defs: seq<D.Definition>,
      owner: D.Definition, f: D.Field)
    requires !D.IsPrimitiveName(f.ty)
    ensures var e, name := Element(builtins, base, defs, owner, f), D.CanonicalType(owner.package, f.ty);
            && e.Named?
            && if name in builtins then e.id == builtins[name]
               else (exists d :: d in defs && d.canonical == name) ==>
                 base <= e.id < base + |defs| && defs[e.id - base].canonical == name
  {
    D.PrimitivesAreNamed(f.ty);
  }

  lemma {:induction false} FieldTypesAt(element: ElementTypes, owner: D.Definition, fields: seq<D.Field>, k: nat)
    requires k < |fields|
    ensures Length(FieldTypes(element, owner, fields)) == |fields|
    ensures Nth(FieldTypes(element, owner, fields), k) == FieldType(element, owner, fields[k])
    decreases |fields|
  {
    if |fields| > 1 {
      FieldTypesAt(element, owner, fields[1..], if k > 0 then k - 1 else 0);
    }
  }

  /** The generated readers read the declared fields one for one, each in its container. */
  lemma {:induction false} GeneratedReads(s: Schema, element: ElementTypes, defs: seq<D.Definition>,
      sizes: seq<nat>, w: Wire, d: nat, k: nat)
    requires |sizes| == |defs| && d < |defs| && k < |defs[d].fields|
    ensures var fields, f := Fields(SchemaOf(s, element, defs, sizes), w, |s.types| + d), defs[d].fields[k];
            && Length(fields) == |defs[d].fields|
            && (f.container.Scalar? ==> Nth(fields, k) == element(defs[d], f))
            && (f.container.Array? ==> Nth(fields, k) == Ty.Array(f.length, element(defs[d], f)))
            && (f.container.Sequence? ==> Nth(fields, k) == Ty.Sequence(f.bound, element(defs[d], f)))
  {
    FieldsOf(s, element, defs, sizes, w, |s.types| + d);
    FieldTypesAt(element, defs[d], defs[d].fields, k);
  }

  /** Every name a field refers to is a built-in type or a collected one. */
  ghost predicate Known(builtins: map<string, nat>, defs: seq<D.Definition>, owner: D.Definition, f: D.Field) {
    D.IsPrimitive(f.ty)
    || D.CanonicalType(owner.package, f.ty) in builtins
    || C.Named(defs, D.CanonicalType(owner.package, f.ty))
  }

  ghost predicate AllKnown(builtins: map<string, nat>, defs: seq<D.Definition>) {
    forall d, f :: d in defs && f in d.fields ==> Known(builtins, defs, d, f)
  }

  lemma {:induction false} FieldRanksBelow(builtins: map<string, nat>, base: nat, defs: seq<D.Definition>,
      k: nat, f: D.Field)
    requires G.WellOrdered(defs) && k < |defs| && f in defs[k].fields && Known(builtins, defs, defs[k], f)
    requires forall name :: name in builtins ==> builtins[name] < base
    ensures Rank(FieldType(Elements(builtins, base, defs), defs[k], f)) <= base + k
  {
    var owner := defs[k];
    if G.ByValue(f) {
      var name := D.CanonicalType(owner.package, f.ty);
      if name !in builtins {
        var j := PlaceOfName(defs, name);
        assert j < |defs| && G.Holds(defs[k], defs[j]);
      }
    }
  }

  lemma {:induction false} FieldsRankBelow(builtins: map<string, nat>, base: nat, defs: seq<D.Definition>,
      k: nat, fields: seq<D.Field>)
    requires G.WellOrdered(defs) && k < |defs| && forall f :: f in fields ==> f in defs[k].fields
    requires forall f :: f in defs[k].fields ==> Known(builtins, defs, defs[k], f)
    requires forall name :: name in builtins ==> builtins[name] < base
    ensures RanksBelow(FieldTypes(Elements(builtins, base, defs), defs[k], fields), base + k)
  {
    if fields != [] {
      assert fields[0] in fields;
      FieldRanksBelow(builtins, base, defs, k, fields[0]);
      FieldsRankBelow(builtins, base, defs, k, fields[1..]);
    }
  }

  /**
   The order `collect` gives is the order the constants need: a generated type holds by value only
   types emitted before it.
   */
  lemma {:induction false} CollectedIsInOrder(s: Schema, builtins: map<string, nat>, defs: seq<D.Definition>,
      sizes: seq<nat>)
    requires InOrder(s) && |sizes| == |defs| && G.WellOrdered(defs) && AllKnown(builtins, defs)
    requires forall name :: name in builtins ==> builtins[name] < |s.types|
    ensures InOrder(SchemaOf(s, Elements(builtins, |s.types|, defs), defs, sizes))
  {
    var element := Elements(builtins, |s.types|, defs);
    forall k | 0 <= k < |defs|
      ensures Ranked(element, defs, |s.types|, k)
    {
      DefinitionInOrder(builtins, |s.types|, defs, k);
    }
    PlacedInOrder(s, element, defs, sizes);
  }

  lemma {:induction false} DefinitionInOrder(builtins: map<string, nat>, base: nat, defs: seq<D.Definition>, k: nat)
    requires G.WellOrdered(defs) && AllKnown(builtins, defs) && k < |defs|
    requires forall name :: name in builtins ==> builtins[name] < base
    ensures Ranked(Elements(builtins, base, defs), defs, base, k)
  {
    assert defs[k] in defs;
    FieldsRankBelow(builtins, base, defs, k, defs[k].fields);
  }

  /** In emission order a generated `WireMinimum` is the sum of its fields' final constants. */
  lemma {:induction false} GeneratedMinimum(s: Schema, element: ElementTypes, defs: seq<D.Definition>,
      sizes: seq<nat>, w: Wire, k: nat)
    requires |sizes| == |defs| && k < |defs| && InOrder(SchemaOf(s, element, defs, sizes))
    ensures var all := SchemaOf(s, element, defs, sizes);
            Minimum(all, w, Named(|s.types| + k))
            == MinimumAll(all, w, FieldTypes(element, defs[k], defs[k].fields), |all.types|)
  {
    MinimumIsSumOfFields(SchemaOf(s, element, defs, sizes), w, |s.types| + k);
    FieldsOf(s, element, defs, sizes, w, |s.types| + k);
  }

  /** What `collect` checks of the definitions is what the schema needs of them. */
  lemma {:induction false} SoundIsKnown(builtins: map<string, nat>, builtin: string -> bool,
      inputs: seq<D.Definition>, defs: seq<D.Definition>, sanitize: string -> string)
    requires G.AllSound(inputs, sanitize, builtin) && forall d :: d in defs <==> d in inputs
    requires forall name :: builtin(name) ==> name in builtins
    requires "builtin_interfaces/msg/Time" in builtins && "builtin_interfaces/msg/Duration" in builtins
    ensures AllKnown(builtins, defs)
  {
    forall d, f | d in defs && f in d.fields
      ensures Known(builtins, defs, d, f)
    {
      assert C.Sound(inputs, d, sanitize, builtin);
      ResolvesIsKnown(builtins, builtin, inputs, defs, d, f);
    }
  }

  lemma {:induction false} ResolvesIsKnown(builtins: map<string, nat>, builtin: string -> bool,
      inputs: seq<D.Definition>, defs: seq<D.Definition>, d: D.Definition, f: D.Field)
    requires C.Resolves(inputs, d, f, builtin) && forall x :: x in defs <==> x in inputs
    requires forall name :: builtin(name) ==> name in builtins
    requires "builtin_interfaces/msg/Time" in builtins && "builtin_interfaces/msg/Duration" in builtins
    ensures Known(builtins, defs, d, f)
  {
  }

  /** Generated types read the same fields in both formats, so they share thresholds if the built-in types do. */
  lemma {:induction false} GeneratedSchemaIsShared(s: Schema, element: ElementTypes, defs: seq<D.Definition>,
      sizes: seq<nat>)
    requires F.SharedFields(s) && |sizes| == |defs|
    ensures F.SharedFields(SchemaOf(s, element, defs, sizes))
  {
    var all := SchemaOf(s, element, defs, sizes);
    forall id: nat, w: Wire, w': Wire
      ensures F.AllAlike(all, F.WithoutScalars(Fields(all, w, id)), F.WithoutScalars(Fields(all, w', id)))
    {
      if id < |all.types| {
        FieldsOf(s, element, defs, sizes, w, id);
        FieldsOf(s, element, defs, sizes, w', id);
      }
      if id < |s.types| {
        var a, b := F.WithoutScalars(Fields(s, w, id)), F.WithoutScalars(Fields(s, w', id));
        F.AllAlikeAmongMore(s, all, a, b);
      } else {
        F.AllAlikeItself(all, F.WithoutScalars(Fields(all, w, id)));
      }
    }
  }
}
