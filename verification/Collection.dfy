/** Collecting definitions: one of each name, whatever order the files came in, and every reference resolved. */
module Collection {
  import opened Definitions
  import Sorting

  /** What any sort by canonical name guarantees. */
  ghost predicate ByName(defs: seq<Definition>) {
    forall i, j :: 0 <= i < j < |defs| ==> NotAfter(defs[i].canonical, defs[j].canonical)
  }

  ghost predicate IsSort(sort: seq<Definition> -> seq<Definition>) {
    forall xs :: multiset(sort(xs)) == multiset(xs) && ByName(sort(xs))
  }

  /** Sorting by name can be done: insertion in the order of canonical names is such a sort. */
  lemma {:induction false} SortByNameExists()
    ensures IsSort(xs => Sorting.Sort(NameOrder(), xs))
  {
    forall a: Definition, b: Definition
      ensures NameOrder()(a, b) || NameOrder()(b, a)
    {
      NotAfterTotal(a.canonical, b.canonical);
    }
    forall a: Definition, b: Definition, c: Definition | NameOrder()(a, b) && NameOrder()(b, c)
      ensures NameOrder()(a, c)
    {
      NotAfterTransitive(a.canonical, b.canonical, c.canonical);
    }
    forall xs
      ensures ByName(Sorting.Sort(NameOrder(), xs))
    {
      Sorting.SortInOrder(NameOrder(), xs);
    }
  }

  function NameOrder(): (Definition, Definition) -> bool {
    (a: Definition, b: Definition) => NotAfter(a.canonical, b.canonical)
  }

  /** Each name once, in the order of the names. */
  ghost predicate StrictlyByName(defs: seq<Definition>) {
    forall i, j :: 0 <= i < j < |defs| ==>
      NotAfter(defs[i].canonical, defs[j].canonical) && defs[i].canonical != defs[j].canonical
  }

  /** Two inputs disagree about a name. */
  ghost predicate Conflict(defs: seq<Definition>) {
    exists a, b :: a in defs && b in defs && a.canonical == b.canonical && a != b
  }

  /** `same_definition`, field by field. */
  method SameDefinition(a: Definition, b: Definition) returns (same: bool)
    requires a.canonical == b.canonical
    ensures same <==> a == b
  {
    if a.package != b.package || a.name != b.name || |a.fields| != |b.fields| {
      return false;
    }
    for i := 0 to |a.fields|
      invariant forall k :: 0 <= k < i ==> a.fields[k] == b.fields[k]
    {
      var x, y := a.fields[i], b.fields[i];
      if x.ty != y.ty || x.name != y.name || x.container != y.container || x.length != y.length
         || x.bound != y.bound || x.textBound != y.textBound {
        return false;
      }
    }
    assert a.fields == b.fields;
    same := true;
  }

  /**
   Sorted by name, equal names stand together, so comparing each definition with the last one kept
   finds every conflict there is; the result has the same definitions as the input, each once.
   */
  method Deduplicate(inputs: seq<Definition>, sort: seq<Definition> -> seq<Definition>)
      returns (ok: bool, unique: seq<Definition>)
    requires IsSort(sort)
    ensures ok <==> !Conflict(inputs)
    ensures ok ==> StrictlyByName(unique) && forall d :: d in unique <==> d in inputs
  {
    var sorted := sort(inputs);
    SortedKeeps(sort, inputs);
    unique := [];
    for i := 0 to |sorted|
      invariant StrictlyByName(unique) && forall d :: d in unique <==> d in sorted[..i]
      invariant unique == [] <==> i == 0
      invariant i > 0 ==> unique[|unique| - 1] == sorted[i - 1]
    {
      var d := sorted[i];
      assert sorted[..i + 1] == sorted[..i] + [d];
      if unique != [] && unique[|unique| - 1].canonical == d.canonical {
        var same := SameDefinition(unique[|unique| - 1], d);
        if !same {
          assert sorted[i - 1] in sorted && d in sorted;
          return false, [];
        }
      } else {
        if i > 0 {
          NewName(sorted, unique, i);
        }
        unique := unique + [d];
      }
    }
    assert sorted[..|sorted|] == sorted;
    ok := true;
    forall a, b | a in inputs && b in inputs && a.canonical == b.canonical
      ensures a == b
    {
      assert a in unique && b in unique;
    }
  }

  lemma {:induction false} SortedKeeps(sort: seq<Definition> -> seq<Definition>, inputs: seq<Definition>)
    requires IsSort(sort)
    ensures ByName(sort(inputs)) && forall d :: d in sort(inputs) <==> d in inputs
  {
    assert multiset(sort(inputs)) == multiset(inputs);
    forall d
      ensures d in sort(inputs) <==> d in inputs
    {
      assert d in sort(inputs) <==> d in multiset(sort(inputs));
    }
  }

  /** A name that differs from the last one kept differs from all kept ones. */
  lemma {:induction false} NewName(sorted: seq<Definition>, unique: seq<Definition>, i: nat)
    requires ByName(sorted) && 0 < i < |sorted| && StrictlyByName(unique) && unique != []
    requires forall d :: d in unique ==> d in sorted[..i]
    requires unique[|unique| - 1] == sorted[i - 1] && sorted[i - 1].canonical != sorted[i].canonical
    ensures StrictlyByName(unique + [sorted[i]])
  {
    forall d | d in unique
      ensures NotAfter(d.canonical, sorted[i].canonical) && d.canonical != sorted[i].canonical
    {
      var k :| 0 <= k < i && sorted[k] == d;
      if d.canonical == sorted[i].canonical {
        assert NotAfter(sorted[i - 1].canonical, sorted[i].canonical);
        assert k < i - 1 ==> NotAfter(sorted[k].canonical, sorted[i - 1].canonical);
        NotAfterBoth(sorted[i - 1].canonical, sorted[i].canonical);
      }
    }
  }

  /** The definitions and the order of the names determine the result: the order of the inputs does not matter. */
  lemma {:induction false} OrderIndependent(a: seq<Definition>, b: seq<Definition>)
    requires StrictlyByName(a) && StrictlyByName(b) && forall d :: d in a <==> d in b
    ensures a == b
    decreases |a|
  {
    assert b == [] || b[0] in b;
    if a != [] {
      assert a[0] in a && b[0] in b && a[0] in b && b[0] in a;
      if a[0] != b[0] {
        var i :| 0 <= i < |a| && a[i] == b[0];
        var j :| 0 <= j < |b| && b[j] == a[0];
        NotAfterBoth(a[0].canonical, b[0].canonical);
        assert false;
      }
      forall d
        ensures d in a[1..] <==> d in b[1..]
      {
        assert d in a[1..] <==> d in a && d != a[0];
        assert d in b[1..] <==> d in b && d != b[0];
      }
      OrderIndependent(a[1..], b[1..]);
      assert a == [a[0]] + a[1..] && b == [b[0]] + b[1..];
    }
  }

  // ----- references -----

  ghost predicate Named(defs: seq<Definition>, canonical: string) {
    exists d :: d in defs && d.canonical == canonical
  }

  ghost predicate Resolves(defs: seq<Definition>, owner: Definition, f: Field, builtin: string -> bool) {
    var ty := CanonicalType(owner.package, f.ty);
    IsPrimitive(f.ty) || ty == "builtin_interfaces/msg/Time" || ty == "builtin_interfaces/msg/Duration"
    || Named(defs, ty) || builtin(ty)
  }

  ghost predicate DistinctNames(fields: seq<Field>, sanitize: string -> string) {
    forall j, k :: 0 <= j < k < |fields| ==> sanitize(fields[j].name) != sanitize(fields[k].name)
  }

  ghost predicate Sound(defs: seq<Definition>, owner: Definition, sanitize: string -> string, builtin: string -> bool) {
    DistinctNames(owner.fields, sanitize) && forall f :: f in owner.fields ==> Resolves(defs, owner, f, builtin)
  }

  /** What may be a field's type: a scalar or string, a time or duration, a definition, or a built-in type. */
  lemma {:induction false} ResolutionIs(defs: seq<Definition>, owner: Definition, f: Field, builtin: string -> bool)
    ensures Resolves(defs, owner, f, builtin)
      <==>
      || IsPrimitiveName(f.ty)
      || CanonicalType(owner.package, f.ty) == "builtin_interfaces/msg/Time"
      || CanonicalType(owner.package, f.ty) == "builtin_interfaces/msg/Duration"
      || (exists d :: d in defs && d.canonical == CanonicalType(owner.package, f.ty))
      || builtin(CanonicalType(owner.package, f.ty))
  {
    PrimitivesAreNamed(f.ty);
  }

  /** `positions`: where each canonical name is. */
  method Positions(defs: seq<Definition>) returns (positions: map<string, nat>)
    requires StrictlyByName(defs)
    ensures forall name :: name in positions <==> Named(defs, name)
    ensures forall name :: name in positions ==> positions[name] < |defs| && defs[positions[name]].canonical == name
  {
    positions := map[];
    for i := 0 to |defs|
      invariant forall name :: name in positions <==> Named(defs[..i], name)
      invariant forall name :: name in positions ==> positions[name] < i && defs[positions[name]].canonical == name
    {
      ghost var before := positions;
      assert defs[..i + 1] == defs[..i] + [defs[i]];
      positions := positions[defs[i].canonical := i];
      forall name
        ensures name in positions <==> Named(defs[..i + 1], name)
      {
        if Named(defs[..i + 1], name) {
          var d :| d in defs[..i + 1] && d.canonical == name;
          assert d != defs[i] ==> d in defs[..i];
        }
        if name in before {
          var d :| d in defs[..i] && d.canonical == name;
          assert d in defs[..i + 1];
        }
        assert defs[i] in defs[..i + 1];
      }
    }
    assert defs[..|defs|] == defs;
  }

  method CheckReference(ghost defs: seq<Definition>, owner: Definition, f: Field, positions: map<string, nat>,
      builtin: string -> bool) returns (ok: bool)
    requires forall name :: name in positions <==> Named(defs, name)
    ensures ok <==> Resolves(defs, owner, f, builtin)
  {
    if IsPrimitive(f.ty) {
      return true;
    }
    var ty := CanonicalType(owner.package, f.ty);
    ok := ty == "builtin_interfaces/msg/Time" || ty == "builtin_interfaces/msg/Duration"
          || ty in positions || builtin(ty);
  }

  /** The check of one definition: field names stay apart when sanitised, and every type is known. */
  method CheckFields(ghost defs: seq<Definition>, owner: Definition, positions: map<string, nat>,
      sanitize: string -> string, builtin: string -> bool) returns (ok: bool)
    requires forall name :: name in positions <==> Named(defs, name)
    ensures ok <==> Sound(defs, owner, sanitize, builtin)
  {
    var names: seq<string> := [];
    ghost var resolves := (f: Field) => Resolves(defs, owner, f, builtin);
    for i := 0 to |owner.fields|
      invariant NamesOf(owner.fields, sanitize, names, i)
      invariant forall k :: 0 <= k < i ==> resolves(owner.fields[k])
    {
      var isNew := AddName(owner.fields, sanitize, names, i);
      if !isNew {
        return false;
      }
      names := names + [sanitize(owner.fields[i].name)];
      var resolved := CheckReference(defs, owner, owner.fields[i], positions, builtin);
      assert resolved == resolves(owner.fields[i]);
      if !resolved {
        assert owner.fields[i] in owner.fields;
        return false;
      }
    }
    ok := true;
  }

  ghost predicate NamesOf(fields: seq<Field>, sanitize: string -> string, names: seq<string>, n: nat) {
    && |names| == n <= |fields|
    && (forall k :: 0 <= k < n ==> names[k] == sanitize(fields[k].name))
    && forall j, k :: 0 <= j < k < n ==> names[j] != names[k]
  }

  method AddName(fields: seq<Field>, sanitize: string -> string, names: seq<string>, i: nat) returns (isNew: bool)
    requires i < |fields| && NamesOf(fields, sanitize, names, i)
    ensures isNew ==> NamesOf(fields, sanitize, names + [sanitize(fields[i].name)], i + 1)
    ensures !isNew ==> !DistinctNames(fields, sanitize)
  {
    isNew := sanitize(fields[i].name) !in names;
    if !isNew {
      var k :| 0 <= k < |names| && names[k] == sanitize(fields[i].name);
      assert sanitize(fields[k].name) == sanitize(fields[i].name);
    }
  }
}
