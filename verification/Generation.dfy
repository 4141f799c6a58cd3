/** `collect` as a whole: deduplicate, resolve, order. */
module Generation {
  import opened Definitions
  import opened Collection
  import opened Ordering

  predicate ByValue(f: Field) {
    !f.container.Sequence? && !IsPrimitive(f.ty)
  }

  /** A value of `a` contains a value of `b`. */
  ghost predicate Holds(a: Definition, b: Definition) {
    exists f :: f in a.fields && ByValue(f) && CanonicalType(a.package, f.ty) == b.canonical
  }

  /** What is held is named by a field that is neither a sequence nor a scalar or string. */
  lemma {:induction false} HoldsMeans(a: Definition, b: Definition)
    ensures Holds(a, b)
       <==> exists k :: 0 <= k < |a.fields| && !a.fields[k].container.Sequence?
                        && !IsPrimitiveName(a.fields[k].ty) && CanonicalType(a.package, a.fields[k].ty) == b.canonical
  {
    forall f | f in a.fields
      ensures ByValue(f) <==> !f.container.Sequence? && !IsPrimitiveName(f.ty)
    {
      PrimitivesAreNamed(f.ty);
    }
    if Holds(a, b) {
      var f :| f in a.fields && ByValue(f) && CanonicalType(a.package, f.ty) == b.canonical;
      var k :| 0 <= k < |a.fields| && a.fields[k] == f;
    }
  }

  /** Definitions each holding the next, the last being the first again. */
  ghost predicate HoldsItself(defs: seq<Definition>, chain: seq<Definition>) {
    && |chain| >= 2 && chain[0] == chain[|chain| - 1]
    && (forall d :: d in chain ==> d in defs)
    && forall k :: 0 <= k < |chain| - 1 ==> Holds(chain[k], chain[k + 1])
  }

  ghost predicate Unbounded(defs: seq<Definition>) {
    exists chain :: HoldsItself(defs, chain)
  }

  /** The positions of what the first n fields hold by value, in field order. */
  function Dependencies(owner: Definition, positions: map<string, nat>, n: nat): seq<nat>
    requires n <= |owner.fields|
  {
    if n == 0 then []
    else Dependencies(owner, positions, n - 1) + DependencyOf(owner, owner.fields[n - 1], positions)
  }

  function DependencyOf(owner: Definition, f: Field, positions: map<string, nat>): seq<nat> {
    if !ByValue(f) then []
    else
      var ty := CanonicalType(owner.package, f.ty);
      if ty in positions then [positions[ty]] else []
  }

  function GraphOf(defs: seq<Definition>, positions: map<string, nat>): (g: Graph)
    ensures |g| == |defs|
    ensures forall i :: 0 <= i < |defs| ==> g[i] == Dependencies(defs[i], positions, |defs[i].fields|)
  {
    seq(|defs|, i requires 0 <= i < |defs| => Dependencies(defs[i], positions, |defs[i].fields|))
  }

  ghost predicate Locates(positions: map<string, nat>, defs: seq<Definition>) {
    && (forall name :: name in positions <==> Named(defs, name))
    && forall name :: name in positions ==> positions[name] < |defs| && defs[positions[name]].canonical == name
  }

  lemma {:induction false} DependencyIn(owner: Definition, positions: map<string, nat>, n: nat, j: nat)
      returns (f: Field)
    requires n <= |owner.fields| && j in Dependencies(owner, positions, n)
    ensures f in owner.fields && j in DependencyOf(owner, f, positions)
  {
    if j in Dependencies(owner, positions, n - 1) {
      f := DependencyIn(owner, positions, n - 1, j);
    } else {
      f := owner.fields[n - 1];
    }
  }

  lemma {:induction false} DependencyFound(owner: Definition, positions: map<string, nat>, n: nat, k: nat, j: nat)
    requires k < n <= |owner.fields| && j in DependencyOf(owner, owner.fields[k], positions)
    ensures j in Dependencies(owner, positions, n)
  {
    if k < n - 1 {
      DependencyFound(owner, positions, n - 1, k, j);
    }
  }

  /** The graph's edges are the by-value references. */
  lemma {:induction false} EdgeIsHolds(defs: seq<Definition>, positions: map<string, nat>, i: nat, j: nat)
    requires StrictlyByName(defs) && Locates(positions, defs) && i < |defs|
    ensures Edge(GraphOf(defs, positions), i, j) <==> j < |defs| && Holds(defs[i], defs[j])
  {
    var owner := defs[i];
    if j in Dependencies(owner, positions, |owner.fields|) {
      var f := DependencyIn(owner, positions, |owner.fields|, j);
      assert CanonicalType(owner.package, f.ty) == defs[j].canonical;
    }
    if j < |defs| && Holds(owner, defs[j]) {
      var f :| f in owner.fields && ByValue(f) && CanonicalType(owner.package, f.ty) == defs[j].canonical;
      var k :| 0 <= k < |owner.fields| && owner.fields[k] == f;
      assert defs[j] in defs && Named(defs, defs[j].canonical);
      assert positions[defs[j].canonical] == j;
      DependencyFound(owner, positions, |owner.fields|, k, j);
    }
  }

  lemma {:induction false} GraphIsClosed(defs: seq<Definition>, positions: map<string, nat>)
    requires StrictlyByName(defs) && Locates(positions, defs)
    ensures Closed(GraphOf(defs, positions))
  {
    var g := GraphOf(defs, positions);
    forall i, j | 0 <= i < |g| && j in g[i]
      ensures j < |g|
    {
      EdgeIsHolds(defs, positions, i, j);
      assert Edge(g, i, j);
    }
  }

  function At(defs: seq<Definition>, p: seq<nat>): (chain: seq<Definition>)
    requires forall k :: 0 <= k < |p| ==> p[k] < |defs|
    ensures |chain| == |p| && forall k :: 0 <= k < |p| ==> chain[k] == defs[p[k]]
  {
    seq(|p|, k requires 0 <= k < |p| => defs[p[k]])
  }

  lemma {:induction false} CycleHoldsItself(defs: seq<Definition>, positions: map<string, nat>, p: seq<nat>)
    requires StrictlyByName(defs) && Locates(positions, defs) && IsCycle(GraphOf(defs, positions), p)
    ensures Unbounded(defs)
  {
    var g := GraphOf(defs, positions);
    forall k | 0 <= k < |p|
      ensures p[k] < |defs|
    {
      assert Edge(g, p[0], p[1]);
      if k < |p| - 1 {
        assert Edge(g, p[k], p[k + 1]);
      }
    }
    var chain := At(defs, p);
    forall k | 0 <= k < |chain| - 1
      ensures Holds(chain[k], chain[k + 1])
    {
      assert Edge(g, p[k], p[k + 1]);
      EdgeIsHolds(defs, positions, p[k], p[k + 1]);
    }
    assert HoldsItself(defs, chain);
  }

  function PlaceOf(defs: seq<Definition>, d: Definition): (i: nat)
    requires d in defs
    ensures i < |defs| && defs[i] == d
  {
    if defs[0] == d then 0 else 1 + PlaceOf(defs[1..], d)
  }

  lemma {:induction false} HoldsItselfCycles(defs: seq<Definition>, positions: map<string, nat>, chain: seq<Definition>)
    requires StrictlyByName(defs) && Locates(positions, defs) && HoldsItself(defs, chain)
    ensures !Acyclic(GraphOf(defs, positions))
  {
    var g := GraphOf(defs, positions);
    assert forall k :: 0 <= k < |chain| ==> chain[k] in defs;
    var p := seq(|chain|, k requires 0 <= k < |chain| => PlaceOf(defs, chain[k]));
    forall k | 0 <= k < |p| - 1
      ensures Edge(g, p[k], p[k + 1])
    {
      assert Holds(chain[k], chain[k + 1]);
      EdgeIsHolds(defs, positions, p[k], p[k + 1]);
    }
    assert IsCycle(g, p);
  }

  /** Every definition once, and after every definition it holds by value. */
  ghost predicate WellOrdered(ordered: seq<Definition>) {
    && (forall j, k :: 0 <= j < k < |ordered| ==> ordered[j].canonical != ordered[k].canonical)
    && forall j, k :: 0 <= j < |ordered| && 0 <= k < |ordered| && Holds(ordered[k], ordered[j]) ==> j < k
  }

  lemma {:induction false} OrderWellOrders(defs: seq<Definition>, positions: map<string, nat>, order: seq<nat>)
    requires StrictlyByName(defs) && Locates(positions, defs) && IsOrder(GraphOf(defs, positions), order)
    ensures forall k :: 0 <= k < |order| ==> order[k] < |defs|
    ensures WellOrdered(At(defs, order)) && forall d :: d in At(defs, order) <==> d in defs
  {
    var g := GraphOf(defs, positions);
    forall k | 0 <= k < |order|
      ensures order[k] < |defs|
    {
      assert order[k] in order;
    }
    var ordered := At(defs, order);
    forall j, k | 0 <= j < k < |ordered|
      ensures ordered[j].canonical != ordered[k].canonical
    {
      assert order[j] != order[k] && order[j] in order && order[k] in order;
      DistinctNamesApart(defs, order[j], order[k]);
    }
    forall j, k | 0 <= j < |ordered| && 0 <= k < |ordered| && Holds(ordered[k], ordered[j])
      ensures j < k
    {
      assert order[j] in order && order[k] in order;
      EdgeIsHolds(defs, positions, order[k], order[j]);
      EdgeGoesBack(g, order, k, j);
    }
    assert forall d :: d in ordered ==> d in defs;
    forall d | d in defs
      ensures d in ordered
    {
      var i := PlaceOf(defs, d);
      assert i in order;
      var k :| 0 <= k < |order| && order[k] == i;
      assert ordered[k] == d;
    }
  }

  lemma {:induction false} DistinctNamesApart(defs: seq<Definition>, i: nat, j: nat)
    requires StrictlyByName(defs) && i < |defs| && j < |defs| && i != j
    ensures defs[i].canonical != defs[j].canonical
  {
  }

  ghost predicate AllSound(defs: seq<Definition>, sanitize: string -> string, builtin: string -> bool) {
    forall d :: d in defs ==> Sound(defs, d, sanitize, builtin)
  }

  datatype Outcome = Collected(defs: seq<Definition>) | Conflicting | Unsound | Cyclic

  /** Resolution does not depend on the order or the number of copies of the definitions. */
  lemma {:induction false} SameSoundness(a: seq<Definition>, b: seq<Definition>, sanitize: string -> string,
      builtin: string -> bool)
    requires forall d :: d in a <==> d in b
    ensures AllSound(a, sanitize, builtin) <==> AllSound(b, sanitize, builtin)
  {
    assert forall name :: Named(a, name) <==> Named(b, name);
    forall d | d in a
      ensures Sound(a, d, sanitize, builtin) <==> Sound(b, d, sanitize, builtin)
    {
      forall f | f in d.fields
        ensures Resolves(a, d, f, builtin) <==> Resolves(b, d, f, builtin)
      {
      }
    }
  }

  lemma {:induction false} SameUnbounded(a: seq<Definition>, b: seq<Definition>)
    requires forall d :: d in a <==> d in b
    ensures Unbounded(a) ==> Unbounded(b)
  {
    if Unbounded(a) {
      var chain :| HoldsItself(a, chain);
      assert HoldsItself(b, chain);
    }
  }

  /**
   `collect`: each error is raised exactly when it should be, in this order of precedence, and on
   success every input definition is there once, after everything it holds by value.
   */
  method Collect(inputs: seq<Definition>, sort: seq<Definition> -> seq<Definition>, sanitize: string -> string,
      builtin: string -> bool) returns (r: Outcome)
    requires IsSort(sort)
    ensures r.Conflicting? <==> Conflict(inputs)
    ensures r.Unsound? <==> !Conflict(inputs) && !AllSound(inputs, sanitize, builtin)
    ensures r.Cyclic? <==> !Conflict(inputs) && AllSound(inputs, sanitize, builtin) && Unbounded(inputs)
    ensures r.Collected? ==> WellOrdered(r.defs) && forall d :: d in r.defs <==> d in inputs
  {
    var ok, unique := Deduplicate(inputs, sort);
    if !ok {
      return Conflicting;
    }
    var positions := Positions(unique);
    SameSoundness(unique, inputs, sanitize, builtin);
    ok := CheckAll(unique, positions, sanitize, builtin);
    if !ok {
      return Unsound;
    }
    SameUnbounded(inputs, unique);
    SameUnbounded(unique, inputs);
    r := OrderDefinitions(unique, positions);
  }

  method CheckAll(unique: seq<Definition>, positions: map<string, nat>, sanitize: string -> string,
      builtin: string -> bool) returns (ok: bool)
    requires Locates(positions, unique)
    ensures ok <==> AllSound(unique, sanitize, builtin)
  {
    for i := 0 to |unique|
      invariant forall k :: 0 <= k < i ==> Sound(unique, unique[k], sanitize, builtin)
    {
      ok := CheckFields(unique, unique[i], positions, sanitize, builtin);
      if !ok {
        assert unique[i] in unique;
        return false;
      }
    }
    ok := true;
  }

  method OrderDefinitions(unique: seq<Definition>, positions: map<string, nat>) returns (r: Outcome)
    requires StrictlyByName(unique) && Locates(positions, unique)
    ensures r.Cyclic? <==> Unbounded(unique)
    ensures !r.Cyclic? ==> r.Collected? && WellOrdered(r.defs) && forall d :: d in r.defs <==> d in unique
  {
    var g := GraphOf(unique, positions);
    GraphIsClosed(unique, positions);
    var ok, order := Order(g);
    if !ok {
      ghost var p :| IsCycle(g, p);
      CycleHoldsItself(unique, positions, p);
      return Cyclic;
    }
    if Unbounded(unique) {
      ghost var chain :| HoldsItself(unique, chain);
      HoldsItselfCycles(unique, positions, chain);
    }
    OrderWellOrders(unique, positions, order);
    r := Collected(At(unique, order));
  }

  /** Definitions whose fields have no other types than scalars and strings hold nothing. */
  lemma {:induction false} PrimitivesHoldNothing(defs: seq<Definition>)
    requires forall d, f :: d in defs && f in d.fields ==> IsPrimitiveName(f.ty)
    ensures !Unbounded(defs)
  {
    forall d, f | d in defs && f in d.fields
      ensures !ByValue(f)
    {
      PrimitivesAreNamed(f.ty);
    }
    if chain :| HoldsItself(defs, chain) {
      assert Holds(chain[0], chain[1]) && chain[0] in chain;
    }
  }

  /** Fields with the names of scalars and strings always resolve. */
  lemma {:induction false} PrimitivesAreSound(defs: seq<Definition>, sanitize: string -> string,
      builtin: string -> bool)
    requires forall d, f :: d in defs && f in d.fields ==> IsPrimitiveName(f.ty)
    requires forall d :: d in defs ==>
      forall j, k :: 0 <= j < k < |d.fields| ==> sanitize(d.fields[j].name) != sanitize(d.fields[k].name)
    ensures AllSound(defs, sanitize, builtin)
  {
    forall d, f | d in defs && f in d.fields
      ensures Resolves(defs, d, f, builtin)
    {
      PrimitivesAreNamed(f.ty);
    }
  }

  /** Collecting definitions of nothing but scalars and strings succeeds, unless two of one name differ. */
  method CollectPrimitives(inputs: seq<Definition>, sort: seq<Definition> -> seq<Definition>,
      sanitize: string -> string, builtin: string -> bool) returns (r: Outcome)
    requires IsSort(sort) && forall d, f :: d in inputs && f in d.fields ==> IsPrimitiveName(f.ty)
    requires forall d :: d in inputs ==>
      forall j, k :: 0 <= j < k < |d.fields| ==> sanitize(d.fields[j].name) != sanitize(d.fields[k].name)
    ensures r.Conflicting? <==> exists a, b :: a in inputs && b in inputs && a.canonical == b.canonical && a != b
    ensures !r.Conflicting? ==> r.Collected? && forall d :: d in r.defs <==> d in inputs
  {
    PrimitivesAreSound(inputs, sanitize, builtin);
    PrimitivesHoldNothing(inputs);
    r := Collect(inputs, sort, sanitize, builtin);
  }
}
