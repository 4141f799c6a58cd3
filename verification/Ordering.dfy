/**
 Ordering definitions so that a type comes after everything it holds by value: a depth-first search
 in three colours over the graph of by-value references.
 */
module Ordering {
  /** For each definition, the positions of those it holds by value, in field order. */
  type Graph = seq<seq<nat>>

  ghost predicate Closed(g: Graph) {
    forall i, j :: 0 <= i < |g| && j in g[i] ==> j < |g|
  }

  ghost predicate Edge(g: Graph, i: nat, j: nat) {
    i < |g| && j in g[i]
  }

  ghost predicate IsPath(g: Graph, p: seq<nat>) {
    p != [] && forall k :: 0 <= k < |p| - 1 ==> Edge(g, p[k], p[k + 1])
  }

  ghost predicate IsCycle(g: Graph, p: seq<nat>) {
    |p| >= 2 && IsPath(g, p) && p[0] == p[|p| - 1]
  }

  ghost predicate Acyclic(g: Graph) {
    forall p :: !IsCycle(g, p)
  }

  ghost predicate Distinct(order: seq<nat>) {
    forall j, k :: 0 <= j < k < |order| ==> order[j] != order[k]
  }

  /** Everything comes after what it holds by value. */
  ghost predicate DependenciesFirst(g: Graph, order: seq<nat>) {
    forall k, j :: 0 <= k < |order| && order[k] < |g| && j in g[order[k]] ==> j in order[..k]
  }

  /** Every definition once, dependencies first. */
  ghost predicate IsOrder(g: Graph, order: seq<nat>) {
    && Distinct(order) && (forall i :: i in order <==> 0 <= i < |g|)
    && DependenciesFirst(g, order)
  }

  // ----- an order and a cycle exclude each other -----

  lemma {:induction false} EdgeGoesBack(g: Graph, order: seq<nat>, a: nat, b: nat)
    requires IsOrder(g, order) && a < |order| && b < |order| && Edge(g, order[a], order[b])
    ensures b < a
  {
    assert order[b] in order[..a];
  }

  /** Along a path the place in the order falls by at least one each step. */
  lemma {:induction false} PathGoesBack(g: Graph, order: seq<nat>, p: seq<nat>, a: nat, b: nat)
    requires IsOrder(g, order) && IsPath(g, p) && a < |order| && b < |order|
    requires order[a] == p[0] && order[b] == p[|p| - 1]
    ensures b + |p| - 1 <= a
    decreases |p|
  {
    if |p| == 1 {
      assert a == b;
    } else {
      assert Edge(g, p[0], p[1]);
      assert p[1] in g[order[a]] && p[1] in order[..a];
      var c :| 0 <= c < |order| && order[c] == p[1];
      EdgeGoesBack(g, order, a, c);
      forall k | 0 <= k < |p[1..]| - 1
        ensures Edge(g, p[1..][k], p[1..][k + 1])
      {
        assert Edge(g, p[k + 1], p[k + 2]);
      }
      PathGoesBack(g, order, p[1..], c, b);
    }
  }

  lemma {:induction false} OrderedIsAcyclic(g: Graph, order: seq<nat>)
    requires IsOrder(g, order)
    ensures Acyclic(g)
  {
    forall p
      ensures !IsCycle(g, p)
    {
      if IsCycle(g, p) {
        assert Edge(g, p[0], p[1]);
        assert p[0] in order;
        var a :| 0 <= a < |order| && order[a] == p[0];
        PathGoesBack(g, order, p, a, a);
        assert false;
      }
    }
  }

  // ----- the search -----

  const WHITE := 0
  const GREY := 1
  const BLACK := 2

  /**
   A search under way.  `stack` is the chain of visits not yet finished: the grey definitions, each
   holding the next by value.
   */
  ghost predicate Searching(g: Graph, state: seq<nat>, ordered: seq<nat>, stack: seq<nat>) {
    && Closed(g) && |state| == |g|
    && (forall i :: 0 <= i < |state| ==> state[i] == WHITE || state[i] == GREY || state[i] == BLACK)
    && (forall i :: i in stack <==> 0 <= i < |state| && state[i] == GREY)
    && (stack != [] ==> IsPath(g, stack))
    && (forall i :: i in ordered <==> 0 <= i < |state| && state[i] == BLACK)
    && Distinct(ordered) && DependenciesFirst(g, ordered)
  }

  ghost function Unvisited(state: seq<nat>): set<nat> {
    set i: nat | i < |state| && state[i] == WHITE
  }

  lemma {:induction false} SubsetSize(a: set<nat>, b: set<nat>)
    requires a <= b
    ensures |a| <= |b|
  {
    if a != {} {
      var x :| x in a;
      SubsetSize(a - {x}, b - {x});
    }
  }

  lemma {:induction false} Entered(g: Graph, state: seq<nat>, ordered: seq<nat>, stack: seq<nat>, index: nat)
    requires Searching(g, state, ordered, stack) && index < |g| && state[index] == WHITE
    requires stack != [] ==> Edge(g, stack[|stack| - 1], index)
    ensures Searching(g, state[index := GREY], ordered, stack + [index])
    ensures Unvisited(state[index := GREY]) == Unvisited(state) - {index} && index in Unvisited(state)
  {
    var chain := stack + [index];
    forall k | 0 <= k < |chain| - 1
      ensures Edge(g, chain[k], chain[k + 1])
    {
      assert k < |stack| - 1 ==> Edge(g, stack[k], stack[k + 1]);
    }
  }

  lemma {:induction false} Left(g: Graph, state: seq<nat>, ordered: seq<nat>, stack: seq<nat>, index: nat)
    requires Searching(g, state, ordered, stack + [index]) && index < |g| && index !in stack
    requires forall j :: j in g[index] ==> j < |state| && state[j] == BLACK
    ensures Searching(g, state[index := BLACK], ordered + [index], stack)
    ensures Unvisited(state[index := BLACK]) == Unvisited(state)
  {
    var chain, more, after := stack + [index], ordered + [index], state[index := BLACK];
    assert chain[|stack|] == index && index in chain;
    forall k | 0 <= k < |stack| - 1
      ensures Edge(g, stack[k], stack[k + 1])
    {
      assert Edge(g, chain[k], chain[k + 1]);
    }
    forall i
      ensures i in stack <==> 0 <= i < |after| && after[i] == GREY
    {
      assert i in chain <==> i in stack || i == index;
    }
    forall k, j | 0 <= k < |more| && more[k] < |g| && j in g[more[k]]
      ensures j in more[..k]
    {
      if k < |ordered| {
        assert more[..k] == ordered[..k];
      } else {
        assert more[..k] == ordered;
      }
    }
  }

  /** Meeting a grey definition closes a cycle. */
  lemma {:induction false} ClosesCycle(g: Graph, stack: seq<nat>, index: nat) returns (cycle: seq<nat>)
    requires stack != [] && IsPath(g, stack) && index in stack && Edge(g, stack[|stack| - 1], index)
    ensures IsCycle(g, cycle)
  {
    var k :| 0 <= k < |stack| && stack[k] == index;
    cycle := stack[k..] + [index];
    forall i | 0 <= i < |cycle| - 1
      ensures Edge(g, cycle[i], cycle[i + 1])
    {
      assert i < |stack| - k - 1 ==> Edge(g, stack[k + i], stack[k + i + 1]);
    }
  }

  class Visitor {
    const graph: Graph
    var state: seq<nat>
    var ordered: seq<nat>

    ghost predicate Valid(stack: seq<nat>)
      reads this
    {
      Searching(graph, state, ordered, stack)
    }

    constructor (graph: Graph)
      requires Closed(graph)
      ensures Valid([]) && this.graph == graph && ordered == []
    {
      this.graph := graph;
      state := seq(|graph|, _ => WHITE);
      ordered := [];
    }

    /** `visit`: either everything reachable from `index` is ordered, or a cycle has been met. */
    method Visit(index: nat, ghost stack: seq<nat>) returns (ok: bool, ghost cycle: seq<nat>)
      requires Valid(stack) && index < |graph|
      requires stack != [] ==> Edge(graph, stack[|stack| - 1], index)
      modifies this
      ensures ok ==> Valid(stack) && index in ordered && old(ordered) <= ordered
      ensures ok ==> Unvisited(state) <= old(Unvisited(state))
      ensures !ok ==> IsCycle(graph, cycle)
      decreases |Unvisited(state)|
    {
      cycle := [];
      if state[index] == BLACK {
        return true, [];
      }
      if state[index] == GREY {
        cycle := ClosesCycle(graph, stack, index);
        return false, cycle;
      }
      ghost var white, chain := Unvisited(state), stack + [index];
      Entered(graph, state, ordered, stack, index);
      state := state[index := GREY];
      assert chain[|chain| - 1] == index;
      for k := 0 to |graph[index]|
        invariant Valid(chain) && old(ordered) <= ordered
        invariant Unvisited(state) <= white - {index}
        invariant forall j :: 0 <= j < k ==> graph[index][j] in ordered
      {
        SubsetSize(Unvisited(state), white - {index});
        assert Edge(graph, index, graph[index][k]);
        ok, cycle := Visit(graph[index][k], chain);
        if !ok {
          return;
        }
      }
      Left(graph, state, ordered, stack, index);
      state, ordered := state[index := BLACK], ordered + [index];
      ok := true;
    }
  }

  /**
   The definitions can be ordered exactly if none holds itself by value, however indirectly; the
   order then has every definition once and after all it holds by value.
   */
  method Order(g: Graph) returns (ok: bool, ordered: seq<nat>)
    requires Closed(g)
    ensures ok <==> Acyclic(g)
    ensures ok ==> IsOrder(g, ordered)
  {
    var visitor := new Visitor(g);
    for i := 0 to |g|
      invariant visitor.Valid([]) && visitor.graph == g
      invariant forall j :: 0 <= j < i ==> j in visitor.ordered
    {
      ghost var cycle;
      ok, cycle := visitor.Visit(i, []);
      if !ok {
        return false, [];
      }
    }
    ok, ordered := true, visitor.ordered;
    OrderedIsAcyclic(g, ordered);
  }
}
