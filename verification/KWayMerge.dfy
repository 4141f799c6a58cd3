/**
 Merging k sorted streams with a priority queue ordered by (timestamp, source), and the theorem
 that this is one stable sort of the streams laid end to end.
 */
module KWayMerge {
  import opened Wrappers
  import opened StableOrder

  function Flatten<T>(xss: seq<seq<Timed<T>>>): seq<Timed<T>> {
    if xss == [] then [] else xss[0] + Flatten(xss[1..])
  }

  function Total<T>(xss: seq<seq<Timed<T>>>): nat {
    if xss == [] then 0 else |xss[0]| + Total(xss[1..])
  }

  /** `HeapCompare`: earlier timestamps first, ties in source order. */
  predicate Before(time: nat, source: nat, time': nat, source': nat) {
    time < time' || (time == time' && source <= source')
  }

  ghost predicate IsLeast<T>(xss: seq<seq<Timed<T>>>, i: nat) {
    && i < |xss| && xss[i] != []
    && forall j :: 0 <= j < |xss| && xss[j] != [] ==> Before(xss[i][0].time, i, xss[j][0].time, j)
  }

  /** The stream whose front comes first, if any stream is left. */
  function Least<T>(xss: seq<seq<Timed<T>>>): (r: Option<nat>)
    ensures r.None? ==> forall j :: 0 <= j < |xss| ==> xss[j] == []
    ensures r.Some? ==> IsLeast(xss, r.value)
  {
    if xss == [] then None
    else
      var last := |xss| - 1;
      var rest := Least(xss[..last]);
      if xss[last] == [] then rest
      else if rest.None? || xss[last][0].time < xss[rest.value][0].time then Some(last)
      else rest
  }

  /** Take the least front again and again. */
  function Merge<T>(xss: seq<seq<Timed<T>>>): seq<Timed<T>>
    decreases Total(xss)
  {
    match Least(xss)
    case None => []
    case Some(i) =>
      TotalDrops(xss, i);
      [xss[i][0]] + Merge(xss[i := xss[i][1..]])
  }

  lemma {:induction false} TotalDrops<T>(xss: seq<seq<Timed<T>>>, i: nat)
    requires i < |xss| && xss[i] != []
    ensures Total(xss[i := xss[i][1..]]) == Total(xss) - 1
  {
    var yss := xss[i := xss[i][1..]];
    if i == 0 {
      assert yss[1..] == xss[1..];
    } else {
      TotalDrops(xss[1..], i - 1);
      assert yss[1..] == xss[1..][i - 1 := xss[i][1..]];
    }
  }

  lemma {:induction false} LeastIsUnique<T>(xss: seq<seq<Timed<T>>>, i: nat, j: nat)
    requires IsLeast(xss, i) && IsLeast(xss, j)
    ensures i == j
  {
  }

  lemma {:induction false} FlattenMember<T>(xss: seq<seq<Timed<T>>>, x: Timed<T>)
    ensures x in Flatten(xss) <==> exists j :: 0 <= j < |xss| && x in xss[j]
  {
    if xss != [] {
      FlattenMember(xss[1..], x);
      if j :| 0 <= j < |xss[1..]| && x in xss[1..][j] {
        assert x in xss[j + 1];
      }
      if j :| 0 <= j < |xss| && x in xss[j] {
        assert j > 0 ==> x in xss[1..][j - 1];
      }
    }
  }

  /** Removing the front of stream i removes one item from its place among the ties. */
  lemma {:induction false} FlattenDrop<T>(xss: seq<seq<Timed<T>>>, i: nat, t: nat)
    requires i < |xss| && xss[i] != []
    requires forall j :: 0 <= j < i ==> AtTime(xss[j], xss[i][0].time) == []
    ensures AtTime(Flatten(xss), t)
            == (if t == xss[i][0].time then [xss[i][0]] else []) + AtTime(Flatten(xss[i := xss[i][1..]]), t)
  {
    var yss := xss[i := xss[i][1..]];
    AtTimeConcat(xss[0], Flatten(xss[1..]), t);
    AtTimeConcat(yss[0], Flatten(yss[1..]), t);
    if i == 0 {
      assert yss[1..] == xss[1..];
    } else {
      assert yss[1..] == xss[1..][i - 1 := xss[i][1..]];
      FlattenDrop(xss[1..], i - 1, t);
    }
  }

  lemma {:induction false} EarlierStreamsLackTies<T>(xss: seq<seq<Timed<T>>>, i: nat, j: nat)
    requires IsLeast(xss, i) && j < i && Sorted(xss[j])
    ensures AtTime(xss[j], xss[i][0].time) == []
  {
    AtTimeEmpty(xss[j], xss[i][0].time);
    forall x | x in xss[j]
      ensures x.time != xss[i][0].time
    {
      SortedFront(xss[j], x);
    }
  }

  lemma {:induction false} LeastBoundsAll<T>(xss: seq<seq<Timed<T>>>, i: nat, x: Timed<T>)
    requires IsLeast(xss, i) && x in Flatten(xss) && forall j :: 0 <= j < |xss| ==> Sorted(xss[j])
    ensures xss[i][0].time <= x.time
  {
    FlattenMember(xss, x);
    var j :| 0 <= j < |xss| && x in xss[j];
    SortedFront(xss[j], x);
  }

  /**
   Merging sorted streams is stably sorting them laid end to end: every item exactly once, ordered
   by timestamp, then source, then position in its source.
   */
  lemma {:induction false} MergeIsStableSort<T>(xss: seq<seq<Timed<T>>>)
    requires forall j :: 0 <= j < |xss| ==> Sorted(xss[j])
    ensures IsStableSort(Merge(xss), Flatten(xss))
    decreases Total(xss)
  {
    match Least(xss)
    case None => AllEmpty(xss);
    case Some(i) =>
      var front, yss := xss[i][0], xss[i := xss[i][1..]];
      TotalDrops(xss, i);
      MergeIsStableSort(yss);
      forall j | 0 <= j < i
        ensures AtTime(xss[j], front.time) == []
      {
        EarlierStreamsLackTies(xss, i, j);
      }
      var rest := Merge(yss);
      forall x | x in rest
        ensures front.time <= x.time
      {
        SameTiesMember(rest, Flatten(yss), x);
        FlattenKeeps(xss, i, x);
        LeastBoundsAll(xss, i, x);
      }
      SortedCons(front, rest);
      forall t
        ensures AtTime(Merge(xss), t) == AtTime(Flatten(xss), t)
      {
        FlattenDrop(xss, i, t);
        assert AtTime(rest, t) == AtTime(Flatten(yss), t);
        assert ([front] + rest)[1..] == rest;
      }
  }

  lemma {:induction false} AllEmpty<T>(xss: seq<seq<Timed<T>>>)
    requires forall j :: 0 <= j < |xss| ==> xss[j] == []
    ensures Flatten(xss) == []
  {
    if xss != [] {
      AllEmpty(xss[1..]);
    }
  }

  lemma {:induction false} FlattenKeeps<T>(xss: seq<seq<Timed<T>>>, i: nat, x: Timed<T>)
    requires i < |xss| && xss[i] != [] && x in Flatten(xss[i := xss[i][1..]])
    ensures x in Flatten(xss)
  {
    var yss := xss[i := xss[i][1..]];
    FlattenMember(yss, x);
    var j :| 0 <= j < |yss| && x in yss[j];
    assert x in xss[j];
    FlattenMember(xss, x);
  }

  /** Merging merges is merging everything: nesting does not disturb the order of ties. */
  lemma {:induction false} MergeOfMerges<T>(groups: seq<seq<seq<Timed<T>>>>)
    requires forall g, j :: 0 <= g < |groups| && 0 <= j < |groups[g]| ==> Sorted(groups[g][j])
    ensures Merge(MergeEach(groups)) == StableSort(Flatten(FlattenEach(groups)))
    ensures Merge(MergeEach(groups)) == Merge(Concat(groups))
  {
    var merged := MergeEach(groups);
    forall g | 0 <= g < |groups|
      ensures Sorted(merged[g]) && SameTies(merged[g], FlattenEach(groups)[g])
    {
      MergeIsStableSort(groups[g]);
    }
    MergeIsStableSort(merged);
    forall t
      ensures AtTime(Merge(merged), t) == AtTime(Flatten(FlattenEach(groups)), t)
    {
      assert AtTime(Merge(merged), t) == AtTime(Flatten(merged), t);
      FlattenTies(merged, FlattenEach(groups), t);
    }
    IsTheStableSort(Merge(merged), Flatten(FlattenEach(groups)));
    ConcatSorted(groups);
    MergeIsStableSort(Concat(groups));
    FlattenConcat(groups);
    IsTheStableSort(Merge(Concat(groups)), Flatten(FlattenEach(groups)));
  }

  function MergeEach<T>(groups: seq<seq<seq<Timed<T>>>>): (r: seq<seq<Timed<T>>>)
    ensures |r| == |groups| && forall g :: 0 <= g < |groups| ==> r[g] == Merge(groups[g])
  {
    seq(|groups|, g requires 0 <= g < |groups| => Merge(groups[g]))
  }

  function FlattenEach<T>(groups: seq<seq<seq<Timed<T>>>>): (r: seq<seq<Timed<T>>>)
    ensures |r| == |groups| && forall g :: 0 <= g < |groups| ==> r[g] == Flatten(groups[g])
  {
    seq(|groups|, g requires 0 <= g < |groups| => Flatten(groups[g]))
  }

  function Concat<T>(groups: seq<seq<seq<Timed<T>>>>): seq<seq<Timed<T>>> {
    if groups == [] then [] else groups[0] + Concat(groups[1..])
  }

  lemma {:induction false} FlattenTies<T>(xss: seq<seq<Timed<T>>>, yss: seq<seq<Timed<T>>>, t: nat)
    requires |xss| == |yss| && forall j :: 0 <= j < |xss| ==> AtTime(xss[j], t) == AtTime(yss[j], t)
    ensures AtTime(Flatten(xss), t) == AtTime(Flatten(yss), t)
  {
    if xss != [] {
      AtTimeConcat(xss[0], Flatten(xss[1..]), t);
      AtTimeConcat(yss[0], Flatten(yss[1..]), t);
      FlattenTies(xss[1..], yss[1..], t);
    }
  }

  lemma {:induction false} FlattenAppend<T>(xss: seq<seq<Timed<T>>>, yss: seq<seq<Timed<T>>>)
    ensures Flatten(xss + yss) == Flatten(xss) + Flatten(yss)
  {
    if xss == [] {
      assert xss + yss == yss;
    } else {
      assert (xss + yss)[1..] == xss[1..] + yss;
      FlattenAppend(xss[1..], yss);
    }
  }

  lemma {:induction false} FlattenConcat<T>(groups: seq<seq<seq<Timed<T>>>>)
    ensures Flatten(Concat(groups)) == Flatten(FlattenEach(groups))
  {
    if groups != [] {
      FlattenConcat(groups[1..]);
      FlattenAppend(groups[0], Concat(groups[1..]));
      assert FlattenEach(groups)[1..] == FlattenEach(groups[1..]);
    }
  }

  lemma {:induction false} ConcatSorted<T>(groups: seq<seq<seq<Timed<T>>>>)
    requires forall g, j :: 0 <= g < |groups| && 0 <= j < |groups[g]| ==> Sorted(groups[g][j])
    ensures forall j :: 0 <= j < |Concat(groups)| ==> Sorted(Concat(groups)[j])
  {
    if groups != [] {
      var rest := groups[1..];
      assert forall g, j :: 0 <= g < |rest| && 0 <= j < |rest[g]| ==> rest[g][j] == groups[g + 1][j];
      ConcatSorted(rest);
    }
  }
}
