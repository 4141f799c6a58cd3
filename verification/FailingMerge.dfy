/**
 Merges some of whose streams fail once they are exhausted.  The merge that refills a source only when
 the next message is asked for delivers everything up to the last message of the stream that fails
 first, and nothing beyond it.
 */
module FailingMerge {
  import opened Wrappers
  import opened StableOrder
  import opened KWayMerge

  /** A stream that fails has nothing left to deliver. */
  predicate Due<T(==)>(xss: seq<seq<Timed<T>>>, bad: seq<bool>)
    requires |bad| == |xss|
  {
    exists i :: 0 <= i < |xss| && bad[i] && xss[i] == []
  }

  /** The least front again and again, until a failure is due. */
  function UpToFailure<T(==)>(xss: seq<seq<Timed<T>>>, bad: seq<bool>): seq<Timed<T>>
    requires |bad| == |xss|
    decreases Total(xss)
  {
    if Due(xss, bad) then []
    else
      match Least(xss)
      case None => []
      case Some(i) =>
        TotalDrops(xss, i);
        [xss[i][0]] + UpToFailure(xss[i := xss[i][1..]], bad)
  }

  // ----- where that is in the whole merge -----

  /** The stream each message of the merge comes from. */
  function Origins<T>(xss: seq<seq<Timed<T>>>): (origins: seq<nat>)
    ensures |origins| == |Merge(xss)|
    decreases Total(xss)
  {
    match Least(xss)
    case None => []
    case Some(i) =>
      TotalDrops(xss, i);
      [i] + Origins(xss[i := xss[i][1..]])
  }

  /** The messages that come from stream `i`. */
  function From<T>(xs: seq<Timed<T>>, origins: seq<nat>, i: nat): seq<Timed<T>>
    requires |xs| == |origins|
  {
    if xs == [] then []
    else (if origins[0] == i then [xs[0]] else []) + From(xs[1..], origins[1..], i)
  }

  lemma {:induction false} OriginsTellStreams<T>(xss: seq<seq<Timed<T>>>, k: nat)
    requires k < |xss|
    ensures From(Merge(xss), Origins(xss), k) == xss[k]
    decreases Total(xss)
  {
    match Least(xss)
    case None =>
    case Some(i) =>
      var yss := xss[i := xss[i][1..]];
      TotalDrops(xss, i);
      OriginsTellStreams(yss, k);
      assert Merge(xss)[1..] == Merge(yss) && Origins(xss)[1..] == Origins(yss);
  }

  /** The place just after the last message from stream `i`, the front if there is none. */
  function Last(origins: seq<nat>, i: nat): nat {
    if origins == [] then 0
    else
      var n := Last(origins[1..], i);
      if n > 0 || origins[0] == i then n + 1 else 0
  }

  /** The first of these places among the streams that fail, the end if none does. */
  function Cut(origins: seq<nat>, bad: seq<bool>): nat {
    CutBelow(origins, bad, |bad|)
  }

  /** The same among the first `k` streams. */
  function CutBelow(origins: seq<nat>, bad: seq<bool>, k: nat): nat
    requires k <= |bad|
  {
    if k == 0 then |origins|
    else
      var n := CutBelow(origins, bad, k - 1);
      if bad[k - 1] && Last(origins, k - 1) < n then Last(origins, k - 1) else n
  }

  lemma {:induction false} LastIsLast(origins: seq<nat>, i: nat)
    ensures Last(origins, i) <= |origins|
    ensures Last(origins, i) > 0 ==> origins[Last(origins, i) - 1] == i
    ensures forall k :: Last(origins, i) <= k < |origins| ==> origins[k] != i
  {
    if origins != [] {
      LastIsLast(origins[1..], i);
      forall k | Last(origins, i) <= k < |origins|
        ensures origins[k] != i
      {
        assert k > 0 ==> origins[k] == origins[1..][k - 1];
      }
    }
  }

  lemma {:induction false} CutIsLeast(origins: seq<nat>, bad: seq<bool>, k: nat)
    requires k <= |bad|
    ensures CutBelow(origins, bad, k) <= |origins|
    ensures forall i :: 0 <= i < k && bad[i] ==> CutBelow(origins, bad, k) <= Last(origins, i)
    ensures CutBelow(origins, bad, k) < |origins| ==>
      exists i :: 0 <= i < k && bad[i] && CutBelow(origins, bad, k) == Last(origins, i)
  {
    if k > 0 {
      CutIsLeast(origins, bad, k - 1);
      if bad[k - 1] {
        LastIsLast(origins, k - 1);
      }
    }
  }

  /**
   The cut is the end if no stream fails, and otherwise the least among the places after the last
   messages of the failing streams.
   */
  lemma {:induction false} CutIsFirstLast(origins: seq<nat>, bad: seq<bool>)
    ensures true !in bad ==> Cut(origins, bad) == |origins|
    ensures forall i :: 0 <= i < |bad| && bad[i] ==> Cut(origins, bad) <= Last(origins, i)
    ensures true in bad ==> exists i :: 0 <= i < |bad| && bad[i] && Cut(origins, bad) == Last(origins, i)
  {
    CutIsLeast(origins, bad, |bad|);
    if true in bad && Cut(origins, bad) == |origins| {
      var i :| 0 <= i < |bad| && bad[i];
      LastIsLast(origins, i);
    }
  }

  lemma {:induction false} LastStep(i: nat, origins: seq<nat>, j: nat)
    requires i == j || Last(origins, j) > 0
    ensures Last([i] + origins, j) == Last(origins, j) + 1
  {
    assert ([i] + origins)[1..] == origins;
  }

  lemma {:induction false} CutStep(i: nat, origins: seq<nat>, bad: seq<bool>, k: nat)
    requires k <= |bad| && forall j :: 0 <= j < k && bad[j] ==> i == j || Last(origins, j) > 0
    ensures CutBelow([i] + origins, bad, k) == CutBelow(origins, bad, k) + 1
  {
    if k > 0 {
      CutStep(i, origins, bad, k - 1);
      if bad[k - 1] {
        LastStep(i, origins, k - 1);
      }
    }
  }

  lemma {:induction false} LeftHasLast<T>(xss: seq<seq<Timed<T>>>, j: nat)
    requires j < |xss| && xss[j] != []
    ensures Last(Origins(xss), j) > 0
  {
    OriginsTellStreams(xss, j);
    if Last(Origins(xss), j) == 0 {
      NoOrigin(Merge(xss), Origins(xss), j);
    }
  }

  lemma {:induction false} NoOrigin<T>(xs: seq<Timed<T>>, origins: seq<nat>, j: nat)
    requires |xs| == |origins| && Last(origins, j) == 0
    ensures From(xs, origins, j) == []
  {
    if xs != [] {
      NoOrigin(xs[1..], origins[1..], j);
    }
  }

  lemma {:induction false} DueIsAtFront<T>(xss: seq<seq<Timed<T>>>, bad: seq<bool>)
    requires |bad| == |xss| && Due(xss, bad)
    ensures Cut(Origins(xss), bad) == 0
  {
    var i :| 0 <= i < |xss| && bad[i] && xss[i] == [];
    OriginsTellStreams(xss, i);
    LastIsLast(Origins(xss), i);
    if Last(Origins(xss), i) > 0 {
      HasOrigin(Merge(xss), Origins(xss), i, Last(Origins(xss), i) - 1);
    }
    CutIsFirstLast(Origins(xss), bad);
  }

  lemma {:induction false} HasOrigin<T>(xs: seq<Timed<T>>, origins: seq<nat>, i: nat, k: nat)
    requires |xs| == |origins| && k < |xs| && origins[k] == i
    ensures From(xs, origins, i) != []
  {
    if k > 0 {
      HasOrigin(xs[1..], origins[1..], i, k - 1);
    }
  }

  /**
   A failing merge delivers the whole merge up to the last message of the stream that fails first,
   and all of it if none fails.
   */
  lemma {:induction false} FailureCutsMerge<T>(xss: seq<seq<Timed<T>>>, bad: seq<bool>)
    requires |bad| == |xss|
    ensures Cut(Origins(xss), bad) <= |Merge(xss)|
    ensures UpToFailure(xss, bad) == Merge(xss)[..Cut(Origins(xss), bad)]
    decreases Total(xss)
  {
    CutIsLeast(Origins(xss), bad, |bad|);
    if Due(xss, bad) {
      DueIsAtFront(xss, bad);
    } else {
      match Least(xss)
      case None =>
      case Some(i) =>
        var yss := xss[i := xss[i][1..]];
        TotalDrops(xss, i);
        FailureCutsMerge(yss, bad);
        forall j | 0 <= j < |bad| && bad[j]
          ensures i == j || Last(Origins(yss), j) > 0
        {
          if i != j {
            LeftHasLast(yss, j);
          }
        }
        CutStep(i, Origins(yss), bad, |bad|);
        TakeStep(xss[i][0], Merge(yss), Cut(Origins(yss), bad));
    }
  }

  lemma {:induction false} TakeStep<T>(x: T, xs: seq<T>, n: nat)
    requires n <= |xs|
    ensures ([x] + xs)[..n + 1] == [x] + xs[..n]
  {
  }

  lemma {:induction false} NoFailure<T>(xss: seq<seq<Timed<T>>>, bad: seq<bool>)
    requires |bad| == |xss| && forall i :: 0 <= i < |bad| ==> !bad[i]
    ensures UpToFailure(xss, bad) == Merge(xss)
  {
    FailureCutsMerge(xss, bad);
    CutIsFirstLast(Origins(xss), bad);
  }

  /** What failing streams hold back is never missed before the failure: the output is a prefix of the whole merge. */
  lemma {:induction false} FailureGivesPrefix<T>(xss: seq<seq<Timed<T>>>, bad: seq<bool>, whole: seq<seq<Timed<T>>>)
    requires |bad| == |xss| == |whole|
    requires forall i :: 0 <= i < |xss| ==> xss[i] <= whole[i] && (!bad[i] ==> xss[i] == whole[i])
    ensures UpToFailure(xss, bad) <= Merge(whole)
    decreases Total(xss)
  {
    if !Due(xss, bad) && Least(xss).Some? {
      var i := Least(xss).value;
      var yss, rest := xss[i := xss[i][1..]], whole[i := whole[i][1..]];
      LeastOfPrefixes(xss, bad, whole, i);
      TotalDrops(xss, i);
      FailureGivesPrefix(yss, bad, rest);
    }
  }

  lemma {:induction false} LeastOfPrefixes<T>(xss: seq<seq<Timed<T>>>, bad: seq<bool>, whole: seq<seq<Timed<T>>>,
      i: nat)
    requires |bad| == |xss| == |whole|
    requires forall j :: 0 <= j < |xss| ==> xss[j] <= whole[j] && (!bad[j] ==> xss[j] == whole[j])
    requires !Due(xss, bad) && IsLeast(xss, i)
    ensures Least(whole) == Some(i) && whole[i][0] == xss[i][0]
  {
    assert forall j :: 0 <= j < |xss| ==> (xss[j] == [] <==> whole[j] == []);
    assert forall j :: 0 <= j < |xss| && xss[j] != [] ==> whole[j][0] == xss[j][0];
    assert IsLeast(whole, i);
    LeastIsUnique(whole, i, Least(whole).value);
  }
}
