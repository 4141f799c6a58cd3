/** The MCAP fallback: messages spooled to a temporary file, with a compact sorted index over it. */
module Spool {
  import opened Bytes
  import opened StableOrder
  import Sorting

  /** A message as the scan yields it, in file order. */
  datatype Scanned = Scanned(channel: nat, bytes: seq<byte>)

  /** `SpoolEntry`, apart from its timestamp. */
  datatype Where = Where(offset: nat, size: nat, channel: nat)

  /** The limits of a build; `maxEntries` is `max_index_bytes/sizeof(SpoolEntry)`. */
  datatype Options = Options(maxMessage: nat, maxTemporary: nat, maxEntries: nat)

  function OptionsOf(maxMessage: nat, maxTemporary: nat, maxIndexBytes: nat): (o: Options)
    ensures o.maxMessage == maxMessage && o.maxTemporary == maxTemporary
    ensures forall n: nat :: n <= o.maxEntries <==> n * 32 <= maxIndexBytes
  {
    Options(maxMessage, maxTemporary, maxIndexBytes / ENTRY_BYTES)
  }

  /** `sizeof(SpoolEntry)` of a 64-bit build. */
  const ENTRY_BYTES := 32

  const SEPARATOR: byte := 0

  // ----- what the spool holds -----

  function FileBytes(messages: seq<Timed<Scanned>>): seq<byte> {
    if messages == [] then []
    else FileBytes(messages[..|messages| - 1]) + messages[|messages| - 1].data.bytes + [SEPARATOR]
  }

  function Entries(messages: seq<Timed<Scanned>>): (xs: seq<Timed<Where>>)
    ensures |xs| == |messages|
  {
    if messages == [] then []
    else
      var front, last := messages[..|messages| - 1], messages[|messages| - 1];
      Entries(front) + [Timed(last.time, Where(|FileBytes(front)|, |last.data.bytes|, last.data.channel))]
  }

  /** The comparison handed to `std::sort`, and what any sort by it guarantees. */
  ghost predicate Ordered(xs: seq<Timed<Where>>) {
    forall i, j :: 0 <= i < j < |xs| ==>
      xs[i].time < xs[j].time || (xs[i].time == xs[j].time && xs[i].data.offset <= xs[j].data.offset)
  }

  ghost predicate IsSort(sort: seq<Timed<Where>> -> seq<Timed<Where>>) {
    forall xs :: multiset(sort(xs)) == multiset(xs) && Ordered(sort(xs))
  }

  /** Sorting the index can be done: insertion by (timestamp, offset) is such a sort. */
  lemma {:induction false} SortByTimeExists()
    ensures IsSort(xs => Sorting.Sort(TimeOrder(), xs))
  {
    forall xs
      ensures Ordered(Sorting.Sort(TimeOrder(), xs))
    {
      Sorting.SortInOrder(TimeOrder(), xs);
      assert forall a, b :: TimeOrder()(a, b) ==> a.time <= b.time;
    }
  }

  function TimeOrder(): (Timed<Where>, Timed<Where>) -> bool {
    (a: Timed<Where>, b: Timed<Where>) => a.time < b.time || (a.time == b.time && a.data.offset <= b.data.offset)
  }

  ghost predicate Increasing(xs: seq<Timed<Where>>) {
    forall i, j :: 0 <= i < j < |xs| ==> xs[i].data.offset < xs[j].data.offset
  }

  lemma {:induction false} EntriesIncrease(messages: seq<Timed<Scanned>>)
    ensures Increasing(Entries(messages))
    ensures forall x :: x in Entries(messages) ==> x.data.offset + x.data.size < |FileBytes(messages)|
  {
    if messages != [] {
      EntriesIncrease(messages[..|messages| - 1]);
    }
  }

  lemma {:induction false} AtTimeIncreases(xs: seq<Timed<Where>>, t: nat)
    requires Increasing(xs)
    ensures Increasing(AtTime(xs, t)) && forall x :: x in AtTime(xs, t) ==> x in xs && x.time == t
  {
    if xs != [] {
      AtTimeIncreases(xs[1..], t);
      forall x | x in AtTime(xs[1..], t)
        ensures xs[0].data.offset < x.data.offset
      {
        var i :| 0 <= i < |xs[1..]| && xs[1..][i] == x;
        assert xs[i + 1] == x;
      }
    }
  }

  /** Ascending sequences with the same elements are the same sequence. */
  lemma {:induction false} SameElements(a: seq<Timed<Where>>, b: seq<Timed<Where>>)
    requires Increasing(a) && Increasing(b) && forall x :: x in a <==> x in b
    ensures a == b
    decreases |a|
  {
    assert b == [] || b[0] in b;
    if a != [] {
      assert a[0] in a;
      assert b[0] in b && b[0] in a && a[0] in b;
      assert a[0] == b[0];
      forall x
        ensures x in a[1..] <==> x in b[1..]
      {
        assert x in a[1..] <==> x in a && x != a[0];
        assert x in b[1..] <==> x in b && x != b[0];
      }
      SameElements(a[1..], b[1..]);
      assert a == [a[0]] + a[1..] && b == [b[0]] + b[1..];
    }
  }

  // ----- any sort will do -----

  lemma {:induction false} AtMostOnce(xs: seq<Timed<Where>>, x: Timed<Where>)
    requires Increasing(xs)
    ensures multiset(xs)[x] <= 1
  {
    if xs != [] {
      var front, last := xs[..|xs| - 1], xs[|xs| - 1];
      assert xs == front + [last];
      AtMostOnce(front, x);
      assert last !in front;
    }
  }

  lemma {:induction false} Twice<T>(xs: seq<T>, i: nat, j: nat)
    requires i < j < |xs| && xs[i] == xs[j]
    ensures multiset(xs)[xs[i]] >= 2
  {
    assert xs == xs[..i + 1] + xs[i + 1..];
    assert xs[..i + 1][i] == xs[i] && xs[i + 1..][j - (i + 1)] == xs[j];
    assert xs[i] in multiset(xs[..i + 1]) && xs[i] in multiset(xs[i + 1..]);
  }

  lemma {:induction false} AtTimeAtMost<T>(xs: seq<Timed<T>>, t: nat, x: Timed<T>)
    ensures multiset(AtTime(xs, t))[x] <= multiset(xs)[x]
  {
    if xs != [] {
      AtTimeAtMost(xs[1..], t, x);
      assert xs == [xs[0]] + xs[1..];
    }
  }

  lemma {:induction false} AtTimeOrdered(xs: seq<Timed<Where>>, t: nat)
    requires Ordered(xs)
    ensures Ordered(AtTime(xs, t)) && forall x :: x in AtTime(xs, t) ==> x in xs && x.time == t
  {
    if xs != [] {
      AtTimeOrdered(xs[1..], t);
      forall x | x in AtTime(xs[1..], t)
        ensures xs[0].time < x.time || (xs[0].time == x.time && xs[0].data.offset <= x.data.offset)
      {
        var i :| 0 <= i < |xs[1..]| && xs[1..][i] == x;
        assert xs[i + 1] == x;
      }
    }
  }

  /** Among the entries of one timestamp a sort by (timestamp, offset) is strictly ascending: no offset repeats. */
  lemma {:induction false} SortedTiesIncrease(sorted: seq<Timed<Where>>, entries: seq<Timed<Where>>, t: nat)
    requires Increasing(entries) && Ordered(sorted) && multiset(sorted) == multiset(entries)
    ensures Increasing(AtTime(sorted, t))
  {
    var ties := AtTime(sorted, t);
    AtTimeOrdered(sorted, t);
    forall i, j | 0 <= i < j < |ties|
      ensures ties[i].data.offset < ties[j].data.offset
    {
      if ties[i].data.offset == ties[j].data.offset {
        OffsetIdentifies(sorted, entries, ties[i], ties[j]);
        Twice(ties, i, j);
        AtTimeAtMost(sorted, t, ties[i]);
        AtMostOnce(entries, ties[i]);
        assert false;
      }
    }
  }

  lemma {:induction false} OffsetIdentifies(sorted: seq<Timed<Where>>, entries: seq<Timed<Where>>,
      x: Timed<Where>, y: Timed<Where>)
    requires Increasing(entries) && multiset(sorted) == multiset(entries)
    requires x in sorted && y in sorted && x.data.offset == y.data.offset
    ensures x == y
  {
    assert x in multiset(sorted) && y in multiset(sorted);
    assert x in entries && y in entries;
    var i :| 0 <= i < |entries| && entries[i] == x;
    var j :| 0 <= j < |entries| && entries[j] == y;
  }

  /**
   Because the separator byte keeps offsets distinct, sorting by (timestamp, offset), stable or
   not, gives the stable sort of the file order.
   */
  lemma {:induction false} AnySortIsStable(sorted: seq<Timed<Where>>, entries: seq<Timed<Where>>)
    requires Increasing(entries) && Ordered(sorted) && multiset(sorted) == multiset(entries)
    ensures sorted == StableSort(entries)
  {
    forall t
      ensures AtTime(sorted, t) == AtTime(entries, t)
    {
      SortedTiesIncrease(sorted, entries, t);
      AtTimeIncreases(entries, t);
      forall x
        ensures x in AtTime(sorted, t) <==> x in AtTime(entries, t)
      {
        SameAtTime(sorted, entries, t, x);
      }
      SameElements(AtTime(sorted, t), AtTime(entries, t));
    }
    IsTheStableSort(sorted, entries);
  }

  lemma {:induction false} SameAtTime(sorted: seq<Timed<Where>>, entries: seq<Timed<Where>>, t: nat, x: Timed<Where>)
    requires Increasing(entries) && Ordered(sorted) && multiset(sorted) == multiset(entries)
    ensures x in AtTime(sorted, t) <==> x in AtTime(entries, t)
  {
    AtTimeOrdered(sorted, t);
    AtTimeIncreases(entries, t);
    AtTimeMember(sorted, x);
    AtTimeMember(entries, x);
    assert x in sorted <==> x in multiset(sorted);
    assert x in entries <==> x in multiset(entries);
  }

  // ----- building -----

  predicate Fits(messages: seq<Timed<Scanned>>, channels: map<nat, nat>, options: Options) {
    && (forall x :: x in messages ==> |x.data.bytes| <= options.maxMessage && x.data.channel in channels)
    && |FileBytes(messages)| <= options.maxTemporary
    && |messages| <= options.maxEntries
  }

  lemma {:induction false} FitsPrefix(messages: seq<Timed<Scanned>>, channels: map<nat, nat>, options: Options, n: nat)
    requires n <= |messages| && Fits(messages, channels, options)
    ensures Fits(messages[..n], channels, options)
    decreases |messages|
  {
    if n < |messages| {
      FitsPrefix(messages[..|messages| - 1], channels, options, n);
      assert messages[..|messages| - 1][..n] == messages[..n];
    } else {
      assert messages[..n] == messages;
    }
  }

  /** How much of the spool file messages take: their bytes and one separator each. */
  function Spooled(messages: seq<Timed<Scanned>>): nat {
    if messages == [] then 0 else |messages[0].data.bytes| + 1 + Spooled(messages[1..])
  }

  /** A message's own bytes and one zero byte follow what was there. */
  lemma {:induction false} FileGrows(messages: seq<Timed<Scanned>>, x: Timed<Scanned>)
    ensures FileBytes(messages + [x]) == FileBytes(messages) + x.data.bytes + [0]
  {
    assert (messages + [x])[..|messages|] == messages;
  }

  lemma {:induction false} SpooledSnoc(messages: seq<Timed<Scanned>>, x: Timed<Scanned>)
    ensures Spooled(messages + [x]) == Spooled(messages) + |x.data.bytes| + 1
  {
    if messages != [] {
      assert (messages + [x])[1..] == messages[1..] + [x];
      SpooledSnoc(messages[1..], x);
    } else {
      assert [x][1..] == [];
    }
  }

  lemma {:induction false} FileIsSpooled(messages: seq<Timed<Scanned>>)
    ensures |FileBytes(messages)| == Spooled(messages)
  {
    if messages != [] {
      var front, last := messages[..|messages| - 1], messages[|messages| - 1];
      assert messages == front + [last];
      FileIsSpooled(front);
      SpooledSnoc(front, last);
    }
  }

  /** The limits in numbers: every message, the spool file with its separators, 32 bytes of index an entry. */
  lemma {:induction false} FitsMeans(messages: seq<Timed<Scanned>>, channels: map<nat, nat>, maxMessage: nat,
      maxTemporary: nat, maxIndexBytes: nat)
    ensures Fits(messages, channels, OptionsOf(maxMessage, maxTemporary, maxIndexBytes))
       <==>
       && (forall k :: 0 <= k < |messages| ==>
             |messages[k].data.bytes| <= maxMessage && messages[k].data.channel in channels)
       && Spooled(messages) <= maxTemporary && |messages| * 32 <= maxIndexBytes
  {
    FileIsSpooled(messages);
    assert forall x :: x in messages <==> exists k :: 0 <= k < |messages| && messages[k] == x;
  }

  /** The capacity after growing: doubled, but never beyond the maximum. */
  function Growth(capacity: nat, maximum: nat): (g: nat)
    ensures capacity < maximum ==> capacity < g <= maximum
    ensures capacity < maximum ==>
      g == if 2 * capacity >= maximum then maximum else if capacity == 0 then 1 else 2 * capacity
  {
    if capacity > maximum / 2 then maximum else if capacity * 2 > 1 then capacity * 2 else 1
  }

  class Spool {
    const options: Options
    const channels: map<nat, nat>
    var file: seq<byte>
    var entries: seq<Timed<Where>>
    var capacity: nat

    /** The vector's storage stays within the index budget, growth included. */
    ghost predicate WithinBudget()
      reads this
    {
      |entries| <= capacity <= options.maxEntries && |file| <= options.maxTemporary
    }

    constructor (options: Options, channels: map<nat, nat>)
      ensures this.options == options && this.channels == channels
      ensures file == [] && entries == [] && WithinBudget()
    {
      this.options, this.channels := options, channels;
      file, entries, capacity := [], [], 0;
    }

    /** One message of the scan; `messages` are those before it. */
    method Append(ghost messages: seq<Timed<Scanned>>, x: Timed<Scanned>) returns (ok: bool)
      requires WithinBudget() && file == FileBytes(messages) && entries == Entries(messages)
      requires Fits(messages, channels, options)
      modifies this
      ensures ok <==> Fits(messages + [x], channels, options)
      ensures ok ==> WithinBudget() && file == FileBytes(messages + [x]) && entries == Entries(messages + [x])
      ensures ok ==> capacity == if |messages| == old(capacity) then Growth(old(capacity), options.maxEntries)
                                 else old(capacity)
    {
      var offset, size := |file|, |x.data.bytes|;
      var maximum := options.maxEntries;
      ghost var more := messages + [x];
      assert more[..|more| - 1] == messages && x in more;
      if size > options.maxMessage {
        return false;
      }
      if offset >= options.maxTemporary || size > options.maxTemporary - offset - 1 {
        return false;
      }
      if |entries| == maximum {
        return false;
      }
      if |entries| == capacity {
        capacity := Growth(capacity, maximum);
      }
      if x.data.channel !in channels {
        return false;
      }
      entries := entries + [Timed(x.time, Where(offset, size, x.data.channel))];
      file := file + x.data.bytes;
      file := file + [SEPARATOR];
      ok := true;
    }

    /**
     `build_sorted_spool`: `clean` says whether the scan ended without a problem, `expected` is the
     message count of the statistics.  Whatever the sort, the index is the stable sort of file order.
     */
    method Build(messages: seq<Timed<Scanned>>, clean: bool, expected: nat,
        sort: seq<Timed<Where>> -> seq<Timed<Where>>) returns (ok: bool)
      requires file == [] && entries == [] && WithinBudget() && IsSort(sort)
      modifies this
      ensures ok <==> Fits(messages, channels, options) && clean && |messages| == expected
      ensures ok ==> WithinBudget() && file == FileBytes(messages) && entries == StableSort(Entries(messages))
    {
      for i := 0 to |messages|
        invariant WithinBudget() && Fits(messages[..i], channels, options)
        invariant file == FileBytes(messages[..i]) && entries == Entries(messages[..i])
      {
        assert messages[..i] + [messages[i]] == messages[..i + 1];
        ok := Append(messages[..i], messages[i]);
        if !ok {
          if Fits(messages, channels, options) {
            FitsPrefix(messages, channels, options, i + 1);
          }
          return;
        }
      }
      assert messages[..|messages|] == messages;
      if !clean || |entries| != expected {
        return false;
      }
      EntriesIncrease(messages);
      assert multiset(sort(entries)) == multiset(entries);
      AnySortIsStable(sort(entries), entries);
      assert |multiset(sort(entries))| == |sort(entries)|;
      entries := sort(entries);
      ok := true;
    }
  }
}
