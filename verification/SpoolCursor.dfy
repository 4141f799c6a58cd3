/** Reading the MCAP fallback back: a filtered walk over the sorted index, bytes fetched from the spool. */
module SpoolCursor {
  import opened Wrappers
  import opened Bytes
  import opened StableOrder
  import opened Filters
  import opened Windows
  import opened Spool

  /** A built fallback: the spool file, its sorted index, and where each channel's connection is. */
  datatype Fallback = Fallback(connections: seq<Connection>, channels: map<nat, nat>, file: seq<byte>,
                               entries: seq<Timed<Where>>)

  predicate Inbounds(b: Fallback, w: Where) {
    w.channel in b.channels && b.channels[w.channel] < |b.connections| && w.offset + w.size <= |b.file|
  }

  ghost predicate Readable(b: Fallback) {
    forall x :: x in b.entries ==> Inbounds(b, x.data)
  }

  /** The message an entry stands for. */
  function MessageOf(b: Fallback): Where -> Message {
    (w: Where) =>
      if Inbounds(b, w) then Message(b.channels[w.channel], b.file[w.offset..w.offset + w.size]) else Message(0, [])
  }

  /** What a walk from `position` on delivers. */
  function Rest(b: Fallback, f: ReadFilter, position: nat): seq<Timed<Message>>
    requires position <= |b.entries|
    decreases |b.entries| - position
  {
    if position == |b.entries| || !Open(f.stop, b.entries[position].time) then []
    else
      var m := MapItem(MessageOf(b), b.entries[position]);
      (if Passes(b.connections, f, m) then [m] else []) + Rest(b, f, position + 1)
  }

  lemma {:induction false} RestIsFiltered(b: Fallback, f: ReadFilter, position: nat)
    requires position <= |b.entries|
    ensures Rest(b, f, position)
         == Filter(Passing(b.connections, f), Map(MessageOf(b), UpTo(b.entries[position..], f.stop)))
    decreases |b.entries| - position
  {
    var entries := b.entries[position..];
    if position < |b.entries| && Open(f.stop, b.entries[position].time) {
      assert entries[1..] == b.entries[position + 1..];
      RestIsFiltered(b, f, position + 1);
      var more := UpTo(entries[1..], f.stop);
      assert ([entries[0]] + more)[1..] == more;
      assert Map(MessageOf(b), [entries[0]] + more)[1..] == Map(MessageOf(b), more);
    }
  }

  datatype Next = Item(x: Timed<Message>) | End

  class Cursor {
    const fallback: Fallback
    const filter: ReadFilter
    const empty: bool
    var position: nat

    ghost predicate Valid()
      reads this
    {
      && Readable(fallback) && Sorted(fallback.entries)
      && position <= |fallback.entries|
      && (!empty ==> forall k :: position <= k < |fallback.entries| ==>
            filter.start.Some? ==> filter.start.value <= fallback.entries[k].time)
    }

    ghost function Left(): seq<Timed<Message>>
      reads this
      requires Valid()
    {
      if empty then [] else Rest(fallback, filter, position)
    }

    constructor (b: Fallback, f: ReadFilter)
      requires Readable(b) && Sorted(b.entries)
      ensures Valid() && Left() == Filter(Passing(b.connections, f), Map(MessageOf(b), b.entries))
    {
      fallback, filter := b, f;
      empty := |b.entries| == 0 || (f.start.Some? && f.stop.Some? && f.start.value >= f.stop.value);
      position := LowerBound(b.entries, if f.start.Some? then f.start.value else 0);
      new;
      StartsRight(b, f, position);
      if empty {
        NothingInside(b, f);
      } else {
        WindowIsAll(b, f, position);
      }
    }

    /** Entries of other connections are passed over; the stop time ends the walk. */
    method Next() returns (r: Next)
      requires Valid()
      modifies this`position
      ensures r.Item? ==> Valid() && old(Left()) == [r.x] + Left()
      ensures r.End? ==> old(Left()) == []
    {
      if empty {
        return End;
      }
      ghost var left := Left();
      while position < |fallback.entries|
        invariant Valid() && left == Rest(fallback, filter, position)
        decreases |fallback.entries| - position
      {
        var entry := fallback.entries[position];
        assert entry in fallback.entries;
        position := position + 1;
        if !Open(filter.stop, entry.time) {
          return End;
        }
        var message := Look(fallback, filter, entry);
        if message.Some? {
          return Item(message.value);
        }
      }
      r := End;
    }
  }

  /** The connection's filter, and then the bytes at the entry's place in the spool. */
  method Look(b: Fallback, f: ReadFilter, entry: Timed<Where>) returns (message: Option<Timed<Message>>)
    requires Inbounds(b, entry.data) && (f.start.Some? ==> f.start.value <= entry.time) && Open(f.stop, entry.time)
    ensures var m := MapItem(MessageOf(b), entry);
            message == if Passes(b.connections, f, m) then Some(m) else None
  {
    var c := b.channels[entry.data.channel];
    if !HasTopic(b.connections[c], f) {
      return None;
    }
    var bytes := b.file[entry.data.offset..entry.data.offset + entry.data.size];
    message := Some(Timed(entry.time, Message(c, bytes)));
  }

  lemma {:induction false} StartsRight(b: Fallback, f: ReadFilter, position: nat)
    requires Sorted(b.entries) && position == LowerBound(b.entries, if f.start.Some? then f.start.value else 0)
    ensures position == First(b.entries, f.start)
    ensures forall k :: position <= k < |b.entries| ==> f.start.Some? ==> f.start.value <= b.entries[k].time
  {
    if f.start.None? {
      assert b.entries == [] || b.entries[0].time >= 0;
    } else if position < |b.entries| {
      assert forall k :: position < k < |b.entries| ==> b.entries[position].time <= b.entries[k].time;
    }
  }

  lemma {:induction false} NothingInside(b: Fallback, f: ReadFilter)
    requires |b.entries| == 0 || (f.start.Some? && f.stop.Some? && f.start.value >= f.stop.value)
    ensures Filter(Passing(b.connections, f), Map(MessageOf(b), b.entries)) == []
  {
    NoneInside(Map(MessageOf(b), b.entries), Passing(b.connections, f));
  }

  /** Beginning at the lower bound and ending at the stop time loses nothing that passes. */
  lemma {:induction false} WindowIsAll(b: Fallback, f: ReadFilter, position: nat)
    requires Sorted(b.entries)
    requires position == First(b.entries, f.start)
    ensures Rest(b, f, position) == Filter(Passing(b.connections, f), Map(MessageOf(b), b.entries))
  {
    RestIsFiltered(b, f, position);
    WindowIsFilter(b.entries, f.start, f.stop);
    FilterMapped(b, f, b.entries);
  }

  lemma {:induction false} FilterMapped(b: Fallback, f: ReadFilter, xs: seq<Timed<Where>>)
    ensures Filter(Passing(b.connections, f), Map(MessageOf(b), Filter(Inside(f.start, f.stop), xs)))
         == Filter(Passing(b.connections, f), Map(MessageOf(b), xs))
  {
    if xs != [] {
      var rest := Filter(Inside(f.start, f.stop), xs[1..]);
      FilterMapped(b, f, xs[1..]);
      assert Map(MessageOf(b), xs)[1..] == Map(MessageOf(b), xs[1..]);
      assert ([xs[0]] + rest)[1..] == rest;
      assert Map(MessageOf(b), [xs[0]] + rest)[1..] == Map(MessageOf(b), rest);
    }
  }

  // ----- the whole backend -----

  /** A scanned message as a reader delivers it. */
  function AsMessage(channels: map<nat, nat>): Scanned -> Message {
    (s: Scanned) => Message(if s.channel in channels then channels[s.channel] else 0, s.bytes)
  }

  /** The bytes between an entry's offset and its end are the bytes that were scanned. */
  lemma {:induction false} EntryAt(messages: seq<Timed<Scanned>>, file: seq<byte>, k: nat)
    requires k < |messages| && FileBytes(messages) <= file
    ensures var e, m := Entries(messages)[k], messages[k];
            && e.time == m.time && e.data.channel == m.data.channel && e.data.size == |m.data.bytes|
            && e.data.offset + e.data.size <= |file|
            && file[e.data.offset..e.data.offset + e.data.size] == m.data.bytes
    decreases |messages|
  {
    var front, last := messages[..|messages| - 1], messages[|messages| - 1];
    if k < |front| {
      assert FileBytes(front) <= FileBytes(messages) <= file;
      EntryAt(front, file, k);
    } else {
      SliceOf(FileBytes(front), last.data.bytes, file);
    }
  }

  lemma {:induction false} SliceOf(before: seq<byte>, bytes: seq<byte>, file: seq<byte>)
    requires before + bytes + [SEPARATOR] <= file
    ensures file[|before|..|before| + |bytes|] == bytes
  {
    assert (before + bytes + [SEPARATOR])[|before|..|before| + |bytes|] == bytes;
  }

  lemma {:induction false} EntryIsOriginal(b: Fallback, messages: seq<Timed<Scanned>>, k: nat)
    requires k < |messages| && FileBytes(messages) <= b.file
    requires messages[k].data.channel in b.channels && b.channels[messages[k].data.channel] < |b.connections|
    ensures Inbounds(b, Entries(messages)[k].data)
    ensures MapItem(MessageOf(b), Entries(messages)[k]) == MapItem(AsMessage(b.channels), messages[k])
  {
    EntryAt(messages, b.file, k);
  }

  /** The sorted index stands for the scanned messages, stably sorted, each with its own bytes. */
  lemma {:induction false} IndexIsOriginal(b: Fallback, messages: seq<Timed<Scanned>>)
    requires b.file == FileBytes(messages) && b.entries == StableSort(Entries(messages))
    requires forall x :: x in messages ==> x.data.channel in b.channels && b.channels[x.data.channel] < |b.connections|
    ensures Readable(b) && Sorted(b.entries)
    ensures Map(MessageOf(b), b.entries) == StableSort(Map(AsMessage(b.channels), messages))
  {
    var entries := Entries(messages);
    forall k | 0 <= k < |messages|
      ensures Inbounds(b, entries[k].data)
      ensures MapItem(MessageOf(b), entries[k]) == MapItem(AsMessage(b.channels), messages[k])
    {
      assert messages[k] in messages;
      EntryIsOriginal(b, messages, k);
    }
    assert Map(MessageOf(b), entries) == Map(AsMessage(b.channels), messages);
    MapThenSort(MessageOf(b), entries);
    StableSortIsStable(entries);
    forall x | x in b.entries
      ensures Inbounds(b, x.data)
    {
      SameTiesMember(b.entries, entries, x);
      var k :| 0 <= k < |entries| && entries[k] == x;
    }
  }

  /** A whole walk. */
  method ReadIndex(b: Fallback, f: ReadFilter) returns (out: seq<Timed<Message>>)
    requires Readable(b) && Sorted(b.entries)
    ensures out == Filter(Passing(b.connections, f), Map(MessageOf(b), b.entries))
  {
    out := [];
    var cursor := new Cursor(b, f);
    ghost var left := cursor.Left();
    while true
      invariant cursor.Valid() && left == cursor.Left()
      invariant out + left == Filter(Passing(b.connections, f), Map(MessageOf(b), b.entries))
      decreases |left|
    {
      var next := cursor.Next();
      match next
      case End => return;
      case Item(x) =>
        out, left := out + [x], left[1..];
    }
  }

  /**
   The fallback end to end: scan, spool, sort, walk.  It delivers the scanned messages with their
   own bytes, stably sorted by timestamp and restricted by topic, id and time.
   */
  method ReadFallback(connections: seq<Connection>, channels: map<nat, nat>, options: Options,
      messages: seq<Timed<Scanned>>, clean: bool, expected: nat, sort: seq<Timed<Where>> -> seq<Timed<Where>>,
      f: ReadFilter) returns (out: seq<Timed<Message>>, ok: bool)
    requires IsSort(sort) && forall c :: c in channels ==> channels[c] < |connections|
    ensures ok <==> Fits(messages, channels, options) && clean && |messages| == expected
    ensures out == if ok then Filter(Passing(connections, f), StableSort(Map(AsMessage(channels), messages))) else []
  {
    var spool := new Spool(options, channels);
    ok := spool.Build(messages, clean, expected, sort);
    out := [];
    if ok {
      var b := Fallback(connections, channels, spool.file, spool.entries);
      IndexIsOriginal(b, messages);
      out := ReadIndex(b, f);
    }
  }
}
