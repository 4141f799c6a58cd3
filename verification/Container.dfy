/** The length check of an MCAP file: a walk over its records before anything is allocated for them. */
module Container {
  import opened Wrappers
  import opened Bytes

  datatype Record = Record(opcode: byte, content: seq<byte>)

  datatype Options = Options(maxChunk: nat, maxMessage: nat, maxConnection: nat, maxIndexBytes: nat)

  datatype Shape = Shape(chunks: nat, directMessages: bool)

  datatype Result = Inspected(shape: Shape) | Malformed | OverLimit

  /** Record opcodes of the MCAP file format. */
  const HEADER := 0x01
  const SCHEMA := 0x03
  const CHANNEL := 0x04
  const MESSAGE := 0x05
  const CHUNK := 0x06
  const MESSAGE_INDEX := 0x07
  const CHUNK_INDEX := 0x08
  const ATTACHMENT := 0x09
  const ATTACHMENT_INDEX := 0x0A
  const STATISTICS := 0x0B
  const METADATA := 0x0C
  const METADATA_INDEX := 0x0D
  const SUMMARY_OFFSET := 0x0E

  /** The magic bytes at either end, and the bytes of an opcode and a length. */
  const MAGIC_BYTES := 8
  const FRAME_BYTES := 9

  function Load64(bytes: seq<byte>, pos: nat): (n: nat)
    requires pos + 8 <= |bytes|
    ensures n <= SIZE_MAX
  {
    Pow256At8();
    Load(bytes, pos, 8, true)
  }

  predicate IsIndex(opcode: byte) {
    opcode == MESSAGE_INDEX || opcode == CHUNK_INDEX || opcode == ATTACHMENT_INDEX || opcode == METADATA_INDEX
    || opcode == STATISTICS || opcode == SUMMARY_OFFSET
  }

  predicate IsMetadata(opcode: byte) {
    opcode == SCHEMA || opcode == CHANNEL || opcode == HEADER || opcode == METADATA
  }

  /** The check of one record, apart from the budget all index records share. */
  function Verdict(r: Record, options: Options): Result {
    var length := |r.content|;
    if r.opcode == CHUNK then
      if length < 40 then Malformed
      else if Load64(r.content, 16) > options.maxChunk
              || (length > options.maxChunk && length - options.maxChunk > options.maxConnection) then OverLimit
      else if Load64(r.content, 8) == SIZE_MAX then Malformed
      else Inspected(Shape(1, false))
    else if r.opcode == MESSAGE then
      if length < 22 then Malformed
      else if length - 22 > options.maxMessage then OverLimit
      else if Load64(r.content, 6) == SIZE_MAX then Malformed
      else Inspected(Shape(0, true))
    else if IsMetadata(r.opcode) && length > options.maxConnection then OverLimit
    else if r.opcode == ATTACHMENT && length > options.maxMessage then OverLimit
    else Inspected(Shape(0, false))
  }

  function IndexBytes(records: seq<Record>): nat {
    if records == [] then 0
    else
      var last := records[|records| - 1];
      IndexBytes(records[..|records| - 1]) + if IsIndex(last.opcode) then |last.content| else 0
  }

  function Chunks(records: seq<Record>): nat {
    if records == [] then 0
    else Chunks(records[..|records| - 1]) + if records[|records| - 1].opcode == CHUNK then 1 else 0
  }

  predicate HasMessage(records: seq<Record>) {
    exists r :: r in records && r.opcode == MESSAGE
  }

  // ----- frames -----

  function FrameBytes(r: Record): (bs: seq<byte>)
    ensures |bs| == FRAME_BYTES + |r.content|
  {
    [r.opcode] + Store(|r.content|, 8, true) + r.content
  }

  function FileBytes(records: seq<Record>): seq<byte> {
    if records == [] then [] else FileBytes(records[..|records| - 1]) + FrameBytes(records[|records| - 1])
  }

  lemma {:induction false} LoadStored64(bytes: seq<byte>, pos: nat, n: nat)
    requires n <= SIZE_MAX && At(bytes, pos, Store(n, 8, true))
    ensures Load64(bytes, pos) == n
  {
    Pow256At8();
    LoadStored(bytes, pos, n, 8, true);
  }

  /** The record whose frame begins at `pos`, if it lies before `end`. */
  function FrameAt(file: seq<byte>, pos: nat, end: nat): (r: Option<Record>)
    requires pos < end <= |file|
    ensures r.Some? ==> pos + FRAME_BYTES + |r.value.content| <= end
  {
    if end - pos < FRAME_BYTES then None
    else
      var length := Load64(file, pos + 1);
      if length > end - (pos + FRAME_BYTES) then None
      else Some(Record(file[pos], file[pos + FRAME_BYTES..pos + FRAME_BYTES + length]))
  }

  /** The bytes between the magics are the frames of these records, end to end. */
  ghost predicate Tiles(file: seq<byte>, records: seq<Record>) {
    && |file| >= 2 * MAGIC_BYTES
    && (forall r :: r in records ==> |r.content| <= SIZE_MAX)
    && file[MAGIC_BYTES..|file| - MAGIC_BYTES] == FileBytes(records)
  }

  lemma {:induction false} FrameReadsBack(file: seq<byte>, pos: nat, end: nat, r: Record)
    requires At(file, pos, FrameBytes(r)) && |r.content| <= SIZE_MAX && pos + FRAME_BYTES + |r.content| <= end <= |file|
    ensures FrameAt(file, pos, end) == Some(r)
  {
    AtSplit(file, pos, [r.opcode] + Store(|r.content|, 8, true), r.content);
    AtSplit(file, pos, [r.opcode], Store(|r.content|, 8, true));
    LoadStored64(file, pos + 1, |r.content|);
    assert file[pos + 0] == [r.opcode][0];
    AtSlice(file, pos + FRAME_BYTES, r.content);
  }

  lemma {:induction false} FrameWasWritten(file: seq<byte>, pos: nat, end: nat)
    requires pos < end <= |file| && FrameAt(file, pos, end).Some?
    ensures At(file, pos, FrameBytes(FrameAt(file, pos, end).value))
    ensures |FrameAt(file, pos, end).value.content| <= SIZE_MAX
  {
    var r := FrameAt(file, pos, end).value;
    StoreLoaded(file, pos + 1, 8);
    AtJoin(file, pos, [r.opcode], Store(|r.content|, 8, true));
    AtJoin(file, pos, [r.opcode] + Store(|r.content|, 8, true), r.content);
  }

  // ----- the walk -----

  ghost predicate Sound(records: seq<Record>, options: Options) {
    (forall r :: r in records ==> Verdict(r, options).Inspected?) && IndexBytes(records) <= options.maxIndexBytes
  }

  lemma {:induction false} FilePrefix(records: seq<Record>, n: nat)
    requires n <= |records|
    ensures FileBytes(records[..n]) <= FileBytes(records) && IndexBytes(records[..n]) <= IndexBytes(records)
    decreases |records|
  {
    if n == |records| {
      assert records[..n] == records;
    } else {
      FilePrefix(records[..|records| - 1], n);
      assert records[..|records| - 1][..n] == records[..n];
    }
  }

  /** After n records of a tiled file comes the frame of the next one, or the closing magic. */
  lemma {:induction false} NextFrame(file: seq<byte>, records: seq<Record>, n: nat)
    requires Tiles(file, records) && n <= |records|
    ensures var pos, end := MAGIC_BYTES + |FileBytes(records[..n])|, |file| - MAGIC_BYTES;
            if n == |records| then pos == end
            else pos < end && FrameAt(file, pos, end) == Some(records[n])
  {
    if n == |records| {
      assert records[..n] == records;
    } else {
      var before, pos := FileBytes(records[..n]), MAGIC_BYTES + |FileBytes(records[..n])|;
      FilePrefix(records, n + 1);
      assert records[..n + 1][..n] == records[..n] && records[n] in records;
      var all := FileBytes(records);
      assert before + FrameBytes(records[n]) <= all;
      SliceAt(file, MAGIC_BYTES, |file| - MAGIC_BYTES, before, FrameBytes(records[n]));
      FrameReadsBack(file, pos, |file| - MAGIC_BYTES, records[n]);
    }
  }

  lemma {:induction false} SliceAt(file: seq<byte>, from: nat, to: nat, before: seq<byte>, part: seq<byte>)
    requires from <= to <= |file| && before + part <= file[from..to]
    ensures At(file, from + |before|, part) && from + |before| + |part| <= to
  {
    forall i | 0 <= i < |part|
      ensures file[from + |before| + i] == part[i]
    {
      assert (before + part)[|before| + i] == file[from..to][|before| + i];
    }
  }

  lemma {:induction false} Extend(file: seq<byte>, from: nat, pos: nat, seen: seq<byte>, part: seq<byte>)
    requires from <= pos <= |file| && file[from..pos] == seen && At(file, pos, part)
    ensures file[from..pos + |part|] == seen + part
  {
  }

  /** Any tiling of the file begins with the records already seen. */
  ghost predicate Forced(file: seq<byte>, seen: seq<Record>) {
    forall records {:trigger Tiles(file, records)} :: Tiles(file, records) ==> seen <= records
  }

  lemma {:induction false} ForcedNext(file: seq<byte>, seen: seq<Record>, pos: nat)
    requires |file| >= 2 * MAGIC_BYTES && Forced(file, seen)
    requires pos == MAGIC_BYTES + |FileBytes(seen)| < |file| - MAGIC_BYTES
    ensures var frame := FrameAt(file, pos, |file| - MAGIC_BYTES);
            if frame.Some? then Forced(file, seen + [frame.value]) else forall records :: !Tiles(file, records)
  {
    var frame := FrameAt(file, pos, |file| - MAGIC_BYTES);
    forall records {:trigger Tiles(file, records)} | Tiles(file, records)
      ensures frame.Some? && seen + [frame.value] <= records
    {
      assert records[..|seen|] == seen;
      NextFrame(file, records, |seen|);
    }
  }

  lemma {:induction false} BadPrefix(file: seq<byte>, seen: seq<Record>, options: Options)
    requires Forced(file, seen) && !Sound(seen, options)
    ensures forall records :: !(Tiles(file, records) && Sound(records, options))
  {
    forall records | Tiles(file, records)
      ensures !Sound(records, options)
    {
      assert records[..|seen|] == seen;
      FilePrefix(records, |seen|);
      assert forall r :: r in seen ==> r in records;
    }
  }

  lemma {:induction false} OneMore(seen: seq<Record>, r: Record)
    ensures FileBytes(seen + [r]) == FileBytes(seen) + FrameBytes(r)
    ensures IndexBytes(seen + [r]) == IndexBytes(seen) + if IsIndex(r.opcode) then |r.content| else 0
    ensures Chunks(seen + [r]) == Chunks(seen) + if r.opcode == CHUNK then 1 else 0
    ensures HasMessage(seen + [r]) <==> HasMessage(seen) || r.opcode == MESSAGE
  {
    var more := seen + [r];
    assert more[..|more| - 1] == seen && r in more;
    assert forall x :: x in more <==> x in seen || x == r;
  }

  /** The walk has come to `position` after the frames of `seen`. */
  ghost predicate Walked(file: seq<byte>, position: nat, seen: seq<Record>) {
    && MAGIC_BYTES <= position <= |file| - MAGIC_BYTES && position == MAGIC_BYTES + |FileBytes(seen)|
    && file[MAGIC_BYTES..position] == FileBytes(seen) && Forced(file, seen)
    && forall x :: x in seen ==> |x.content| <= SIZE_MAX
  }

  lemma {:induction false} WalkedNext(file: seq<byte>, position: nat, seen: seq<Record>)
    requires Walked(file, position, seen) && position < |file| - MAGIC_BYTES
    ensures match FrameAt(file, position, |file| - MAGIC_BYTES)
            case None => forall records :: !Tiles(file, records)
            case Some(r) => Walked(file, position + FRAME_BYTES + |r.content|, seen + [r])
  {
    ForcedNext(file, seen, position);
    match FrameAt(file, position, |file| - MAGIC_BYTES)
    case None =>
    case Some(r) =>
      OneMore(seen, r);
      FrameWasWritten(file, position, |file| - MAGIC_BYTES);
      Extend(file, MAGIC_BYTES, position, FileBytes(seen), FrameBytes(r));
  }

  lemma {:induction false} SoundNext(seen: seq<Record>, r: Record, options: Options)
    requires Sound(seen, options)
    ensures Sound(seen + [r], options)
       <==> Verdict(r, options).Inspected? && IndexBytes(seen + [r]) <= options.maxIndexBytes
    ensures Verdict(r, options).Inspected? ==>
      Verdict(r, options).shape == Shape(if r.opcode == CHUNK then 1 else 0, r.opcode == MESSAGE)
  {
    assert forall x :: x in seen + [r] <==> x in seen || x == r;
  }

  /** One turn of the walk: the record's own check, then the budget of the index records. */
  method Admit(r: Record, options: Options, indexBytes: nat, shape: Shape) returns (v: Result, used: nat)
    requires indexBytes <= options.maxIndexBytes
    ensures v.Inspected? ==> Verdict(r, options).Inspected? && used <= options.maxIndexBytes
    ensures v.Inspected? ==> used == indexBytes + if IsIndex(r.opcode) then |r.content| else 0
    ensures v.Inspected? ==>
      v.shape == Shape(shape.chunks + (if r.opcode == CHUNK then 1 else 0), shape.directMessages || r.opcode == MESSAGE)
    ensures !v.Inspected? ==>
      !Verdict(r, options).Inspected? || (IsIndex(r.opcode) && indexBytes + |r.content| > options.maxIndexBytes)
  {
    used, v := indexBytes, Verdict(r, options);
    if !v.Inspected? {
      return;
    }
    if IsIndex(r.opcode) {
      if |r.content| > options.maxIndexBytes - used {
        return OverLimit, used;
      }
      used := used + |r.content|;
    }
    v := Inspected(Shape(shape.chunks + v.shape.chunks, shape.directMessages || v.shape.directMessages));
  }

  /** The walk stands at `position`, behind sound records whose index bytes and shape it has added up. */
  ghost predicate Reached(file: seq<byte>, position: nat, seen: seq<Record>, options: Options, indexBytes: nat,
      shape: Shape)
  {
    && Walked(file, position, seen) && Sound(seen, options)
    && indexBytes == IndexBytes(seen) && shape == Shape(Chunks(seen), HasMessage(seen))
  }

  /** One turn of the loop: the next record is read and checked. */
  method Advance(file: seq<byte>, position: nat, ghost seen: seq<Record>, options: Options, indexBytes: nat,
      shape: Shape) returns (r: Result, next: nat, used: nat, ghost records: seq<Record>)
    requires Reached(file, position, seen, options, indexBytes, shape) && position < |file| - MAGIC_BYTES
    ensures r.Inspected? ==> position < next && Reached(file, next, records, options, used, r.shape)
    ensures !r.Inspected? ==> forall other :: !(Tiles(file, other) && Sound(other, options))
  {
    next, used, records := position, indexBytes, seen;
    WalkedNext(file, position, seen);
    var frame := FrameAt(file, position, |file| - MAGIC_BYTES);
    if frame.None? {
      return Malformed, next, used, records;
    }
    records := seen + [frame.value];
    r, used := Admit(frame.value, options, indexBytes, shape);
    AdmittedNext(file, seen, frame.value, options);
    next := position + FRAME_BYTES + |frame.value.content|;
  }

  /**
   `inspect_container`: a file is passed exactly if some records tile it that are each within their
   limits and together within the index budget; the shape counts those very records.
   */
  method InspectContainer(file: seq<byte>, options: Options) returns (r: Result, ghost records: seq<Record>)
    ensures r.Inspected? ==>
      Tiles(file, records) && Sound(records, options) && r.shape == Shape(Chunks(records), HasMessage(records))
    ensures !r.Inspected? ==> forall other :: !(Tiles(file, other) && Sound(other, options))
  {
    records := [];
    if |file| < 2 * MAGIC_BYTES {
      return Malformed, [];
    }
    var position, indexBytes := MAGIC_BYTES, 0;
    var shape := Shape(0, false);
    while position < |file| - MAGIC_BYTES
      invariant Reached(file, position, records, options, indexBytes, shape)
      decreases |file| - position
    {
      r, position, indexBytes, records := Advance(file, position, records, options, indexBytes, shape);
      if !r.Inspected? {
        return;
      }
      shape := r.shape;
    }
    r := Inspected(shape);
  }

  /** What admitting the next record, or refusing it, means for the whole file. */
  lemma {:induction false} AdmittedNext(file: seq<byte>, seen: seq<Record>, r: Record, options: Options)
    requires Sound(seen, options) && Forced(file, seen + [r])
    ensures var used := IndexBytes(seen) + if IsIndex(r.opcode) then |r.content| else 0;
            && IndexBytes(seen + [r]) == used
            && if Verdict(r, options).Inspected? && used <= options.maxIndexBytes then Sound(seen + [r], options)
               else forall records :: !(Tiles(file, records) && Sound(records, options))
    ensures Chunks(seen + [r]) == Chunks(seen) + if r.opcode == CHUNK then 1 else 0
    ensures HasMessage(seen + [r]) <==> HasMessage(seen) || r.opcode == MESSAGE
  {
    OneMore(seen, r);
    SoundNext(seen, r, options);
    if !Sound(seen + [r], options) {
      BadPrefix(file, seen + [r], options);
    }
  }

  // ----- what the checks of one record amount to -----

  /** A message record: channel, sequence number, log and publish time, and the message itself. */
  function MessageContent(channel: nat, sequence: nat, logTime: nat, publishTime: nat, data: seq<byte>): (bs: seq<byte>)
    ensures |bs| == 22 + |data|
  {
    (Store(channel, 2, true) + Store(sequence, 4, true))
    + (Store(logTime, 8, true) + (Store(publishTime, 8, true) + data))
  }

  /** A chunk record: first and last message time, size when decompressed, and the rest of it. */
  function ChunkContent(start: nat, end: nat, uncompressed: nat, rest: seq<byte>): (bs: seq<byte>)
    ensures |bs| == 24 + |rest|
  {
    Store(start, 8, true) + (Store(end, 8, true) + (Store(uncompressed, 8, true) + rest))
  }

  /** A message record passes exactly if its message is small enough and its time has a successor. */
  lemma {:induction false} MessagePasses(channel: nat, sequence: nat, logTime: nat, publishTime: nat,
      data: seq<byte>, options: Options)
    requires logTime <= SIZE_MAX
    ensures Verdict(Record(MESSAGE, MessageContent(channel, sequence, logTime, publishTime, data)), options)
         == if |data| > options.maxMessage then OverLimit
            else if logTime == SIZE_MAX then Malformed
            else Inspected(Shape(0, true))
  {
    var content := MessageContent(channel, sequence, logTime, publishTime, data);
    var front, tail := Store(channel, 2, true) + Store(sequence, 4, true), Store(publishTime, 8, true) + data;
    assert At(content, 0, front + (Store(logTime, 8, true) + tail));
    AtSplit(content, 0, front, Store(logTime, 8, true) + tail);
    AtSplit(content, 6, Store(logTime, 8, true), tail);
    LoadStored64(content, 6, logTime);
  }

  /** A chunk record passes exactly if it and what it decompresses to are small enough and its times have successors. */
  lemma {:induction false} ChunkPasses(start: nat, end: nat, uncompressed: nat, rest: seq<byte>, options: Options)
    requires end <= SIZE_MAX && uncompressed <= SIZE_MAX
    ensures Verdict(Record(CHUNK, ChunkContent(start, end, uncompressed, rest)), options)
         == if |rest| < 16 then Malformed
            else if uncompressed > options.maxChunk
                    || 24 + |rest| > options.maxChunk + options.maxConnection then OverLimit
            else if end == SIZE_MAX then Malformed
            else Inspected(Shape(1, false))
  {
    ChunkLoads(start, end, uncompressed, rest);
  }

  lemma {:induction false} ChunkLoads(start: nat, end: nat, uncompressed: nat, rest: seq<byte>)
    requires end <= SIZE_MAX && uncompressed <= SIZE_MAX
    ensures var content := ChunkContent(start, end, uncompressed, rest);
            Load64(content, 8) == end && Load64(content, 16) == uncompressed
  {
    var content := ChunkContent(start, end, uncompressed, rest);
    var last := Store(uncompressed, 8, true) + rest;
    assert At(content, 0, Store(start, 8, true) + (Store(end, 8, true) + last));
    AtSplit(content, 0, Store(start, 8, true), Store(end, 8, true) + last);
    AtSplit(content, 8, Store(end, 8, true), last);
    AtSplit(content, 16, Store(uncompressed, 8, true), rest);
    LoadStored64(content, 8, end);
    LoadStored64(content, 16, uncompressed);
  }

  // ----- the walk in bytes and numbers -----

  /** Which records pass on their own, by opcode, length and the bytes of their times and sizes. */
  lemma {:induction false} VerdictMeans(r: Record, options: Options)
    ensures var n, v := |r.content|, Verdict(r, options);
            v.Inspected?
            <==>
            if r.opcode == 0x06 then
              && n >= 40 && Low8(r.content, 8) < 0xFFFF_FFFF_FFFF_FFFF
              && Low8(r.content, 16) <= options.maxChunk && n <= options.maxChunk + options.maxConnection
            else if r.opcode == 0x05 then
              n >= 22 && n - 22 <= options.maxMessage && Low8(r.content, 6) < 0xFFFF_FFFF_FFFF_FFFF
            else
              && (r.opcode == 0x01 || r.opcode == 0x03 || r.opcode == 0x04 || r.opcode == 0x0C
                  ==> n <= options.maxConnection)
              && (r.opcode == 0x09 ==> n <= options.maxMessage)
  {
    if r.opcode == 0x06 {
      ChunkMeans(r, options);
    } else if r.opcode == 0x05 {
      MessageMeans(r, options);
    }
  }

  lemma {:induction false} ChunkMeans(r: Record, options: Options)
    requires r.opcode == 0x06
    ensures var n := |r.content|;
            Verdict(r, options)
            == if n < 40 then Malformed
               else if Low8(r.content, 16) > options.maxChunk || n > options.maxChunk + options.maxConnection then
                 OverLimit
               else if Low8(r.content, 8) == 0xFFFF_FFFF_FFFF_FFFF then Malformed
               else Inspected(Shape(1, false))
  {
    if |r.content| >= 40 {
      LoadIsSum8(r.content, 8);
      LoadIsSum8(r.content, 16);
    }
  }

  lemma {:induction false} MessageMeans(r: Record, options: Options)
    requires r.opcode == 0x05
    ensures var n := |r.content|;
            Verdict(r, options)
            == if n < 22 then Malformed
               else if n - 22 > options.maxMessage then OverLimit
               else if Low8(r.content, 6) == 0xFFFF_FFFF_FFFF_FFFF then Malformed
               else Inspected(Shape(0, true))
  {
    if |r.content| >= 22 {
      LoadIsSum8(r.content, 6);
    }
  }

  /** The index budget is spent on six opcodes alone; the shape counts chunks and looks for messages. */
  lemma {:induction false} TalliesMean(records: seq<Record>, r: Record)
    ensures IndexBytes([]) == 0 && Chunks([]) == 0
    ensures IndexBytes(records + [r])
         == IndexBytes(records)
            + if (0x07 <= r.opcode <= 0x0E && r.opcode != 0x09 && r.opcode != 0x0C) then |r.content| else 0
    ensures Chunks(records + [r]) == Chunks(records) + if r.opcode == 0x06 then 1 else 0
    ensures HasMessage(records) <==> exists k :: 0 <= k < |records| && records[k].opcode == 0x05
  {
    OneMore(records, r);
  }

  /** The records of a file, each from its start to the next: opcode, length, content. */
  ghost predicate Laid(file: seq<byte>, records: seq<Record>, starts: seq<nat>) {
    && |starts| == |records| + 1 && starts[0] == 8 && starts[|records|] + 8 == |file|
    && forall k {:trigger records[k]} :: 0 <= k < |records| ==> LaidAt(file, records[k], starts[k], starts[k + 1])
  }

  ghost predicate LaidAt(file: seq<byte>, r: Record, start: nat, next: nat) {
    && next == start + 9 + |r.content| <= |file|
    && file[start] == r.opcode && Low8(file, start + 1) == |r.content| && file[start + 9..next] == r.content
  }

  lemma {:induction false} FrameAtStart(file: seq<byte>, start: nat, next: nat)
    requires start + 9 <= next <= |file| && Low8(file, start + 1) == next - start - 9
    ensures FrameAt(file, start, next) == Some(Record(file[start], file[start + 9..next]))
  {
    LoadIsSum8(file, start + 1);
  }

  lemma {:induction false} FrameIsLaid(file: seq<byte>, start: nat, next: nat, r: Record)
    requires LaidAt(file, r, start, next)
    ensures |r.content| <= SIZE_MAX && At(file, start, FrameBytes(r))
  {
    FrameAtStart(file, start, next);
    FrameWasWritten(file, start, next);
  }

  lemma {:induction false} FrameLays(file: seq<byte>, start: nat, end: nat, r: Record)
    requires start < end <= |file| && FrameAt(file, start, end) == Some(r)
    ensures LaidAt(file, r, start, start + 9 + |r.content|)
  {
    LoadIsSum8(file, start + 1);
  }

  /** Tiling a file is being laid out in it. */
  lemma {:induction false} TilesAreLaid(file: seq<byte>, records: seq<Record>) returns (starts: seq<nat>)
    requires Tiles(file, records)
    ensures Laid(file, records, starts)
  {
    starts := seq(|records| + 1, k requires 0 <= k <= |records| => 8 + |FileBytes(records[..k])|);
    assert records[..0] == [] && records[..|records|] == records;
    forall k | 0 <= k < |records|
      ensures LaidAt(file, records[k], starts[k], starts[k + 1])
    {
      NextFrame(file, records, k);
      assert records[..k + 1][..k] == records[..k];
      FrameLays(file, starts[k], |file| - 8, records[k]);
    }
  }

  lemma {:induction false} LaidIsTiled(file: seq<byte>, records: seq<Record>, starts: seq<nat>, n: nat)
    requires Laid(file, records, starts) && n <= |records|
    ensures 8 <= starts[n] <= |file| && file[8..starts[n]] == FileBytes(records[..n])
    ensures forall k :: 0 <= k < n ==> |records[k].content| <= SIZE_MAX
  {
    if n > 0 {
      LaidIsTiled(file, records, starts, n - 1);
      var r := records[n - 1];
      FrameIsLaid(file, starts[n - 1], starts[n], r);
      assert records[..n][..n - 1] == records[..n - 1];
      Extend(file, 8, starts[n - 1], FileBytes(records[..n - 1]), FrameBytes(r));
    }
  }

  /** And the other way round, so that the walk looks for nothing else. */
  lemma {:induction false} LaidTiles(file: seq<byte>, records: seq<Record>, starts: seq<nat>)
    requires Laid(file, records, starts)
    ensures Tiles(file, records)
  {
    LaidIsTiled(file, records, starts, |records|);
    assert records[..|records|] == records;
  }
}
