/**
 The decompression loops over an arbitrary decompressor that only moves its positions forward:
 `stream_zstd` for storage files and messages, `decompress_lz4` for ROS1 chunks.
 */
module Decompression {
  import opened Wrappers
  import opened Bytes
  import opened Lists
  import opened DecompressorRuns

  function Snoc(writes: List<seq<byte>>, bytes: seq<byte>): List<seq<byte>> {
    Concat(writes, Cons(bytes, Nil))
  }

  lemma {:induction false} SnocTotal(writes: List<seq<byte>>, bytes: seq<byte>)
    ensures Total(Snoc(writes, bytes)) == Total(writes) + |bytes|
  {
    match writes
    case Nil =>
    case Cons(_, rest) => SnocTotal(rest, bytes);
  }

  /** `sizeof` the source and destination buffers. */
  const BUFFER := 65536

  /**
   Between two turns: the decompressor's state, how much of the file it has consumed, how much more of
   it the source buffer holds, and whether the last call ended a frame.
   */
  datatype State<D> = State(d: D, pos: nat, held: nat, complete: bool)

  ghost predicate Valid<D>(file: seq<byte>, s: State<D>) {
    s.pos + s.held <= |file|
  }

  /** How much a read of the file into the source buffer delivers. */
  function Block(left: nat): (n: nat)
    ensures n <= left && (n == 0 <==> left == 0)
  {
    if left < BUFFER then left else BUFFER
  }

  /** What the source buffer holds once it has been refilled, if it was empty; nothing is the end of the file. */
  function Held<D>(file: seq<byte>, s: State<D>): (n: nat)
    requires Valid(file, s)
    ensures s.pos + n <= |file| && (n == 0 <==> s.pos == |file|)
  {
    if s.held == 0 then Block(|file| - s.pos) else s.held
  }

  /** One call of the decompressor: the part of the file it took, what it gave, whether a frame ended. */
  datatype Call = Call(from: nat, to: nat, given: seq<byte>, frameEnd: bool)

  /** One turn of the loop when `budget` more bytes may be written. */
  datatype Turn<D> = Stop(r: Result) | Go(call: Call, next: State<D>)

  ghost function TurnOf<D(!new)>(step: Decompressor<D>, file: seq<byte>, s: State<D>, budget: nat): (t: Turn<D>)
    requires Monotone(step) && Valid(file, s)
    ensures t.Stop? && t.r.Done? ==> t.r.writes == Nil && s.pos == |file| && s.complete
    ensures t.Go? ==> Valid(file, t.next) && t.next.complete == t.call.frameEnd
    ensures t.Go? ==> t.call.from == s.pos <= t.call.to == t.next.pos
    ensures t.Go? ==> |t.call.given| <= budget && (t.call.from < t.call.to || |t.call.given| > 0)
  {
    var held := Held(file, s);
    if held == 0 && s.complete then Stop(Done(Nil))
    else if file == [] then Stop(Fail(EmptyInput))
    else
      var p := step(s.d, file[s.pos..s.pos + held], BUFFER);
      if p.Broken? then Stop(Fail(Corrupt))
      else if |p.produced| > budget then Stop(Fail(OverBudget))
      else if p.consumed == 0 && |p.produced| == 0 then Stop(Fail(if held == 0 then Truncated else NoProgress))
      else Go(Call(s.pos, s.pos + p.consumed, p.produced, p.frameEnd),
              State(p.d, s.pos + p.consumed, held - p.consumed, p.frameEnd))
  }

  /** What the loop makes of a stream after the writes `before`, when `budget` more bytes may be written. */
  ghost function Decode<D(!new)>(step: Decompressor<D>, file: seq<byte>, s: State<D>, budget: nat,
      before: List<seq<byte>>): (r: Result)
    requires Monotone(step) && Valid(file, s)
    decreases |file| - s.pos + budget
  {
    match TurnOf(step, file, s, budget)
    case Stop(r) => if r.Done? then Done(before) else r
    case Go(call, next) => Decode(step, file, next, budget - |call.given|, Snoc(before, call.given))
  }

  lemma {:induction false} WithinBudget<D(!new)>(step: Decompressor<D>, file: seq<byte>, s: State<D>,
      budget: nat, before: List<seq<byte>>)
    requires Monotone(step) && Valid(file, s) && Decode(step, file, s, budget, before).Done?
    ensures Total(before) <= Total(Decode(step, file, s, budget, before).writes) <= Total(before) + budget
    decreases |file| - s.pos + budget
  {
    match TurnOf(step, file, s, budget)
    case Stop(_) =>
    case Go(call, next) =>
      SnocTotal(before, call.given);
      WithinBudget(step, file, next, budget - |call.given|, Snoc(before, call.given));
  }

  /**
   `stream_zstd`: terminates for every decompressor, because each turn takes input or uses up
   budget, and never writes more than the limit.
   */
  method StreamZstd<D(!new)>(step: Decompressor<D>, d: D, compressed: seq<byte>, limit: nat)
      returns (r: Result, size: nat)
    requires Monotone(step)
    ensures r == Decode(step, compressed, Opened(d), limit, Nil)
    ensures StreamOutcome(step, d, compressed, limit, r)
    ensures r.Done? ==> size == Total(r.writes) <= limit
  {
    r, size := StreamLoop(step, d, compressed, limit);
    StreamRuns(step, d, compressed, limit);
  }

  method StreamLoop<D(!new)>(step: Decompressor<D>, d: D, compressed: seq<byte>, limit: nat)
      returns (r: Result, size: nat)
    requires Monotone(step)
    ensures r == Decode(step, compressed, Opened(d), limit, Nil)
    ensures r.Done? ==> size == Total(r.writes) <= limit
  {
    var s := Opened(d);
    var eof, seen := false, false;
    var writes: List<seq<byte>> := Nil;
    size := 0;
    ghost var whole := Decode(step, compressed, s, limit, Nil);
    ghost var budget: nat := limit;
    while true
      invariant Valid(compressed, s) && Flagged(compressed, s, eof, seen)
      invariant size == Total(writes) && size + budget == limit
      invariant whole == Decode(step, compressed, s, budget, writes)
      decreases |compressed| - s.pos + budget
    {
      var stopped, given, next, eof', seen' := RunTurn(step, compressed, s, eof, seen, limit - size);
      if stopped.Some? {
        return if stopped.value.Done? then Done(writes) else stopped.value, size;
      }
      SnocTotal(writes, given);
      writes, size, budget := Snoc(writes, given), size + |given|, budget - |given|;
      s, eof, seen := next, eof', seen';
    }
  }

  function Opened<D>(d: D): State<D> {
    State(d, 0, 0, false)
  }

  /** What the loop's flags say: the end of the file has been met; something has been read. */
  ghost predicate Flagged<D>(file: seq<byte>, s: State<D>, eof: bool, seen: bool) {
    && (eof ==> s.pos == |file|) && (seen ==> file != [])
    && (eof || s.held != 0 || s.pos != 0 ==> seen == (file != []))
  }

  /** The statements of one turn, up to what is written. */
  method RunTurn<D(!new)>(step: Decompressor<D>, file: seq<byte>, s: State<D>, wasEof: bool, hadSeen: bool,
      budget: nat) returns (stopped: Option<Result>, given: seq<byte>, next: State<D>, eof: bool, seen: bool)
    requires Monotone(step) && Valid(file, s) && Flagged(file, s, wasEof, hadSeen)
    ensures match TurnOf(step, file, s, budget)
            case Stop(r) => stopped == Some(r)
            case Go(call, rest) =>
              stopped == None && given == call.given && next == rest && Flagged(file, next, eof, seen)
  {
    given, next, eof, seen := [], s, wasEof, hadSeen;
    var held := s.held;
    if held == 0 && !eof {
      held := Block(|file| - s.pos);
      eof := held == 0;
      seen := seen || !eof;
    }
    if eof && held == 0 && s.complete {
      return Some(Done(Nil)), given, next, eof, seen;
    }
    if !seen {
      return Some(Fail(EmptyInput)), given, next, eof, seen;
    }
    var p := step(s.d, file[s.pos..s.pos + held], BUFFER);
    if p.Broken? {
      return Some(Fail(Corrupt)), given, next, eof, seen;
    }
    if |p.produced| > budget {
      return Some(Fail(OverBudget)), given, next, eof, seen;
    }
    if p.consumed == 0 && |p.produced| == 0 {
      return Some(Fail(if eof then Truncated else NoProgress)), given, next, eof, seen;
    }
    stopped, given, next := None, p.produced, State(p.d, s.pos + p.consumed, held - p.consumed, p.frameEnd);
  }

  // ----- what success means -----

  ghost function Calls<D(!new)>(step: Decompressor<D>, file: seq<byte>, s: State<D>, budget: nat): List<Call>
    requires Monotone(step) && Valid(file, s)
    decreases |file| - s.pos + budget
  {
    match TurnOf(step, file, s, budget)
    case Stop(_) => Nil
    case Go(call, next) => Cons(call, Calls(step, file, next, budget - |call.given|))
  }

  /** The calls took the file's bytes from `from` to `end` once and in order. */
  predicate Covers(calls: List<Call>, from: nat, end: nat) {
    match calls
    case Nil => from == end
    case Cons(call, rest) => call.from == from <= call.to && Covers(rest, call.to, end)
  }

  function Given(calls: List<Call>): List<seq<byte>> {
    match calls
    case Nil => Nil
    case Cons(call, rest) => Cons(call.given, Given(rest))
  }

  /** Whether the last of the calls ended a frame; `before` if there were none. */
  predicate EndsFrame(calls: List<Call>, before: bool) {
    match calls
    case Nil => before
    case Cons(call, rest) => EndsFrame(rest, call.frameEnd)
  }

  /** Whether the last call, and only it, ended a frame. */
  predicate OneFrame(calls: List<Call>) {
    match calls
    case Nil => false
    case Cons(call, rest) => call.frameEnd == rest.Nil? && (rest.Cons? ==> OneFrame(rest))
  }

  lemma {:induction false} SuccessMeans<D(!new)>(step: Decompressor<D>, file: seq<byte>, s: State<D>,
      budget: nat, before: List<seq<byte>>)
    requires Monotone(step) && Valid(file, s) && Decode(step, file, s, budget, before).Done?
    ensures var calls := Calls(step, file, s, budget);
            && Covers(calls, s.pos, |file|) && EndsFrame(calls, s.complete)
            && Decode(step, file, s, budget, before).writes == Concat(before, Given(calls))
    decreases |file| - s.pos + budget
  {
    match TurnOf(step, file, s, budget)
    case Stop(_) => ConcatNil(before);
    case Go(call, next) =>
      SuccessMeans(step, file, next, budget - |call.given|, Snoc(before, call.given));
      ConcatSnoc(before, call.given, Given(Calls(step, file, next, budget - |call.given|)));
  }

  /**
   On success every byte of the file has been handed to the decompressor once and in order, the last
   call ended a frame, and the writes are what all calls gave, frame after frame.
   */
  lemma {:induction false} WholeFileDecoded<D(!new)>(step: Decompressor<D>, d: D, compressed: seq<byte>, limit: nat)
    requires Monotone(step) && Decode(step, compressed, Opened(d), limit, Nil).Done?
    ensures var calls := Calls(step, compressed, Opened(d), limit);
            && EndsFrame(calls, false) && Covers(calls, 0, |compressed|)
            && Given(calls) == Decode(step, compressed, Opened(d), limit, Nil).writes
  {
    SuccessMeans(step, compressed, Opened(d), limit, Nil);
  }

  /** The limit is an exact threshold: what decodes under some limit decodes alike under another iff it fits. */
  lemma {:induction false} LimitIsExact<D(!new)>(step: Decompressor<D>, file: seq<byte>, s: State<D>, a: nat,
      b: nat, before: List<seq<byte>>)
    requires Monotone(step) && Valid(file, s) && Decode(step, file, s, a, before).Done?
    ensures var r := Decode(step, file, s, a, before);
            Decode(step, file, s, b, before) == if Total(r.writes) <= Total(before) + b then r else Fail(OverBudget)
  {
    var r := Decode(step, file, s, a, before);
    if Total(r.writes) <= Total(before) + b {
      FitsAlike(step, file, s, a, b, before, r);
    } else {
      TooMuch(step, file, s, a, b, before, r);
    }
  }

  lemma {:induction false} DecodeGoes<D(!new)>(step: Decompressor<D>, file: seq<byte>, s: State<D>, budget: nat,
      before: List<seq<byte>>, call: Call, next: State<D>)
    requires Monotone(step) && Valid(file, s) && TurnOf(step, file, s, budget) == Go(call, next)
    ensures |call.given| <= budget && Valid(file, next)
    ensures Decode(step, file, s, budget, before)
         == Decode(step, file, next, budget - |call.given|, Snoc(before, call.given))
  {
  }

  lemma {:induction false} GivenFits(before: List<seq<byte>>, given: seq<byte>, writes: List<seq<byte>>, b: nat)
    requires Total(Snoc(before, given)) <= Total(writes) <= Total(before) + b
    ensures |given| <= b && Total(writes) <= Total(Snoc(before, given)) + (b - |given|)
  {
    SnocTotal(before, given);
  }

  lemma {:induction false} FitsAlike<D(!new)>(step: Decompressor<D>, file: seq<byte>, s: State<D>, a: nat,
      b: nat, before: List<seq<byte>>, r: Result)
    requires Monotone(step) && Valid(file, s) && Decode(step, file, s, a, before) == r
    requires r.Done? && Total(r.writes) <= Total(before) + b
    ensures Decode(step, file, s, b, before) == r
    decreases |file| - s.pos + a
  {
    SameTurn(step, file, s, a, b);
    match TurnOf(step, file, s, a)
    case Stop(_) =>
    case Go(call, next) =>
      var now := Snoc(before, call.given);
      DecodeGoes(step, file, s, a, before, call, next);
      WithinBudget(step, file, next, a - |call.given|, now);
      GivenFits(before, call.given, r.writes, b);
      DecodeGoes(step, file, s, b, before, call, next);
      FitsAlike(step, file, next, a - |call.given|, b - |call.given|, now, r);
  }

  lemma {:induction false} DecodeStops<D(!new)>(step: Decompressor<D>, file: seq<byte>, s: State<D>, budget: nat,
      before: List<seq<byte>>, r: Result)
    requires Monotone(step) && Valid(file, s) && TurnOf(step, file, s, budget) == Stop(r)
    ensures Decode(step, file, s, budget, before) == if r.Done? then Done(before) else r
  {
  }

  lemma {:induction false} GivenExceeds(before: List<seq<byte>>, given: seq<byte>, writes: List<seq<byte>>, b: nat)
    requires Total(writes) > Total(before) + b && |given| <= b
    ensures Total(writes) > Total(Snoc(before, given)) + (b - |given|)
  {
    SnocTotal(before, given);
  }

  lemma {:induction false} TooMuch<D(!new)>(step: Decompressor<D>, file: seq<byte>, s: State<D>, a: nat, b: nat,
      before: List<seq<byte>>, r: Result)
    requires Monotone(step) && Valid(file, s) && Decode(step, file, s, a, before) == r
    requires r.Done? && Total(r.writes) > Total(before) + b
    ensures Decode(step, file, s, b, before) == Fail(OverBudget)
    decreases |file| - s.pos + a
  {
    SameTurn(step, file, s, a, b);
    match TurnOf(step, file, s, a)
    case Stop(_) =>
    case Go(call, next) =>
      DecodeGoes(step, file, s, a, before, call, next);
      if |call.given| <= b {
        var now := Snoc(before, call.given);
        GivenExceeds(before, call.given, r.writes, b);
        TooMuch(step, file, next, a - |call.given|, b - |call.given|, now, r);
        DecodeGoes(step, file, s, b, before, call, next);
      } else {
        DecodeStops(step, file, s, b, before, Fail(OverBudget));
      }
  }

  /** The budget decides only whether what is given may be written. */
  lemma {:induction false} SameTurn<D(!new)>(step: Decompressor<D>, file: seq<byte>, s: State<D>, a: nat, b: nat)
    requires Monotone(step) && Valid(file, s)
    ensures var t := TurnOf(step, file, s, a);
            && (t.Stop? && t.r.Done? ==> TurnOf(step, file, s, b) == t)
            && (t.Go? ==> TurnOf(step, file, s, b) == if |t.call.given| <= b then t else Stop(Fail(OverBudget)))
  {
  }

  // ----- a chunk: exactly one frame -----

  ghost function DecodeFrame<D(!new)>(step: Decompressor<D>, file: seq<byte>, s: State<D>, budget: nat,
      before: List<seq<byte>>): (r: Result)
    requires Monotone(step) && Valid(file, s)
    decreases |file| - s.pos + budget
  {
    match FrameTurn(step, file, s, budget)
    case Stop(r) => r
    case Go(call, next) =>
      if !call.frameEnd then DecodeFrame(step, file, next, budget - |call.given|, Snoc(before, call.given))
      else if next.pos == |file| then Done(Snoc(before, call.given))
      else Fail(TrailingBytes)
  }

  ghost function FrameTurn<D(!new)>(step: Decompressor<D>, file: seq<byte>, s: State<D>, budget: nat): (t: Turn<D>)
    requires Monotone(step) && Valid(file, s)
    ensures t.Stop? ==> t.r.Fail?
    ensures t.Go? ==> Valid(file, t.next) && t.call.from == s.pos <= t.call.to == t.next.pos
    ensures t.Go? ==> |t.call.given| <= budget && (t.call.from < t.call.to || |t.call.given| > 0)
  {
    var held := Held(file, s);
    if held == 0 then Stop(Fail(Truncated))
    else
      var p := step(s.d, file[s.pos..s.pos + held], BUFFER);
      if p.Broken? then Stop(Fail(Corrupt))
      else if p.consumed == 0 && |p.produced| == 0 then Stop(Fail(NoProgress))
      else if |p.produced| > budget then Stop(Fail(OverBudget))
      else Go(Call(s.pos, s.pos + p.consumed, p.produced, p.frameEnd),
              State(p.d, s.pos + p.consumed, held - p.consumed, p.frameEnd))
  }

  function OfSize(r: Result, size: nat): Result {
    if r.Done? && Total(r.writes) != size then Fail(SizeMismatch) else r
  }

  /** `decompress_lz4`: one frame, all of it, of the declared size, within the limit. */
  method DecompressLz4<D(!new)>(step: Decompressor<D>, d: D, compressed: seq<byte>, size: nat, limit: nat)
      returns (r: Result)
    requires Monotone(step)
    ensures r == OfSize(DecodeFrame(step, compressed, Opened(d), limit, Nil), size)
    ensures FrameOutcome(step, d, compressed, size, limit, r)
  {
    r := FrameLoop(step, d, compressed, size, limit);
    FrameRuns(step, d, compressed, size, limit);
  }

  method FrameLoop<D(!new)>(step: Decompressor<D>, d: D, compressed: seq<byte>, size: nat, limit: nat)
      returns (r: Result)
    requires Monotone(step)
    ensures r == OfSize(DecodeFrame(step, compressed, Opened(d), limit, Nil), size)
  {
    var s := Opened(d);
    var output: List<seq<byte>> := Nil;
    var produced: nat := 0;
    ghost var whole := DecodeFrame(step, compressed, s, limit, Nil);
    ghost var budget: nat := limit;
    while true
      invariant Valid(compressed, s) && produced == Total(output) && produced + budget == limit
      invariant whole == DecodeFrame(step, compressed, s, budget, output)
      decreases |compressed| - s.pos + budget
    {
      var stopped, given, next := RunFrameTurn(step, compressed, s, limit - produced);
      if stopped.Some? {
        return stopped.value;
      }
      SnocTotal(output, given);
      output, produced, budget, s := Snoc(output, given), produced + |given|, budget - |given|, next;
      if s.complete {
        if s.held != 0 || |compressed| - (s.pos + s.held) != 0 {
          return Fail(TrailingBytes);
        }
        break;
      }
    }
    r := if produced != size then Fail(SizeMismatch) else Done(output);
  }

  method RunFrameTurn<D(!new)>(step: Decompressor<D>, file: seq<byte>, s: State<D>, budget: nat)
      returns (stopped: Option<Result>, given: seq<byte>, next: State<D>)
    requires Monotone(step) && Valid(file, s)
    ensures match FrameTurn(step, file, s, budget)
            case Stop(r) => stopped == Some(r)
            case Go(call, rest) =>
              stopped == None && given == call.given && next == rest && next.complete == call.frameEnd
  {
    given, next := [], s;
    var held := s.held;
    if held == 0 {
      if |file| - s.pos == 0 {
        return Some(Fail(Truncated)), given, next;
      }
      held := Block(|file| - s.pos);
    }
    var p := step(s.d, file[s.pos..s.pos + held], BUFFER);
    if p.Broken? {
      return Some(Fail(Corrupt)), given, next;
    }
    if p.consumed == 0 && |p.produced| == 0 {
      return Some(Fail(NoProgress)), given, next;
    }
    if |p.produced| > budget {
      return Some(Fail(OverBudget)), given, next;
    }
    stopped, given, next := None, p.produced, State(p.d, s.pos + p.consumed, held - p.consumed, p.frameEnd);
  }

  /** A chunk that decodes is one the streaming loop would decode alike, in a single frame. */
  lemma {:induction false} FrameIsStream<D(!new)>(step: Decompressor<D>, file: seq<byte>, s: State<D>,
      budget: nat, before: List<seq<byte>>)
    requires Monotone(step) && Valid(file, s) && DecodeFrame(step, file, s, budget, before).Done?
    requires !s.complete
    ensures Decode(step, file, s, budget, before) == DecodeFrame(step, file, s, budget, before)
    ensures OneFrame(Calls(step, file, s, budget))
    decreases |file| - s.pos + budget
  {
    FrameTurnIsTurn(step, file, s, budget);
    var t := TurnOf(step, file, s, budget);
    var left := budget - |t.call.given|;
    if t.call.frameEnd {
      EndOfStream(step, file, t.next, left, Snoc(before, t.call.given));
    } else {
      FrameIsStream(step, file, t.next, left, Snoc(before, t.call.given));
    }
  }

  lemma {:induction false} FrameTurnIsTurn<D(!new)>(step: Decompressor<D>, file: seq<byte>, s: State<D>, budget: nat)
    requires Monotone(step) && Valid(file, s) && FrameTurn(step, file, s, budget).Go?
    ensures TurnOf(step, file, s, budget) == FrameTurn(step, file, s, budget)
  {
  }

  lemma {:induction false} EndOfStream<D(!new)>(step: Decompressor<D>, file: seq<byte>, s: State<D>, budget: nat,
      before: List<seq<byte>>)
    requires Monotone(step) && Valid(file, s) && s.pos == |file| && s.complete && file != []
    ensures Decode(step, file, s, budget, before) == Done(before) && Calls(step, file, s, budget) == Nil
  {
  }

  lemma {:induction false} OfferedIsHeld<D>(file: seq<byte>, s: State<D>)
    requires Valid(file, s)
    ensures Held(file, s) == Offered(file, s.pos, s.held)
  {
  }

  // ----- the loops against runs -----

  lemma {:induction false} TurnOfAnswer<D(!new)>(step: Decompressor<D>, file: seq<byte>, s: State<D>,
      budget: nat, a: Step<D>)
    requires Monotone(step) && Valid(file, s) && file != [] && Moves(step, file, s.d, s.pos, s.held, a)
    requires !(s.pos == |file| && s.complete)
    ensures TurnOf(step, file, s, budget)
         == if |a.produced| > budget then Stop(Fail(OverBudget))
            else Go(Call(s.pos, s.pos + a.consumed, a.produced, a.frameEnd),
                    State(a.d, s.pos + a.consumed, Offered(file, s.pos, s.held) - a.consumed, a.frameEnd))
  {
    OfferedIsHeld(file, s);
  }

  /** Every run that the limit allows is decoded to its outputs. */
  lemma {:induction false} StreamDecodes<D(!new)>(step: Decompressor<D>, file: seq<byte>, s: State<D>,
      budget: nat, before: List<seq<byte>>, answers: List<Step<D>>)
    requires Monotone(step) && Valid(file, s) && file != []
    requires Streams(step, file, s.d, s.pos, s.held, s.complete, answers) && Total(Outputs(answers)) <= budget
    ensures Decode(step, file, s, budget, before) == Done(Concat(before, Outputs(answers)))
    decreases answers
  {
    match answers
    case Nil =>
      OfferedIsHeld(file, s);
      ConcatNil(before);
    case Cons(a, rest) =>
      var call := Call(s.pos, s.pos + a.consumed, a.produced, a.frameEnd);
      var next := State(a.d, s.pos + a.consumed, Offered(file, s.pos, s.held) - a.consumed, a.frameEnd);
      TurnOfAnswer(step, file, s, budget, a);
      DecodeGoes(step, file, s, budget, before, call, next);
      StreamDecodes(step, file, next, budget - |a.produced|, Snoc(before, a.produced), rest);
      ConcatSnoc(before, a.produced, Outputs(rest));
  }

  /** Behind every turn that goes on there is an answer that moves on. */
  lemma {:induction false} AnswerOfTurn<D(!new)>(step: Decompressor<D>, file: seq<byte>, s: State<D>,
      budget: nat, call: Call, next: State<D>) returns (a: Step<D>)
    requires Monotone(step) && Valid(file, s) && TurnOf(step, file, s, budget) == Go(call, next)
    ensures Moves(step, file, s.d, s.pos, s.held, a) && !(s.pos == |file| && s.complete)
    ensures call.given == a.produced && |a.produced| <= budget
    ensures next == State(a.d, s.pos + a.consumed, Offered(file, s.pos, s.held) - a.consumed, a.frameEnd)
  {
    OfferedIsHeld(file, s);
    a := step(s.d, file[s.pos..s.pos + Held(file, s)], BUFFER);
  }

  lemma {:induction false} StreamsCons<D(!new)>(step: Decompressor<D>, file: seq<byte>, s: State<D>, a: Step<D>,
      next: State<D>, rest: List<Step<D>>)
    requires Monotone(step) && Valid(file, s) && Valid(file, next) && Moves(step, file, s.d, s.pos, s.held, a)
    requires !(s.pos == |file| && s.complete)
    requires next == State(a.d, s.pos + a.consumed, Offered(file, s.pos, s.held) - a.consumed, a.frameEnd)
    requires Streams(step, file, next.d, next.pos, next.held, next.complete, rest)
    ensures Streams(step, file, s.d, s.pos, s.held, s.complete, Cons(a, rest))
  {
  }

  /** Whatever is decoded has such a run. */
  lemma {:induction false} DecodedStreams<D(!new)>(step: Decompressor<D>, file: seq<byte>, s: State<D>,
      budget: nat, before: List<seq<byte>>, r: Result) returns (answers: List<Step<D>>)
    requires Monotone(step) && Valid(file, s) && Decode(step, file, s, budget, before) == r && r.Done?
    ensures Streams(step, file, s.d, s.pos, s.held, s.complete, answers) && Total(Outputs(answers)) <= budget
    ensures r == Done(Concat(before, Outputs(answers)))
    decreases |file| - s.pos + budget
  {
    match TurnOf(step, file, s, budget)
    case Stop(_) =>
      answers := Nil;
      ConcatNil(before);
    case Go(call, next) =>
      var a := AnswerOfTurn(step, file, s, budget, call, next);
      DecodeGoes(step, file, s, budget, before, call, next);
      var rest := DecodedStreams(step, file, next, budget - |a.produced|, Snoc(before, a.produced), r);
      StreamsCons(step, file, s, a, next, rest);
      answers := Cons(a, rest);
      ConcatSnoc(before, a.produced, Outputs(rest));
  }

  // ----- a chunk likewise -----

  lemma {:induction false} FrameTurnOfAnswer<D(!new)>(step: Decompressor<D>, file: seq<byte>, s: State<D>,
      budget: nat, a: Step<D>)
    requires Monotone(step) && Valid(file, s) && s.pos < |file| && Moves(step, file, s.d, s.pos, s.held, a)
    ensures FrameTurn(step, file, s, budget)
         == if |a.produced| > budget then Stop(Fail(OverBudget))
            else Go(Call(s.pos, s.pos + a.consumed, a.produced, a.frameEnd),
                    State(a.d, s.pos + a.consumed, Offered(file, s.pos, s.held) - a.consumed, a.frameEnd))
  {
    OfferedIsHeld(file, s);
  }

  lemma {:induction false} FrameDecodes<D(!new)>(step: Decompressor<D>, file: seq<byte>, s: State<D>,
      budget: nat, before: List<seq<byte>>, answers: List<Step<D>>)
    requires Monotone(step) && Valid(file, s)
    requires Frames(step, file, s.d, s.pos, s.held, answers) && Total(Outputs(answers)) <= budget
    ensures DecodeFrame(step, file, s, budget, before) == Done(Concat(before, Outputs(answers)))
    decreases answers
  {
    match answers
    case Cons(a, rest) =>
      var call := Call(s.pos, s.pos + a.consumed, a.produced, a.frameEnd);
      var next := State(a.d, s.pos + a.consumed, Offered(file, s.pos, s.held) - a.consumed, a.frameEnd);
      FrameTurnOfAnswer(step, file, s, budget, a);
      FrameDecodeGoes(step, file, s, budget, before, call, next);
      if !a.frameEnd {
        FrameDecodes(step, file, next, budget - |a.produced|, Snoc(before, a.produced), rest);
        ConcatSnoc(before, a.produced, Outputs(rest));
      }
  }

  lemma {:induction false} FrameDecodeGoes<D(!new)>(step: Decompressor<D>, file: seq<byte>, s: State<D>,
      budget: nat, before: List<seq<byte>>, call: Call, next: State<D>)
    requires Monotone(step) && Valid(file, s) && FrameTurn(step, file, s, budget) == Go(call, next)
    ensures |call.given| <= budget && Valid(file, next)
    ensures DecodeFrame(step, file, s, budget, before)
         == if !call.frameEnd then DecodeFrame(step, file, next, budget - |call.given|, Snoc(before, call.given))
            else if next.pos == |file| then Done(Snoc(before, call.given))
            else Fail(TrailingBytes)
  {
  }

  lemma {:induction false} FramesCons<D(!new)>(step: Decompressor<D>, file: seq<byte>, s: State<D>, a: Step<D>,
      next: State<D>, rest: List<Step<D>>)
    requires Monotone(step) && Valid(file, s) && Valid(file, next) && Moves(step, file, s.d, s.pos, s.held, a)
    requires s.pos < |file|
    requires next == State(a.d, s.pos + a.consumed, Offered(file, s.pos, s.held) - a.consumed, a.frameEnd)
    requires if a.frameEnd then rest == Nil && next.pos == |file|
             else Frames(step, file, next.d, next.pos, next.held, rest)
    ensures Frames(step, file, s.d, s.pos, s.held, Cons(a, rest))
  {
  }

  lemma {:induction false} DecodedFrames<D(!new)>(step: Decompressor<D>, file: seq<byte>, s: State<D>,
      budget: nat, before: List<seq<byte>>, r: Result) returns (answers: List<Step<D>>)
    requires Monotone(step) && Valid(file, s) && DecodeFrame(step, file, s, budget, before) == r && r.Done?
    ensures Frames(step, file, s.d, s.pos, s.held, answers) && Total(Outputs(answers)) <= budget
    ensures r == Done(Concat(before, Outputs(answers)))
    decreases |file| - s.pos + budget
  {
    match FrameTurn(step, file, s, budget)
    case Go(call, next) =>
      var a := AnswerOfFrameTurn(step, file, s, budget, call, next);
      FrameDecodeGoes(step, file, s, budget, before, call, next);
      var rest := Nil;
      if !a.frameEnd {
        rest := DecodedFrames(step, file, next, budget - |a.produced|, Snoc(before, a.produced), r);
        ConcatSnoc(before, a.produced, Outputs(rest));
      }
      FramesCons(step, file, s, a, next, rest);
      answers := Cons(a, rest);
  }

  lemma {:induction false} AnswerOfFrameTurn<D(!new)>(step: Decompressor<D>, file: seq<byte>, s: State<D>,
      budget: nat, call: Call, next: State<D>) returns (a: Step<D>)
    requires Monotone(step) && Valid(file, s) && FrameTurn(step, file, s, budget) == Go(call, next)
    ensures s.pos < |file| && Moves(step, file, s.d, s.pos, s.held, a)
    ensures call.given == a.produced && call.frameEnd == a.frameEnd && |a.produced| <= budget
    ensures next == State(a.d, s.pos + a.consumed, Offered(file, s.pos, s.held) - a.consumed, a.frameEnd)
  {
    OfferedIsHeld(file, s);
    a := step(s.d, file[s.pos..s.pos + Held(file, s)], BUFFER);
  }

  lemma {:induction false} StreamRuns<D(!new)>(step: Decompressor<D>, d: D, compressed: seq<byte>, limit: nat)
    requires Monotone(step)
    ensures StreamOutcome(step, d, compressed, limit, Decode(step, compressed, Opened(d), limit, Nil))
  {
    var s := Opened(d);
    if compressed != [] {
      forall run | Streams(step, compressed, d, 0, 0, false, run)
        ensures Decode(step, compressed, s, limit, Nil)
             == if Total(Outputs(run)) <= limit then Done(Outputs(run)) else Fail(OverBudget)
      {
        StreamDecodes(step, compressed, s, Total(Outputs(run)), Nil, run);
        LimitIsExact(step, compressed, s, Total(Outputs(run)), limit, Nil);
      }
    }
    if Decode(step, compressed, s, limit, Nil).Done? {
      var run := DecodedStreams(step, compressed, s, limit, Nil, Decode(step, compressed, s, limit, Nil));
    } else if compressed != [] {
      var run := FailedStreams(step, compressed, s, limit, Nil, Decode(step, compressed, s, limit, Nil).f);
    }
  }

  lemma {:induction false} FailedStreams<D(!new)>(step: Decompressor<D>, file: seq<byte>, s: State<D>,
      budget: nat, before: List<seq<byte>>, f: Failure) returns (run: List<Step<D>>)
    requires Monotone(step) && Valid(file, s) && file != [] && Decode(step, file, s, budget, before) == Fail(f)
    ensures StreamFails(step, file, s.d, s.pos, s.held, s.complete, budget, run, f)
    decreases |file| - s.pos + budget
  {
    match TurnOf(step, file, s, budget)
    case Stop(_) =>
      OfferedIsHeld(file, s);
      run := Nil;
    case Go(call, next) =>
      var a := AnswerOfTurn(step, file, s, budget, call, next);
      DecodeGoes(step, file, s, budget, before, call, next);
      var rest := FailedStreams(step, file, next, budget - |a.produced|, Snoc(before, a.produced), f);
      StreamFailsCons(step, file, s, budget, a, next, rest, f);
      run := Cons(a, rest);
  }

  lemma {:induction false} StreamFailsCons<D(!new)>(step: Decompressor<D>, file: seq<byte>, s: State<D>,
      budget: int, a: Step<D>, next: State<D>, rest: List<Step<D>>, f: Failure)
    requires Monotone(step) && Valid(file, s) && Valid(file, next) && Moves(step, file, s.d, s.pos, s.held, a)
    requires !(s.pos == |file| && s.complete)
    requires next == State(a.d, s.pos + a.consumed, Offered(file, s.pos, s.held) - a.consumed, a.frameEnd)
    requires StreamFails(step, file, next.d, next.pos, next.held, next.complete, budget - |a.produced|, rest, f)
    ensures StreamFails(step, file, s.d, s.pos, s.held, s.complete, budget, Cons(a, rest), f)
  {
  }

  lemma {:induction false} FrameRuns<D(!new)>(step: Decompressor<D>, d: D, compressed: seq<byte>, size: nat, limit: nat)
    requires Monotone(step)
    ensures FrameOutcome(step, d, compressed, size, limit,
                         OfSize(DecodeFrame(step, compressed, Opened(d), limit, Nil), size))
  {
    var s := Opened(d);
    var r := DecodeFrame(step, compressed, s, limit, Nil);
    forall run | Frames(step, compressed, d, 0, 0, run) && Total(Outputs(run)) <= limit
      ensures r == Done(Outputs(run))
    {
      FrameDecodes(step, compressed, s, limit, Nil, run);
    }
    if r.Done? {
      var run := DecodedFrames(step, compressed, s, limit, Nil, r);
      assert Frames(step, compressed, d, 0, 0, run) && r == Done(Outputs(run));
    } else {
      FailureIsNoMismatch(step, compressed, s, limit, Nil);
      var run := FailedFrames(step, compressed, s, limit, Nil, r.f);
    }
  }

  lemma {:induction false} FailureIsNoMismatch<D(!new)>(step: Decompressor<D>, file: seq<byte>, s: State<D>,
      budget: nat, before: List<seq<byte>>)
    requires Monotone(step) && Valid(file, s)
    ensures DecodeFrame(step, file, s, budget, before) != Fail(SizeMismatch)
    decreases |file| - s.pos + budget
  {
    match FrameTurn(step, file, s, budget)
    case Stop(_) =>
    case Go(call, next) =>
      if !call.frameEnd {
        FailureIsNoMismatch(step, file, next, budget - |call.given|, Snoc(before, call.given));
      }
  }

  lemma {:induction false} FailedFrames<D(!new)>(step: Decompressor<D>, file: seq<byte>, s: State<D>,
      budget: nat, before: List<seq<byte>>, f: Failure) returns (run: List<Step<D>>)
    requires Monotone(step) && Valid(file, s) && DecodeFrame(step, file, s, budget, before) == Fail(f)
    ensures FrameFails(step, file, s.d, s.pos, s.held, budget, run, f)
    decreases |file| - s.pos + budget
  {
    match FrameTurn(step, file, s, budget)
    case Stop(_) =>
      run := Nil;
      StoppedFrameFails(step, file, s, budget, f);
    case Go(call, next) =>
      var a := AnswerOfFrameTurn(step, file, s, budget, call, next);
      FrameDecodeGoes(step, file, s, budget, before, call, next);
      run := Nil;
      if a.frameEnd {
        TrailingFrameFails(step, file, s, budget, a);
      } else {
        var rest := FailedFrames(step, file, next, budget - |a.produced|, Snoc(before, a.produced), f);
        FrameFailsCons(step, file, s, budget, a, next, rest, f);
        run := Cons(a, rest);
      }
  }

  lemma {:induction false} StoppedFrameFails<D(!new)>(step: Decompressor<D>, file: seq<byte>, s: State<D>,
      budget: nat, f: Failure)
    requires Monotone(step) && Valid(file, s) && FrameTurn(step, file, s, budget) == Stop(Fail(f))
    ensures FrameFails(step, file, s.d, s.pos, s.held, budget, Nil, f)
  {
    OfferedIsHeld(file, s);
  }

  lemma {:induction false} TrailingFrameFails<D(!new)>(step: Decompressor<D>, file: seq<byte>, s: State<D>,
      budget: nat, a: Step<D>)
    requires Monotone(step) && Valid(file, s) && s.pos < |file| && Moves(step, file, s.d, s.pos, s.held, a)
    requires |a.produced| <= budget && a.frameEnd && s.pos + a.consumed < |file|
    ensures FrameFails(step, file, s.d, s.pos, s.held, budget, Nil, TrailingBytes)
  {
  }

  lemma {:induction false} FrameFailsCons<D(!new)>(step: Decompressor<D>, file: seq<byte>, s: State<D>,
      budget: int, a: Step<D>, next: State<D>, rest: List<Step<D>>, f: Failure)
    requires Monotone(step) && Valid(file, s) && Valid(file, next) && Moves(step, file, s.d, s.pos, s.held, a)
    requires s.pos < |file| && !a.frameEnd
    requires next == State(a.d, s.pos + a.consumed, Offered(file, s.pos, s.held) - a.consumed, a.frameEnd)
    requires FrameFails(step, file, next.d, next.pos, next.held, budget - |a.produced|, rest, f)
    ensures FrameFails(step, file, s.d, s.pos, s.held, budget, Cons(a, rest), f)
  {
  }

  // ----- budgets across files -----

  /** The temporary files of one directory reader, each as the writes that made it. */
  class TemporaryFiles {
    const maxFile: nat
    const maxTotal: nat
    var temporaryBytes: nat
    var files: List<List<seq<byte>>>

    ghost predicate Valid()
      reads this
    {
      temporaryBytes == AllBytes(files) <= maxTotal && EachWithin(files, maxFile)
    }

    constructor (maxFile: nat, maxTotal: nat)
      ensures Valid() && files == Nil && this.maxFile == maxFile && this.maxTotal == maxTotal
    {
      this.maxFile, this.maxTotal := maxFile, maxTotal;
      temporaryBytes, files := 0, Nil;
    }

    /** `decompress_file`: a file that decodes at all is kept exactly if it fits both budgets. */
    method Decompress<D(!new)>(step: Decompressor<D>, d: D, compressed: seq<byte>) returns (r: Result)
      requires Valid() && Monotone(step)
      modifies this`temporaryBytes, this`files
      ensures Valid() && files == if r.Done? then Cons(r.writes, old(files)) else old(files)
      ensures forall budget, writes :: Decode(step, compressed, Opened(d), budget, Nil) == Done(writes) ==>
        r == if Total(writes) <= maxFile && old(temporaryBytes) + Total(writes) <= maxTotal then Done(writes)
             else Fail(OverBudget)
    {
      var room := maxTotal - temporaryBytes;
      var limit := if maxFile < room then maxFile else room;
      var size: nat;
      r, size := StreamZstd(step, d, compressed, limit);
      forall budget, writes | Decode(step, compressed, Opened(d), budget, Nil) == Done(writes)
        ensures r == if Total(writes) <= limit then Done(writes) else Fail(OverBudget)
      {
        LimitIsExact(step, compressed, Opened(d), budget, limit, Nil);
      }
      if r.Done? {
        files, temporaryBytes := Cons(r.writes, files), temporaryBytes + size;
      }
    }
  }

  function AllBytes(files: List<List<seq<byte>>>): nat {
    match files
    case Nil => 0
    case Cons(file, rest) => Total(file) + AllBytes(rest)
  }

  predicate EachWithin(files: List<List<seq<byte>>>, most: nat) {
    match files
    case Nil => true
    case Cons(file, rest) => Total(file) <= most && EachWithin(rest, most)
  }

  /** The output vector of `zstd_bytes`, whose capacity is rationed like its contents. */
  class MessageBuffer {
    const limit: nat
    var output: seq<byte>
    var capacity: nat

    ghost predicate Valid()
      reads this
    {
      |output| <= capacity <= limit
    }

    constructor (limit: nat)
      ensures Valid() && output == [] && this.limit == limit
    {
      this.limit := limit;
      output, capacity := [], 0;
    }

    /** Appending what the loop has already checked against the limit; growing doubles, up to the limit. */
    method Append(bytes: seq<byte>)
      requires Valid() && |bytes| <= limit - |output|
      modifies this`output, this`capacity
      ensures Valid() && output == old(output) + bytes
      ensures |output| <= old(capacity) ==> capacity == old(capacity)
      ensures |output| > old(capacity) ==>
        capacity == if |output| >= 2 * old(capacity) then |output|
                    else if 2 * old(capacity) <= limit then 2 * old(capacity)
                    else limit
    {
      var required := |output| + |bytes|;
      if required > capacity {
        var growth := if capacity > limit / 2 then limit else capacity * 2;
        capacity := if required > growth then required else growth;
      }
      output := output + bytes;
    }
  }
}
