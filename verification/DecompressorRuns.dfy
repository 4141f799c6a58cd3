/**
 What a decompression loop has to do with, told by the decompressor's answers alone: a run is a list
 of answers, each to the bytes then in the source buffer.
 */
module DecompressorRuns {
  import opened Bytes
  import opened Lists

  /** One call of the decompressor on the bytes it is offered. */
  datatype Step<D> = Progress(d: D, consumed: nat, produced: seq<byte>, frameEnd: bool) | Broken

  /** A decompressor takes at most what it is offered and fills at most the room it is given. */
  type Decompressor<!D> = (D, seq<byte>, nat) -> Step<D>

  ghost predicate Monotone<D(!new)>(step: Decompressor<D>) {
    forall d, input, room :: step(d, input, room).Progress? ==>
      step(d, input, room).consumed <= |input| && |step(d, input, room).produced| <= room
  }

  datatype Failure = EmptyInput | Corrupt | OverBudget | Truncated | NoProgress | TrailingBytes | SizeMismatch

  /** What a loop comes to: its writes in order, or a failure. */
  datatype Result = Done(writes: List<seq<byte>>) | Fail(f: Failure)

  function Total(writes: List<seq<byte>>): nat {
    match writes
    case Nil => 0
    case Cons(bytes, rest) => |bytes| + Total(rest)
  }

  function Outputs<D>(answers: List<Step<D>>): List<seq<byte>> {
    match answers
    case Nil => Nil
    case Cons(a, rest) => Cons(if a.Progress? then a.produced else [], Outputs(rest))
  }

  /** The bytes the source buffer holds for the next call, refilled if it was empty. */
  function Offered(file: seq<byte>, pos: nat, held: nat): (n: nat)
    requires pos + held <= |file|
    ensures pos + n <= |file|
  {
    if held > 0 then held else if |file| - pos < 65536 then |file| - pos else 65536
  }

  /** An answer that takes input or gives output. */
  ghost predicate Moves<D(!new)>(step: Decompressor<D>, file: seq<byte>, d: D, pos: nat, held: nat, a: Step<D>)
    requires pos + held <= |file|
  {
    && a == step(d, file[pos..pos + Offered(file, pos, held)], 65536)
    && a.Progress? && (a.consumed > 0 || |a.produced| > 0)
  }

  /**
   A stream: answers that move on, until all input is taken and the last of them has ended a frame.
   Any number of frames may end before; `complete` says whether the answer before these ended one.
   */
  ghost predicate Streams<D(!new)>(step: Decompressor<D>, file: seq<byte>, d: D, pos: nat, held: nat,
      complete: bool, answers: List<Step<D>>)
    requires Monotone(step) && pos + held <= |file|
    decreases answers
  {
    match answers
    case Nil => pos == |file| && complete
    case Cons(a, rest) =>
      && Moves(step, file, d, pos, held, a) && !(pos == |file| && complete)
      && Streams(step, file, a.d, pos + a.consumed, Offered(file, pos, held) - a.consumed, a.frameEnd, rest)
  }

  /** A frame: answers that move on while input is left; the last, and no other, ends the frame and takes all input. */
  ghost predicate Frames<D(!new)>(step: Decompressor<D>, file: seq<byte>, d: D, pos: nat, held: nat,
      answers: List<Step<D>>)
    requires Monotone(step) && pos + held <= |file|
    decreases answers
  {
    match answers
    case Nil => false
    case Cons(a, rest) =>
      && pos < |file| && Moves(step, file, d, pos, held, a)
      && if a.frameEnd then rest.Nil? && pos + a.consumed == |file|
         else Frames(step, file, a.d, pos + a.consumed, Offered(file, pos, held) - a.consumed, rest)
  }

  // ----- runs that fail -----

  /** The answer behind these ends a stream: it is an error, too long for the budget, or gets nowhere. */
  ghost predicate StreamFails<D(!new)>(step: Decompressor<D>, file: seq<byte>, d: D, pos: nat, held: nat,
      complete: bool, budget: int, answers: List<Step<D>>, f: Failure)
    requires Monotone(step) && pos + held <= |file|
    decreases answers
  {
    match answers
    case Nil =>
      var a := step(d, file[pos..pos + Offered(file, pos, held)], 65536);
      && !(pos == |file| && complete)
      && (match f
          case Corrupt => a.Broken?
          case OverBudget => a.Progress? && |a.produced| > budget
          case Truncated => a.Progress? && a.consumed == 0 && |a.produced| == 0 <= budget && pos == |file|
          case NoProgress => a.Progress? && a.consumed == 0 && |a.produced| == 0 <= budget && pos < |file|
          case _ => false)
    case Cons(a, rest) =>
      && Moves(step, file, d, pos, held, a) && !(pos == |file| && complete)
      && StreamFails(step, file, a.d, pos + a.consumed, Offered(file, pos, held) - a.consumed, a.frameEnd,
                     budget - |a.produced|, rest, f)
  }

  /** The same for a frame, which also fails if input runs out or is left over. */
  ghost predicate FrameFails<D(!new)>(step: Decompressor<D>, file: seq<byte>, d: D, pos: nat, held: nat,
      budget: int, answers: List<Step<D>>, f: Failure)
    requires Monotone(step) && pos + held <= |file|
    decreases answers
  {
    match answers
    case Nil =>
      if pos == |file| then f == Truncated
      else
        var a := step(d, file[pos..pos + Offered(file, pos, held)], 65536);
        (match f
         case Corrupt => a.Broken?
         case NoProgress => a.Progress? && a.consumed == 0 && |a.produced| == 0
         case OverBudget => a.Progress? && |a.produced| > 0 && |a.produced| > budget
         case TrailingBytes => && a.Progress? && (a.consumed > 0 || |a.produced| > 0) && |a.produced| <= budget
                               && a.frameEnd && pos + a.consumed < |file|
         case _ => false)
    case Cons(a, rest) =>
      && pos < |file| && Moves(step, file, d, pos, held, a) && !a.frameEnd
      && FrameFails(step, file, a.d, pos + a.consumed, Offered(file, pos, held) - a.consumed,
                    budget - |a.produced|, rest, f)
  }

  // ----- outcomes -----

  /**
   What streaming `file` comes to: the outputs of a run if there is one and they fit the limit, and
   otherwise the failure of the answer that ends it.
   */
  ghost predicate StreamOutcome<D(!new)>(step: Decompressor<D>, d: D, file: seq<byte>, limit: nat, r: Result)
    requires Monotone(step)
  {
    && (r.Done? ==> file != [] && exists run :: Streams(step, file, d, 0, 0, false, run) && r == Done(Outputs(run)))
    && (file != [] ==> forall run :: Streams(step, file, d, 0, 0, false, run) ==>
          r == if Total(Outputs(run)) <= limit then Done(Outputs(run)) else Fail(OverBudget))
    && (r.Fail? ==>
          if file == [] then r.f == EmptyInput
          else exists run :: StreamFails(step, file, d, 0, 0, false, limit, run, r.f))
  }

  /** What a chunk of declared size `size` comes to, likewise. */
  ghost predicate FrameOutcome<D(!new)>(step: Decompressor<D>, d: D, file: seq<byte>, size: nat, limit: nat, r: Result)
    requires Monotone(step)
  {
    && (r.Done? ==> exists run :: Frames(step, file, d, 0, 0, run) && r == Done(Outputs(run)))
    && (r.Done? ==> Total(r.writes) == size <= limit)
    && (forall run :: Frames(step, file, d, 0, 0, run) && Total(Outputs(run)) <= limit ==>
          r == if Total(Outputs(run)) == size then Done(Outputs(run)) else Fail(SizeMismatch))
    && (r == Fail(SizeMismatch) ==>
          exists run :: Frames(step, file, d, 0, 0, run) && Total(Outputs(run)) <= limit && Total(Outputs(run)) != size)
    && (r.Fail? && r.f != SizeMismatch ==> exists run :: FrameFails(step, file, d, 0, 0, limit, run, r.f))
  }
}
