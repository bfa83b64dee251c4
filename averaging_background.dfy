/** The averaging background handlers: "FirstFrames:n" averages the first n
    frames, "PreviousFrames:n" keeps a running average over every frame, and
    n = 1 picks the handlers that keep the first frame or the latest frame.
    Frames are an abstract type; zeroing, `accumulateWeighted` with weight
    1/n and the conversion to 8-bit pixels are OpenCV's and are given as
    functions. */
module Averaging {
  import opened Wrappers
  import opened Background

  /** The kind of handler a factory builds. `Averaging` is
      `AveragingBackground` with its frame count and whether only the start
      frames are used; `FirstFrame` and `PreviousFrame` are its special
      cases for a count of 1. */
  datatype Kind = Averaging(framesToAverage: int, useStartFrames: bool) | FirstFrame | PreviousFrame

  const FirstFramesName: string := "FirstFrames"
  const PreviousFramesName: string := "PreviousFrames"

  /** The "FirstFrames" factory: exactly one argument, a count; 1 keeps the
      first frame, any other count averages the first that many frames.
      `parseLong` is `Long.parseLong`, `None` where it throws. */
  function FirstFramesHandler(parseLong: string -> Option<int>, args: seq<string>): (r: Result<Kind, HandlerError>)
    ensures |args| != 1 ==> r == Failure(IncorrectArguments(1, |args|))
    ensures |args| == 1 && parseLong(args[0]).None? ==> r == Failure(BadNumber(args[0]))
    ensures r.Success? <==> |args| == 1 && parseLong(args[0]).Some?
    ensures r.Success? ==> (r.value == FirstFrame <==> parseLong(args[0]).value == 1)
    ensures r.Success? && r.value != FirstFrame ==> r.value == Averaging(parseLong(args[0]).value, true)
  {
    if |args| != 1 then Failure(IncorrectArguments(1, |args|))
    else
      match parseLong(args[0])
      case None => Failure(BadNumber(args[0]))
      case Some(n) => if n == 1 then Success(FirstFrame) else Success(Averaging(n, true))
  }

  /** The "PreviousFrames" factory: the count is the first argument, with no
      check on how many there are (none is an index out of bounds, extra
      ones are ignored); 1 keeps the latest frame, any other count keeps a
      running average. */
  function PreviousFramesHandler(parseLong: string -> Option<int>, args: seq<string>): (r: Result<Kind, HandlerError>)
    ensures |args| == 0 ==> r == Failure(MissingArgument)
    ensures |args| > 0 && parseLong(args[0]).None? ==> r == Failure(BadNumber(args[0]))
    ensures r.Success? <==> |args| > 0 && parseLong(args[0]).Some?
    ensures r.Success? ==> (r.value == PreviousFrame <==> parseLong(args[0]).value == 1)
    ensures r.Success? && r.value != PreviousFrame ==> r.value == Averaging(parseLong(args[0]).value, false)
  {
    if |args| == 0 then Failure(MissingArgument)
    else
      match parseLong(args[0])
      case None => Failure(BadNumber(args[0]))
      case Some(n) => if n == 1 then Success(PreviousFrame) else Success(Averaging(n, false))
  }

  /** Only the first argument of "PreviousFrames" matters. */
  lemma PreviousFramesIgnoresExtra(parseLong: string -> Option<int>, args: seq<string>)
    requires |args| > 1
    ensures PreviousFramesHandler(parseLong, args) == PreviousFramesHandler(parseLong, args[..1])
    ensures FirstFramesHandler(parseLong, args).Failure?
  {
    assert args[..1][0] == args[0];
  }

  /** `register`: both factories are put into the registry. */
  method Register(registry: Registry<Kind>, parseLong: string -> Option<int>)
    modifies registry
    ensures registry.factories == old(registry.factories)
      [FirstFramesName := args => FirstFramesHandler(parseLong, args)]
      [PreviousFramesName := args => PreviousFramesHandler(parseLong, args)]
  {
    registry.Register(FirstFramesName, args => FirstFramesHandler(parseLong, args));
    registry.Register(PreviousFramesName, args => PreviousFramesHandler(parseLong, args));
  }

  /** Once registered, "FirstFrames:1" and "PreviousFrames:1" select the
      special cases and other counts the averaging handler. */
  lemma RegisteredDescriptors(before: map<string, Factory<Kind>>, parseLong: string -> Option<int>, count: string, n: int)
    requires count != "" && !Strings.Contains(count, DescriptorSep) && parseLong(count) == Some(n)
    ensures var factories := before[FirstFramesName := args => FirstFramesHandler(parseLong, args)]
                                   [PreviousFramesName := args => PreviousFramesHandler(parseLong, args)];
      && GetHandler(factories, FirstFramesName + [DescriptorSep] + count) ==
           Success(if n == 1 then FirstFrame else Averaging(n, true))
      && GetHandler(factories, PreviousFramesName + [DescriptorSep] + count) ==
           Success(if n == 1 then PreviousFrame else Averaging(n, false))
  {
    var factories := before[FirstFramesName := args => FirstFramesHandler(parseLong, args)]
                           [PreviousFramesName := args => PreviousFramesHandler(parseLong, args)];
    assert Strings.Join([FirstFramesName] + [count], [DescriptorSep]) == FirstFramesName + [DescriptorSep] + count;
    assert Strings.Join([PreviousFramesName] + [count], [DescriptorSep]) == PreviousFramesName + [DescriptorSep] + count;
    assert !Strings.Contains(FirstFramesName, DescriptorSep);
    assert !Strings.Contains(PreviousFramesName, DescriptorSep);
    HandlerOfJoined(factories, FirstFramesName, [count]);
    HandlerOfJoined(factories, PreviousFramesName, [count]);
  }

  // ---------------------------------------------------------------------
  // Processing frames

  /** One `processFrame` call of a handler of kind `kind` whose background
      is `bg` after `count` earlier calls. The averaging handler starts from
      a zero background and accumulates the frame unless only the start
      frames are used and `count` of them have already been seen; the
      first-frame handler keeps its background once it has one; the
      previous-frame handler takes every frame. */
  function Step<F>(kind: Kind, bg: Option<F>, count: int, frame: F,
                   zeros: F -> F, accumulate: (F, F, int) -> F): Option<F>
  {
    match kind
    case Averaging(n, useStartFrames) =>
      var b := if bg.None? then zeros(frame) else bg.value;
      Some(if !useStartFrames || count < n then accumulate(frame, b, n) else b)
    case FirstFrame => if bg.None? then Some(frame) else bg
    case PreviousFrame => Some(frame)
  }

  /** The background after the given frames were processed in order. */
  function BackgroundOf<F>(kind: Kind, frames: seq<F>, zeros: F -> F, accumulate: (F, F, int) -> F): Option<F> {
    if |frames| == 0 then None
    else
      var n := |frames| - 1;
      Step(kind, BackgroundOf(kind, frames[..n], zeros, accumulate), n, frames[n], zeros, accumulate)
  }

  /** `accumulateWeighted` applied to each frame in turn, starting from `b`. */
  function AccumulateAll<F>(b: F, frames: seq<F>, n: int, accumulate: (F, F, int) -> F): F {
    if |frames| == 0 then b
    else
      var k := |frames| - 1;
      accumulate(frames[k], AccumulateAll(b, frames[..k], n, accumulate), n)
  }

  function Min(a: int, b: int): int {
    if a <= b then a else b
  }

  function Max(a: int, b: int): int {
    if a >= b then a else b
  }

  /** There is a background exactly when at least one frame was processed. */
  lemma {:induction false} BackgroundAfterFirstFrame<F>(kind: Kind, frames: seq<F>, zeros: F -> F, accumulate: (F, F, int) -> F)
    ensures BackgroundOf(kind, frames, zeros, accumulate).Some? <==> |frames| > 0
  {
  }

  /** The first-frame handler keeps the first frame forever. */
  lemma {:induction false} FirstFrameKeepsFirst<F>(frames: seq<F>, zeros: F -> F, accumulate: (F, F, int) -> F)
    requires |frames| > 0
    ensures BackgroundOf(FirstFrame, frames, zeros, accumulate) == Some(frames[0])
  {
    var n := |frames| - 1;
    if n > 0 {
      FirstFrameKeepsFirst(frames[..n], zeros, accumulate);
    }
  }

  /** The previous-frame handler's background is the latest frame. */
  lemma PreviousFrameKeepsLatest<F>(frames: seq<F>, zeros: F -> F, accumulate: (F, F, int) -> F)
    requires |frames| > 0
    ensures BackgroundOf(PreviousFrame, frames, zeros, accumulate) == Some(frames[|frames| - 1])
  {
  }

  /** The averaging handler's background is the zero frame with the
      accumulated frames added in order: the first n frames when only the
      start frames are used (none when n is not positive), every frame
      otherwise. */
  lemma {:induction false} AveragingAccumulates<F>(n: int, useStartFrames: bool, frames: seq<F>,
                                                   zeros: F -> F, accumulate: (F, F, int) -> F)
    requires |frames| > 0
    ensures var used := if useStartFrames then Min(|frames|, Max(n, 0)) else |frames|;
      BackgroundOf(Averaging(n, useStartFrames), frames, zeros, accumulate) ==
        Some(AccumulateAll(zeros(frames[0]), frames[..used], n, accumulate))
  {
    var k := |frames| - 1;
    var kind := Averaging(n, useStartFrames);
    var z := zeros(frames[0]);
    var used := if useStartFrames then Min(|frames|, Max(n, 0)) else |frames|;
    if k == 0 {
      if used == 1 {
        assert frames[..used][..0] == [];
      } else {
        assert frames[..used] == [];
      }
    } else {
      var front := frames[..k];
      AveragingAccumulates(n, useStartFrames, front, zeros, accumulate);
      assert front[0] == frames[0];
      var usedBefore := if useStartFrames then Min(k, Max(n, 0)) else k;
      assert front[..usedBefore] == frames[..usedBefore];
      if !useStartFrames || k < n {
        assert used == usedBefore + 1;
        assert frames[..used][..usedBefore] == frames[..usedBefore];
      } else {
        assert used == usedBefore;
      }
    }
  }

  /** The averaging, first-frame and previous-frame handlers. */
  class Handler<F> {
    const kind: Kind
    /** The background image; `None` before the first frame. For the
        averaging handler it is the 64-bit accumulator. */
    var background: Option<F>
    var frameCount: int
    /** The frames processed so far. */
    ghost var frames: seq<F>
    const zeros: F -> F
    const accumulate: (F, F, int) -> F
    const toBytes: F -> F

    ghost predicate Valid()
      reads this
    {
      && background == BackgroundOf(kind, frames, zeros, accumulate)
      && frameCount == (if kind.Averaging? then |frames| else 0)
    }

    /** A new handler: no background yet. */
    constructor (kind: Kind, zeros: F -> F, accumulate: (F, F, int) -> F, toBytes: F -> F)
      ensures Valid() && frames == [] && background == None
      ensures this.kind == kind && this.zeros == zeros && this.accumulate == accumulate && this.toBytes == toBytes
    {
      this.kind := kind;
      background := None;
      frameCount := 0;
      frames := [];
      this.zeros := zeros;
      this.accumulate := accumulate;
      this.toBytes := toBytes;
    }

    /** `processFrame`. */
    method ProcessFrame(frame: F)
      requires Valid()
      modifies this
      ensures Valid() && frames == old(frames) + [frame]
      ensures background == Step(kind, old(background), old(|frames|), frame, zeros, accumulate)
      ensures kind.Averaging? ==> frameCount == old(frameCount) + 1
    {
      ghost var n := |frames|;
      assert (frames + [frame])[..n] == frames;
      frames := frames + [frame];
      match kind
      case Averaging(framesToAverage, useStartFrames) =>
        if background.None? {
          background := Some(zeros(frame));
        }
        if !useStartFrames || frameCount < framesToAverage {
          background := Some(accumulate(frame, background.value, framesToAverage));
        }
        frameCount := frameCount + 1;
      case FirstFrame =>
        if background.None? {
          background := Some(frame);
        }
      case PreviousFrame =>
        background := Some(frame);
    }

    /** `getBackground`: none before the first frame; the averaging handler
        hands out its accumulator converted to 8-bit pixels. */
    function GetBackground(): (r: Option<F>)
      reads this
      requires Valid()
      ensures r.None? <==> |frames| == 0
      ensures kind.Averaging? && r.Some? ==> r.value == toBytes(background.value)
      ensures !kind.Averaging? ==> r == background
    {
      BackgroundAfterFirstFrame(kind, frames, zeros, accumulate);
      if kind.Averaging? && background.Some? then Some(toBytes(background.value)) else background
    }

    /** None of these handlers works on colour frames. */
    function CanHandleColour(): bool {
      false
    }
  }
}
