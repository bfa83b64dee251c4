/** One tracked object: a Kalman filter plus the bookkeeping around it (the
    predict-once flag, the applied-point and change counters, and the last
    applied, predicted and current positions). OpenCV's filter arithmetic is
    not modelled: its predict and correct steps are functions supplied with
    each track. */
module Kalman {
  import opened Wrappers
  import opened Geometry
  import opened Strings

  // ---------------------------------------------------------------------
  // Filter configuration

  /** `KalmanTrack.Cfg`: the text it was built from and the three noise settings. */
  datatype Cfg = Cfg(text: string, processNoiseCov: real, measurementNoiseCov: real, errorCovPost: real)

  /** The preset names, in the order the error message lists them. */
  const PresetNames: seq<string> := ["veryfast", "fast", "normal", "slow", "veryslow"]

  /** The noise triple of a preset name, if `name` is one. */
  function Preset(name: string): (r: Option<(real, real, real)>)
    ensures r.Some? <==> name in PresetNames
  {
    if name == "veryslow" then Some((1e-10, 1e-2, 1e-2))
    else if name == "slow" then Some((1e-6, 1e-2, 1e-2))
    else if name == "normal" then Some((1e-4, 1e-1, 1e-1))
    else if name == "fast" then Some((1e-3, 1e-1, 1e-1))
    else if name == "veryfast" then Some((1e-1, 1.0, 1.0))
    else None
  }

  function CfgError(s: string): string {
    "Invalid Kalman filter parameters '" + s
    + "':\n\texpected '<process noise covariance>,<measurement noise covariance>,<error covariance post>\n\t"
    + "or one of " + Join(PresetNames, ", ")
  }

  /** The `Cfg(String)` constructor. A missing string means "normal"; a
      preset name gives its triple; anything else must start with three
      comma-separated numbers read by `Double.parseDouble` (a parameter:
      `None` where Java throws). */
  function ParseCfg(s: Option<string>, parseDouble: string -> Option<real>): (r: Result<Cfg, string>)
    ensures s.None? ==> r == Success(Cfg("normal", 1e-4, 1e-1, 1e-1))
    ensures r.Success? ==> r.value.text == (if s.None? then "normal" else s.value)
    ensures s.Some? && s.value !in PresetNames && |Split(s.value, ',')| < 3 ==> r == Failure(CfgError(s.value))
  {
    var t := if s.None? then "normal" else s.value;
    var preset := Preset(t);
    if preset.Some? then Success(Cfg(t, preset.value.0, preset.value.1, preset.value.2))
    else ParseNumbers(t, Split(t, ','), parseDouble)
  }

  /** The numeric form: the first three comma-separated parts of `t`. */
  function ParseNumbers(t: string, parts: seq<string>, parseDouble: string -> Option<real>): (r: Result<Cfg, string>)
    ensures r.Success? ==> |parts| >= 3 && r.value.text == t
  {
    if |parts| < 3 then Failure(CfgError(t))
    else
      var p, m, e := parseDouble(parts[0]), parseDouble(parts[1]), parseDouble(parts[2]);
      if p.Some? && m.Some? && e.Some? then Success(Cfg(t, p.value, m.value, e.value))
      else Failure(CfgError(t))
  }

  /** A string that is not a preset name is read as numbers. */
  lemma ParseCfgNumeric(t: string, parseDouble: string -> Option<real>)
    requires t !in PresetNames
    ensures ParseCfg(Some(t), parseDouble) == ParseNumbers(t, Split(t, ','), parseDouble)
  {
  }

  /** Three comma-separated numbers, possibly followed by further parts,
      give exactly those three settings; a part that is not a number is an error. */
  lemma ParseCfgTriple(s: string, a: string, b: string, c: string, tail: string, parseDouble: string -> Option<real>)
    requires s == a + "," + b + "," + c + tail
    requires !Contains(a, ',') && !Contains(b, ',') && !Contains(c, ',') && c != ""
    requires tail == "" || tail[0] == ','
    ensures ParseCfg(Some(s), parseDouble) ==
        if parseDouble(a).Some? && parseDouble(b).Some? && parseDouble(c).Some?
        then Success(Cfg(s, parseDouble(a).value, parseDouble(b).value, parseDouble(c).value))
        else Failure(CfgError(s))
  {
    SplitTriple(a, b, c, tail);
    assert s !in PresetNames by {
      assert s[|a|] == ',';
      NoCommaInPresets();
    }
    ParseCfgNumeric(s, parseDouble);
  }

  /** No preset name holds a comma. */
  lemma NoCommaInPresets()
    ensures forall n :: n in PresetNames ==> !Contains(n, ',')
  {
  }

  /** The first three comma-separated parts of `a,b,c` followed by nothing
      or by further parts are `a`, `b` and `c`. */
  lemma SplitTriple(a: string, b: string, c: string, tail: string)
    requires !Contains(a, ',') && !Contains(b, ',') && !Contains(c, ',') && c != ""
    requires tail == "" || tail[0] == ','
    ensures var parts := Split(a + "," + b + "," + c + tail, ',');
      |parts| >= 3 && parts[0] == a && parts[1] == b && parts[2] == c
  {
    var ps := [a, b, c];
    assert Join(ps[2..], ",") == c;
    assert Join(ps[1..], ",") == b + "," + c;
    assert Join(ps, ",") + tail == a + "," + b + "," + c + tail;
    SplitStartsWith(ps, tail, ',');
    var parts := Split(a + "," + b + "," + c + tail, ',');
    assert parts[..3] == ps;
  }

  // ---------------------------------------------------------------------
  // Filter state

  /** The filter's state vector: position and velocity. */
  datatype StateVector = StateVector(x: real, y: real, vx: real, vy: real)

  /** What the model keeps of an OpenCV KalmanFilter: the predicted and
      corrected state vectors and, opaquely, the covariances it evolves. */
  datatype Filter = Filter(statePre: StateVector, statePost: StateVector, covariances: seq<real>)

  /** OpenCV's `predict` and `correct`, supplied with each track. */
  datatype KalmanSteps = KalmanSteps(predict: Filter -> Filter, correct: (Filter, Point) -> Filter)

  /** The point `predict()` returns: the first two rows of the predicted state. */
  function PredictedPoint(f: Filter): Point {
    Point(f.statePre.x, f.statePre.y)
  }

  /** The point `correct()` returns: the first two rows of the corrected state. */
  function CorrectedPoint(f: Filter): Point {
    Point(f.statePost.x, f.statePost.y)
  }

  /** The filter as the constructor sets it up: both states at the initial
      position with zero velocity, and the configured noise levels. */
  function InitialFilter(cfg: Cfg, p: Point): Filter {
    var v := StateVector(p.x, p.y, 0.0, 0.0);
    Filter(v, v, [cfg.processNoiseCov, cfg.measurementNoiseCov, cfg.errorCovPost])
  }

  // ---------------------------------------------------------------------
  // Track state as a value

  /** The mutable fields of a track. `None` stands for Java's null. */
  datatype TrackState = TrackState(
    filter: Filter,
    assessCalled: bool,
    pointCount: int,
    lastAppliedPoint: Option<Point>,
    lastPredictedPoint: Option<Point>,
    currentPosition: Option<Point>,
    positionChanged: bool,
    lastDetectedAt: int,
    changeCount: int)

  /** The state right after construction. */
  function InitialState(cfg: Cfg, p: Point, lastDetectedAt: int): TrackState {
    TrackState(InitialFilter(cfg, p), false, 0, None, None, None, false, lastDetectedAt, 0)
  }

  /** The state change of `assess`: predict only if no prediction was made
      since the last applied point. */
  function Predicted(s: TrackState, steps: KalmanSteps): (t: TrackState)
    ensures t.assessCalled && t.lastPredictedPoint.Some?
  {
    if s.assessCalled && s.lastPredictedPoint.Some? then s
    else
      var f := steps.predict(s.filter);
      s.(assessCalled := true, filter := f, lastPredictedPoint := Some(PredictedPoint(f)))
  }

  /** The state change of `apply(point)`. */
  function Applied(s: TrackState, steps: KalmanSteps, point: Point): TrackState {
    var s1 := s.(lastAppliedPoint := Some(point), pointCount := s.pointCount + 1);
    var s2 := if !s1.assessCalled then Predicted(s1, steps) else s1;
    var f := steps.correct(s2.filter, point);
    var newPos := CorrectedPoint(f);
    var changed := s2.currentPosition != Some(newPos);
    s2.(assessCalled := false, filter := f, positionChanged := changed,
        changeCount := if changed then s2.changeCount + 1 else s2.changeCount,
        currentPosition := Some(newPos))
  }

  /** The track fields the model relies on: `assessCalled` only once a
      prediction exists, and the counters ordered. */
  predicate Valid(s: TrackState) {
    && (s.assessCalled ==> s.lastPredictedPoint.Some?)
    && 0 <= s.changeCount <= s.pointCount
  }

  /** `apply` records the point, counts it, leaves a prediction behind,
      clears the predict flag, and counts a change exactly when the
      corrected position differs from the previous one. */
  lemma AppliedBookkeeping(s: TrackState, steps: KalmanSteps, point: Point)
    requires Valid(s)
    ensures var t := Applied(s, steps, point);
      && Valid(t)
      && t.lastAppliedPoint == Some(point)
      && t.pointCount == s.pointCount + 1
      && !t.assessCalled && t.lastPredictedPoint.Some?
      && t.currentPosition.Some?
      && (t.positionChanged <==> t.currentPosition != s.currentPosition)
      && t.changeCount == (if t.positionChanged then s.changeCount + 1 else s.changeCount)
      && t.lastDetectedAt == s.lastDetectedAt
  {
  }

  /** The first apply always counts as a change. */
  lemma FirstApplyChanges(s: TrackState, steps: KalmanSteps, point: Point)
    requires s.currentPosition.None?
    ensures Applied(s, steps, point).positionChanged
    ensures Applied(s, steps, point).changeCount == s.changeCount + 1
  {
  }

  /** Repeated `assess` calls predict once: the second one changes nothing. */
  lemma PredictedIdempotent(s: TrackState, steps: KalmanSteps)
    ensures Predicted(Predicted(s, steps), steps) == Predicted(s, steps)
  {
  }

  /** Whether or not `assess` ran first, `apply` ends in the same state: the
      filter predicts exactly once per applied point. */
  lemma AssessThenApply(s: TrackState, steps: KalmanSteps, point: Point)
    requires Valid(s)
    ensures Applied(Predicted(s, steps), steps, point) == Applied(s, steps, point)
  {
  }

  /** The calls a caller can make on a track. */
  datatype Call = AssessCall(p: Point) | ApplyCall(p: Point) | StoppedCall | ContinueCall

  /** One call; `None` where Java would dereference a null point. */
  function Step(s: TrackState, steps: KalmanSteps, c: Call): Option<TrackState> {
    match c
    case AssessCall(_) => Some(Predicted(s, steps))
    case ApplyCall(p) => Some(Applied(s, steps, p))
    case StoppedCall => if s.lastAppliedPoint.Some? then Some(Applied(s, steps, s.lastAppliedPoint.value)) else None
    case ContinueCall => if s.lastPredictedPoint.Some? then Some(Applied(s, steps, s.lastPredictedPoint.value)) else None
  }

  /** A sequence of calls, stopping at the first null dereference. */
  function Run(s: TrackState, steps: KalmanSteps, calls: seq<Call>): Option<TrackState>
    decreases |calls|
  {
    if |calls| == 0 then Some(s)
    else match Step(s, steps, calls[0])
      case None => None
      case Some(t) => Run(t, steps, calls[1..])
  }

  /** The number of calls that apply a point (apply, stopped, continue). */
  function ApplyCount(calls: seq<Call>): nat {
    if |calls| == 0 then 0 else (if calls[0].AssessCall? then 0 else 1) + ApplyCount(calls[1..])
  }

  /** Over any run, `appliedPointCount` counts the apply, stopped and continue
      calls, and the change count never exceeds it. */
  lemma {:induction false} RunCounts(s: TrackState, steps: KalmanSteps, calls: seq<Call>)
    requires Valid(s)
    decreases |calls|
    ensures Run(s, steps, calls).Some? ==>
      var t := Run(s, steps, calls).value;
      Valid(t) && t.pointCount == s.pointCount + ApplyCount(calls)
  {
    if |calls| > 0 {
      var next := Step(s, steps, calls[0]);
      if next.Some? {
        match calls[0] {
          case AssessCall(_) =>
          case ApplyCall(p) => AppliedBookkeeping(s, steps, p);
          case StoppedCall => AppliedBookkeeping(s, steps, s.lastAppliedPoint.value);
          case ContinueCall => AppliedBookkeeping(s, steps, s.lastPredictedPoint.value);
        }
        RunCounts(next.value, steps, calls[1..]);
      }
    }
  }

  /** `stopped()` re-applies the last applied point, so that point stays the same. */
  lemma StoppedKeepsLastApplied(s: TrackState, steps: KalmanSteps)
    requires s.lastAppliedPoint.Some?
    ensures Step(s, steps, StoppedCall).value.lastAppliedPoint == s.lastAppliedPoint
  {
  }

  // ---------------------------------------------------------------------
  // The track object

  class KalmanTrack {
    const trackId: int
    const initialPosition: Point
    const steps: KalmanSteps
    var filter: Filter
    var assessCalled: bool
    var pointCount: int
    var lastAppliedPoint: Option<Point>
    var lastPredictedPoint: Option<Point>
    var currentPosition: Option<Point>
    var positionChanged: bool
    var lastDetectedAt: int
    var changeCount: int

    /** The mutable fields as one value. */
    function State(): TrackState
      reads this
    {
      TrackState(filter, assessCalled, pointCount, lastAppliedPoint, lastPredictedPoint,
                 currentPosition, positionChanged, lastDetectedAt, changeCount)
    }

    /** The constructor, with the frame of first detection as an explicit argument. */
    constructor (trackId: int, cfg: Cfg, initialPosition: Point, detectedAt: int, steps: KalmanSteps)
      ensures this.trackId == trackId && this.initialPosition == initialPosition && this.steps == steps
      ensures State() == InitialState(cfg, initialPosition, detectedAt)
    {
      this.trackId := trackId;
      this.initialPosition := initialPosition;
      this.steps := steps;
      filter := InitialFilter(cfg, initialPosition);
      assessCalled := false;
      pointCount := 0;
      lastAppliedPoint := None;
      lastPredictedPoint := None;
      currentPosition := None;
      positionChanged := false;
      lastDetectedAt := detectedAt;
      changeCount := 0;
    }

    /** The predict-once part of `assess`. */
    method PredictOnce()
      modifies this
      ensures State() == Predicted(old(State()), steps)
    {
      if !(assessCalled && lastPredictedPoint.Some?) {
        assessCalled := true;
        filter := steps.predict(filter);
        lastPredictedPoint := Some(PredictedPoint(filter));
      }
    }

    /** `assess`: the distance from the (single) prediction to `point`. */
    method Assess(point: Point, dist: Metric) returns (d: real)
      modifies this
      ensures State() == Predicted(old(State()), steps)
      ensures d == dist(lastPredictedPoint.value, point)
    {
      PredictOnce();
      d := dist(lastPredictedPoint.value, point);
    }

    /** `apply`: the corrected position, which becomes the current position. */
    method Apply(point: Point) returns (p: Point)
      modifies this
      ensures State() == Applied(old(State()), steps, point)
      ensures currentPosition == Some(p)
    {
      lastAppliedPoint := Some(point);
      pointCount := pointCount + 1;
      if !assessCalled {
        PredictOnce();
      }
      assessCalled := false;
      filter := steps.correct(filter, point);
      var newPos := CorrectedPoint(filter);
      positionChanged := currentPosition != Some(newPos);
      if positionChanged {
        changeCount := changeCount + 1;
      }
      currentPosition := Some(newPos);
      p := newPos;
    }

    /** `stopped`: applies the last applied point again. */
    method Stopped() returns (p: Point)
      requires lastAppliedPoint.Some?
      modifies this
      ensures State() == Applied(old(State()), steps, old(lastAppliedPoint).value)
      ensures currentPosition == Some(p)
    {
      p := Apply(lastAppliedPoint.value);
    }

    /** `continueAsPredicted`: applies the last predicted point. */
    method ContinueAsPredicted() returns (p: Point)
      requires lastPredictedPoint.Some?
      modifies this
      ensures State() == Applied(old(State()), steps, old(lastPredictedPoint).value)
      ensures currentPosition == Some(p)
    {
      p := Apply(lastPredictedPoint.value);
    }

    /** `setLastDetectedAt`. */
    method SetLastDetectedAt(frame: int)
      modifies this
      ensures State() == old(State()).(lastDetectedAt := frame)
    {
      lastDetectedAt := frame;
    }

    /** `getDisplacement`: distance from the initial to the current position. */
    function Displacement(dist: Metric): real
      reads this
      requires currentPosition.Some?
    {
      dist(initialPosition, currentPosition.value)
    }
  }

  /** A track that has not moved since construction has no displacement. */
  lemma DisplacementAtStart(t: KalmanTrack, dist: Metric)
    requires IsDistance(dist) && t.currentPosition == Some(t.initialPosition)
    ensures t.Displacement(dist) == 0.0
  {
  }
}
