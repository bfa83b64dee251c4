/** The per-frame multi-object tracker: it measures every detection against
    every track's prediction, assigns detections to tracks, updates the
    existing tracks (applying the assigned detection, or stopping the track
    and possibly dropping it near the region border), and starts a new track
    for every detection left over. The track-id counter, which the source
    keeps in a static field, is passed in and returned. */
module Tracker {
  import opened Wrappers
  import opened Geometry
  import opened Region
  import Params
  import opened Kalman
  import opened EllipseTrack
  import opened Association
  import opened Assignment

  /** MotionDetector.DetectedObject as the tracker reads it: the centroid
      (which is also `currentPos()`) and the fitted ellipse, which may be
      null and which a track started from the detection shares. */
  datatype DetectedObject = DetectedObject(centroid: Point, ellipse: RotatedRect?)

  /** No Kalman track object appears twice. */
  ghost predicate DistinctTracks(ts: seq<TrackWithEllipse>) {
    forall i, j :: 0 <= i < j < |ts| ==> ts[i].track != ts[j].track
  }

  ghost function TrackObjects(ts: seq<TrackWithEllipse>): set<KalmanTrack> {
    set i | 0 <= i < |ts| :: ts[i].track
  }

  ghost function EllipseObjects(ts: seq<TrackWithEllipse>): set<RotatedRect?> {
    set i | 0 <= i < |ts| :: ts[i].ellipse
  }

  ghost function DetectionEllipses(ds: seq<DetectedObject>): set<RotatedRect?> {
    set i | 0 <= i < |ds| :: ds[i].ellipse
  }

  /** No two tracks share an ellipse object. */
  ghost predicate DistinctEllipses(ts: seq<TrackWithEllipse>) {
    forall i, j :: 0 <= i < j < |ts| && ts[i].ellipse != null ==> ts[i].ellipse != ts[j].ellipse
  }

  /** The detections' ellipses are new objects: no two detections share
      one, and no track holds one. */
  ghost predicate SeparateEllipses(detected: seq<DetectedObject>, ts: seq<TrackWithEllipse>) {
    && (forall i, j :: 0 <= i < j < |detected| && detected[i].ellipse != null ==>
          detected[i].ellipse != detected[j].ellipse)
    && (forall i, k :: 0 <= i < |detected| && 0 <= k < |ts| && detected[i].ellipse != null ==>
          detected[i].ellipse != ts[k].ellipse)
  }

  /** Every track's ellipse, when it has one, is centred on the track's
      current position. */
  ghost predicate Centred(ts: seq<TrackWithEllipse>)
    reads TrackObjects(ts), EllipseObjects(ts)
  {
    forall k :: 0 <= k < |ts| && ts[k].ellipse != null ==> ts[k].track.currentPosition == Some(ts[k].ellipse.center)
  }

  /** The current states of the tracks, in order. */
  ghost function StatesOf(ts: seq<TrackWithEllipse>): (r: seq<TrackState>)
    reads TrackObjects(ts)
    ensures |r| == |ts| && forall k :: 0 <= k < |ts| ==> r[k] == ts[k].track.State()
  {
    seq(|ts|, k requires 0 <= k < |ts| reads TrackObjects(ts) => ts[k].track.State())
  }

  /** The state of a track the tracker holds: it has been applied at least
      once, so it has a last applied and a last predicted point. */
  predicate Live(s: TrackState) {
    Valid(s) && s.lastAppliedPoint.Some? && s.lastPredictedPoint.Some?
  }

  /** The tracks whose flag is set, in their original order. */
  function Select(ts: seq<TrackWithEllipse>, keep: seq<bool>): (r: seq<TrackWithEllipse>)
    requires |keep| == |ts|
    ensures |r| <= |ts|
  {
    if |ts| == 0 then []
    else Select(ts[..|ts| - 1], keep[..|ts| - 1]) + (if keep[|ts| - 1] then [ts[|ts| - 1]] else [])
  }

  /** Selecting one more track appends it when its flag is set. */
  lemma SelectSnoc(ts: seq<TrackWithEllipse>, keep: seq<bool>, i: int, add: bool)
    requires 0 <= i < |ts| && |keep| == i
    ensures Select(ts[..i + 1], keep + [add]) == Select(ts[..i], keep) + (if add then [ts[i]] else [])
  {
    assert ts[..i + 1][..i] == ts[..i];
    assert (keep + [add])[..i] == keep;
  }

  /** Selection keeps exactly the flagged tracks, each one at most once,
      and no two of them share an ellipse. */
  lemma {:induction false} SelectDistinct(ts: seq<TrackWithEllipse>, keep: seq<bool>)
    requires |keep| == |ts| && DistinctTracks(ts) && DistinctEllipses(ts)
    ensures DistinctTracks(Select(ts, keep)) && DistinctEllipses(Select(ts, keep))
    ensures forall x :: x in Select(ts, keep) ==> x in ts
    ensures forall i :: 0 <= i < |ts| && keep[i] ==> ts[i] in Select(ts, keep)
  {
    if |ts| > 0 {
      var n := |ts| - 1;
      SelectDistinct(ts[..n], keep[..n]);
      forall x | x in Select(ts[..n], keep[..n])
        ensures x in ts[..n] && x.track != ts[n].track
        ensures x.ellipse != null ==> x.ellipse != ts[n].ellipse
      {
      }
      forall i | 0 <= i < n && keep[i]
        ensures ts[i] in Select(ts, keep)
      {
        assert keep[..n][i] && ts[..n][i] == ts[i];
      }
    }
  }

  /** The selected tracks hold none of the detections' ellipses when the
      whole list holds none. */
  lemma SelectSeparate(detected: seq<DetectedObject>, ts: seq<TrackWithEllipse>, keep: seq<bool>)
    requires |keep| == |ts| && DistinctTracks(ts) && DistinctEllipses(ts) && SeparateEllipses(detected, ts)
    ensures SeparateEllipses(detected, Select(ts, keep))
  {
    SelectDistinct(ts, keep);
    var r := Select(ts, keep);
    forall i, k | 0 <= i < |detected| && 0 <= k < |r| && detected[i].ellipse != null
      ensures detected[i].ellipse != r[k].ellipse
    {
      assert r[k] in ts;
    }
  }

  /** Selection from a list fit to be held is fit to be held, and holds
      none of the detections' ellipses when the whole list holds none. */
  lemma SelectHeld(detected: seq<DetectedObject>, ts: seq<TrackWithEllipse>, keep: seq<bool>)
    requires |keep| == |ts| && HeldList(ts) && SeparateEllipses(detected, ts)
    ensures HeldList(Select(ts, keep)) && SeparateEllipses(detected, Select(ts, keep))
  {
    SelectDistinct(ts, keep);
    SelectSeparate(detected, ts, keep);
    var r := Select(ts, keep);
    forall k | 0 <= k < |r|
      ensures Live(r[k].track.State())
      ensures r[k].ellipse != null ==> r[k].track.currentPosition == Some(r[k].ellipse.center)
    {
      assert r[k] in ts;
    }
  }

  // ---------------------------------------------------------------------
  // The matrices

  /** `buildDistanceMatrix(tracks, detections, 0, false)`: entry [di][ti] is
      the distance from track ti's prediction to detection di. Each track
      is assessed, so it predicts once when there is a detection. */
  method BuildDistanceMatrix(tracks: seq<TrackWithEllipse>, detected: seq<DetectedObject>, dist: Metric)
    returns (D: array2<real>)
    requires DistinctTracks(tracks)
    modifies TrackObjects(tracks)
    ensures fresh(D) && D.Length0 == |detected| && D.Length1 == |tracks|
    ensures forall ti :: 0 <= ti < |tracks| ==>
      tracks[ti].track.State() ==
        if |detected| > 0 then Predicted(old(tracks[ti].track.State()), tracks[ti].track.steps)
        else old(tracks[ti].track.State())
    ensures forall di, ti :: 0 <= di < |detected| && 0 <= ti < |tracks| ==>
      tracks[ti].track.lastPredictedPoint.Some? &&
      D[di, ti] == dist(tracks[ti].track.lastPredictedPoint.value, detected[di].centroid)
  {
    D := new real[|detected|, |tracks|];
    ghost var S0 := StatesOf(tracks);
    for di := 0 to |detected|
      invariant forall t :: 0 <= t < |tracks| ==>
        tracks[t].track.State() == if di > 0 then Predicted(S0[t], tracks[t].track.steps) else S0[t]
      invariant forall a, b :: 0 <= a < di && 0 <= b < |tracks| ==>
        tracks[b].track.lastPredictedPoint.Some? &&
        D[a, b] == dist(tracks[b].track.lastPredictedPoint.value, detected[a].centroid)
    {
      FillDistanceRow(D, tracks, detected, dist, S0, di);
    }
  }

  /** One row of the distance matrix: every track assesses detection `di`. */
  method FillDistanceRow(D: array2<real>, tracks: seq<TrackWithEllipse>, detected: seq<DetectedObject>, dist: Metric,
                         ghost S0: seq<TrackState>, di: int)
    requires DistinctTracks(tracks) && |S0| == |tracks|
    requires 0 <= di < |detected| == D.Length0 && D.Length1 == |tracks|
    requires forall t :: 0 <= t < |tracks| ==>
      tracks[t].track.State() == if di > 0 then Predicted(S0[t], tracks[t].track.steps) else S0[t]
    requires forall a, b :: 0 <= a < di && 0 <= b < |tracks| ==>
      tracks[b].track.lastPredictedPoint.Some? &&
      D[a, b] == dist(tracks[b].track.lastPredictedPoint.value, detected[a].centroid)
    modifies D, TrackObjects(tracks)
    ensures forall t :: 0 <= t < |tracks| ==> tracks[t].track.State() == Predicted(S0[t], tracks[t].track.steps)
    ensures forall a, b :: 0 <= a <= di && 0 <= b < |tracks| ==>
      tracks[b].track.lastPredictedPoint.Some? &&
      D[a, b] == dist(tracks[b].track.lastPredictedPoint.value, detected[a].centroid)
  {
    for ti := 0 to |tracks|
      invariant forall t :: 0 <= t < |tracks| ==>
        tracks[t].track.State() ==
          if di > 0 || t < ti then Predicted(S0[t], tracks[t].track.steps) else S0[t]
      invariant forall a, b :: ((0 <= a < di && 0 <= b < |tracks|) || (a == di && 0 <= b < ti)) ==>
        tracks[b].track.lastPredictedPoint.Some? &&
        D[a, b] == dist(tracks[b].track.lastPredictedPoint.value, detected[a].centroid)
    {
      D[di, ti] := tracks[ti].track.Assess(detected[di].centroid, dist);
    }
  }

  /** `buildTimesVector`: each track's age since its last detection, weighted. */
  method BuildTimesVector(tracks: seq<TrackWithEllipse>, ageWeighting: real, frameNumber: int)
    returns (ages: array<real>)
    ensures fresh(ages) && ages.Length == |tracks|
    ensures forall ti :: 0 <= ti < |tracks| ==>
      ages[ti] == ageWeighting * (frameNumber - tracks[ti].track.lastDetectedAt) as real
  {
    ages := new real[|tracks|];
    for ti := 0 to |tracks|
      invariant forall t :: 0 <= t < ti ==>
        ages[t] == ageWeighting * (frameNumber - tracks[t].track.lastDetectedAt) as real
    {
      ages[ti] := ageWeighting * (frameNumber - tracks[ti].track.lastDetectedAt) as real;
    }
  }

  /** The distances between every pair of detections. */
  ghost function DetectionDistances(detected: seq<DetectedObject>, dist: Metric): (OD: Matrix)
    ensures IsMatrix(OD, |detected|, |detected|)
    ensures forall i, j :: 0 <= i < |detected| && 0 <= j < |detected| ==>
      OD[i][j] == dist(detected[i].centroid, detected[j].centroid)
  {
    seq(|detected|, i requires 0 <= i < |detected| =>
      seq(|detected|, j requires 0 <= j < |detected| => dist(detected[i].centroid, detected[j].centroid)))
  }

  /** The detection-distance loop of `trackMulti`: rows 0 .. n-2 against
      columns 1 .. n-1, each distance stored in both halves, the rest left
      at 0. With a symmetric distance that is 0 from a point to itself,
      this is the full distance matrix. */
  method BuildObjectDistances(detected: seq<DetectedObject>, dist: Metric) returns (OD: array2<real>)
    requires IsDistance(dist)
    ensures fresh(OD) && OD.Length0 == OD.Length1 == |detected|
    ensures Snap(OD) == DetectionDistances(detected, dist)
  {
    var n := |detected|;
    OD := new real[n, n]((_, _) => 0.0);
    var i := 0;
    while i < n - 1
      invariant 0 <= i <= (if n > 0 then n - 1 else 0)
      invariant forall a, b :: 0 <= a < n && 0 <= b < n ==>
        OD[a, b] == if (a < i && 1 <= b) || (b < i && 1 <= a)
                    then dist(detected[a].centroid, detected[b].centroid) else 0.0
    {
      for j := 1 to n
        invariant forall a, b :: 0 <= a < n && 0 <= b < n ==>
          OD[a, b] == if (a < i && 1 <= b) || (b < i && 1 <= a) || (a == i && 1 <= b < j) || (b == i && 1 <= a < j)
                      then dist(detected[a].centroid, detected[b].centroid) else 0.0
      {
        var d := dist(detected[i].centroid, detected[j].centroid);
        OD[j, i] := d;
        OD[i, j] := d;
      }
      i := i + 1;
    }
    ghost var E := DetectionDistances(detected, dist);
    forall a | 0 <= a < n
      ensures Snap(OD)[a] == E[a]
    {
      forall b | 0 <= b < n
        ensures Snap(OD)[a][b] == E[a][b]
      {
        if a == b {
          assert dist(detected[a].centroid, detected[a].centroid) == 0.0;
        }
      }
    }
  }

  // ---------------------------------------------------------------------
  // Updating the tracks

  /** The region a stopped track is tested against: the transformed mask,
      or else the frame rectangle at the origin. */
  function TerminationRegion(mask: Option<Region>, imageSize: Size): Region {
    if mask.Some? then mask.value else FromRect(true, RectAt(Point(0.0, 0.0), imageSize))
  }

  /** A stopped track whose last prediction is `p` is dropped when the
      termination border is positive and `p` lies less than the border
      inside the region. */
  predicate Terminates(tp: Params.TrackerParams, region: Region, p: Point, test: PolygonTest) {
    tp.terminationBorder > 0.0 && InsideOf(region.points, p, test) < tp.terminationBorder
  }

  /** With the default parameters no track is ever dropped. */
  lemma DefaultNeverTerminates(region: Region, p: Point, test: PolygonTest)
    ensures !Terminates(Params.DefaultTrackerParams, region, p, test)
  {
  }

  /** A track's state after this frame: an assigned track applies its
      detection's position and records the frame; a stopped one re-applies
      its last applied point. */
  function NextState(s: TrackState, steps: KalmanSteps, action: int, detected: seq<DetectedObject>, frame: int): TrackState
    requires action < |detected| && (action < 0 ==> s.lastAppliedPoint.Some?)
  {
    if action >= 0 then Applied(s, steps, detected[action].centroid).(lastDetectedAt := frame)
    else Applied(s, steps, s.lastAppliedPoint.value)
  }

  /** A held track stays held through assessment and its update. */
  lemma NextStateLive(s: TrackState, steps: KalmanSteps, action: int, detected: seq<DetectedObject>, frame: int, assessed: bool)
    requires Live(s) && -1 <= action < |detected|
    ensures var p := if assessed then Predicted(s, steps) else s;
      Live(p) && Live(NextState(p, steps, action, detected, frame))
  {
    var p := if assessed then Predicted(s, steps) else s;
    assert Live(p);
    if action >= 0 {
      AppliedBookkeeping(p, steps, detected[action].centroid);
    } else {
      AppliedBookkeeping(p, steps, p.lastAppliedPoint.value);
    }
  }

  /** Whether a track with this action and state stays in the list. */
  predicate Kept(s: TrackState, action: int, tp: Params.TrackerParams, region: Region, test: PolygonTest)
    requires s.lastPredictedPoint.Some?
  {
    action >= 0 || !Terminates(tp, region, s.lastPredictedPoint.value, test)
  }

  /** The keep flags of a list of tracks. */
  ghost function Flags(states: seq<TrackState>, actions: seq<int>, tp: Params.TrackerParams, region: Region,
                       test: PolygonTest): (r: seq<bool>)
    requires |actions| == |states| && forall k :: 0 <= k < |states| ==> states[k].lastPredictedPoint.Some?
    ensures |r| == |states|
  {
    seq(|states|, k requires 0 <= k < |states| => Kept(states[k], actions[k], tp, region, test))
  }

  lemma FlagsSnoc(states: seq<TrackState>, actions: seq<int>, tp: Params.TrackerParams, region: Region,
                  test: PolygonTest, i: int)
    requires |actions| == |states| && forall k :: 0 <= k < |states| ==> states[k].lastPredictedPoint.Some?
    requires 0 <= i < |states|
    ensures Flags(states[..i + 1], actions[..i + 1], tp, region, test) ==
      Flags(states[..i], actions[..i], tp, region, test) + [Kept(states[i], actions[i], tp, region, test)]
  {
  }

  /** One iteration of the existing-track loop of `trackMulti`. */
  method UpdateTrack(track: TrackWithEllipse, action: int, detected: seq<DetectedObject>,
                     tp: Params.TrackerParams, transformedMask: Option<Region>, imageSize: Size,
                     test: PolygonTest, frameNumber: int)
    returns (add: bool)
    requires -1 <= action < |detected| && Live(track.track.State())
    modifies track.track, track.ellipse
    ensures add == Kept(old(track.track.State()), action, tp, TerminationRegion(transformedMask, imageSize), test)
    ensures track.track.State() == NextState(old(track.track.State()), track.track.steps, action, detected, frameNumber)
    ensures track.ellipse != null ==> track.track.currentPosition == Some(track.ellipse.center)
  {
    add := true;
    if action == TrStopped {
      var mask := TerminationRegion(transformedMask, imageSize);
      if tp.terminationBorder > 0.0 {
        var inside := PointInside(mask, track.track.lastPredictedPoint.value, test);
        if inside < tp.terminationBorder {
          add := false;
        }
      }
      var _ := track.Stopped();
    } else {
      var _ := track.Apply(detected[action].centroid);
      track.track.SetLastDetectedAt(frameNumber);
    }
  }

  /** The existing-track loop of `trackMulti`; `S0` is the tracks' states
      on entry. */
  method UpdateTracks(tracks: seq<TrackWithEllipse>, actions: seq<int>, detected: seq<DetectedObject>,
                      tp: Params.TrackerParams, transformedMask: Option<Region>, imageSize: Size,
                      test: PolygonTest, frameNumber: int, ghost S0: seq<TrackState>)
    returns (kept: seq<TrackWithEllipse>, ghost keep: seq<bool>)
    requires |actions| == |tracks| && DistinctTracks(tracks) && DistinctEllipses(tracks)
    requires forall i :: 0 <= i < |tracks| ==> -1 <= actions[i] < |detected|
    requires S0 == StatesOf(tracks)
    requires forall i :: 0 <= i < |S0| ==>
      Valid(S0[i]) && S0[i].lastAppliedPoint.Some? && S0[i].lastPredictedPoint.Some?
    modifies TrackObjects(tracks), EllipseObjects(tracks)
    ensures |keep| == |tracks| && kept == Select(tracks, keep)
    ensures keep == Flags(S0, actions, tp, TerminationRegion(transformedMask, imageSize), test)
    ensures forall i :: 0 <= i < |tracks| ==>
      tracks[i].track.State() == NextState(S0[i], tracks[i].track.steps, actions[i], detected, frameNumber)
    ensures Centred(tracks)
  {
    kept, keep := [], [];
    for i := 0 to |tracks|
      invariant |keep| == i && kept == Select(tracks[..i], keep)
      invariant keep == Flags(S0[..i], actions[..i], tp, TerminationRegion(transformedMask, imageSize), test)
      invariant UpdatedUpTo(tracks, actions, detected, frameNumber, S0, i)
      invariant forall k :: 0 <= k < i && tracks[k].ellipse != null ==>
        tracks[k].track.currentPosition == Some(tracks[k].ellipse.center)
    {
      kept, keep := UpdateTracksStep(tracks, actions, detected, tp, transformedMask, imageSize, test, frameNumber, S0, i, kept, keep);
    }
    assert tracks[..|tracks|] == tracks && S0[..|tracks|] == S0 && actions[..|tracks|] == actions;
  }

  /** The tracks before `i` have taken their next state, the others still
      hold their state on entry. */
  ghost predicate UpdatedUpTo(tracks: seq<TrackWithEllipse>, actions: seq<int>, detected: seq<DetectedObject>,
                              frameNumber: int, S0: seq<TrackState>, i: int)
    reads TrackObjects(tracks)
  {
    && |actions| == |tracks| == |S0|
    && (forall k :: 0 <= k < |tracks| ==> actions[k] < |detected| && (actions[k] < 0 ==> S0[k].lastAppliedPoint.Some?))
    && forall k :: 0 <= k < |tracks| ==>
         tracks[k].track.State() ==
           if k < i then NextState(S0[k], tracks[k].track.steps, actions[k], detected, frameNumber) else S0[k]
  }

  /** One pass of the existing-track loop. */
  method UpdateTracksStep(tracks: seq<TrackWithEllipse>, actions: seq<int>, detected: seq<DetectedObject>,
                          tp: Params.TrackerParams, transformedMask: Option<Region>, imageSize: Size,
                          test: PolygonTest, frameNumber: int, ghost S0: seq<TrackState>, i: int,
                          kept: seq<TrackWithEllipse>, ghost keep: seq<bool>)
    returns (kept': seq<TrackWithEllipse>, ghost keep': seq<bool>)
    requires 0 <= i < |tracks| == |actions| == |S0| && DistinctTracks(tracks) && DistinctEllipses(tracks)
    requires forall k :: 0 <= k < |tracks| ==> -1 <= actions[k] < |detected|
    requires forall k :: 0 <= k < |S0| ==>
      Valid(S0[k]) && S0[k].lastAppliedPoint.Some? && S0[k].lastPredictedPoint.Some?
    requires |keep| == i && kept == Select(tracks[..i], keep)
    requires keep == Flags(S0[..i], actions[..i], tp, TerminationRegion(transformedMask, imageSize), test)
    requires UpdatedUpTo(tracks, actions, detected, frameNumber, S0, i)
    requires forall k :: 0 <= k < i && tracks[k].ellipse != null ==>
      tracks[k].track.currentPosition == Some(tracks[k].ellipse.center)
    modifies tracks[i].track, tracks[i].ellipse
    ensures |keep'| == i + 1 && kept' == Select(tracks[..i + 1], keep')
    ensures keep' == Flags(S0[..i + 1], actions[..i + 1], tp, TerminationRegion(transformedMask, imageSize), test)
    ensures UpdatedUpTo(tracks, actions, detected, frameNumber, S0, i + 1)
    ensures forall k :: 0 <= k <= i && tracks[k].ellipse != null ==>
      tracks[k].track.currentPosition == Some(tracks[k].ellipse.center)
  {
    var add := UpdateTrack(tracks[i], actions[i], detected, tp, transformedMask, imageSize, test, frameNumber);
    SelectSnoc(tracks, keep, i, add);
    FlagsSnoc(S0, actions, tp, TerminationRegion(transformedMask, imageSize), test, i);
    keep' := keep + [add];
    kept' := kept + if add then [tracks[i]] else [];
  }

  /** The new tracks of a frame: the k-th is numbered `nextId + k`, uses
      the Kalman steps `steps`, shares the ellipse of detection
      `newObjects[k]` and has been applied once at that detection's
      centroid. */
  ghost predicate Started(created: seq<TrackWithEllipse>, newObjects: seq<int>, detected: seq<DetectedObject>,
                          cfg: Cfg, steps: KalmanSteps, frameNumber: int, nextId: int)
    reads TrackObjects(created)
  {
    && |created| <= |newObjects|
    && forall k :: 0 <= k < |created| ==>
      && 0 <= newObjects[k] < |detected|
      && created[k].track.trackId == nextId + k
      && created[k].ellipse == detected[newObjects[k]].ellipse
      && created[k].track.steps == steps
      && created[k].track.State() ==
           Applied(InitialState(cfg, detected[newObjects[k]].centroid, frameNumber), steps, detected[newObjects[k]].centroid)
  }

  /** The new-track loop of `trackMulti`: one track per listed detection,
      numbered from `nextId`, sharing the detection's ellipse and applied
      once at its centroid, which re-centres that ellipse. */
  method CreateTracks(newObjects: seq<int>, detected: seq<DetectedObject>, cfg: Cfg, steps: KalmanSteps,
                      frameNumber: int, nextId: int)
    returns (created: seq<TrackWithEllipse>, nextId': int)
    requires forall k :: 0 <= k < |newObjects| ==> 0 <= newObjects[k] < |detected|
    requires forall k, l :: 0 <= k < l < |newObjects| ==> newObjects[k] != newObjects[l]
    requires SeparateEllipses(detected, [])
    modifies DetectionEllipses(detected)
    ensures nextId' == nextId + |newObjects| && |created| == |newObjects|
    ensures forall k :: 0 <= k < |created| ==> fresh(created[k].track)
    ensures Started(created, newObjects, detected, cfg, steps, frameNumber, nextId)
    ensures DistinctTracks(created) && DistinctEllipses(created) && Centred(created)
    ensures forall k :: 0 <= k < |created| ==> Live(created[k].track.State())
  {
    created := [];
    nextId' := nextId;
    for k := 0 to |newObjects|
      invariant nextId' == nextId + k && |created| == k
      invariant forall l :: 0 <= l < k ==> fresh(created[l].track)
      invariant forall l :: 0 <= l < k ==> Live(created[l].track.State())
      invariant DistinctTracks(created) && Centred(created)
      invariant Started(created, newObjects, detected, cfg, steps, frameNumber, nextId)
    {
      var obj := detected[newObjects[k]];
      NewEllipses(created, newObjects, detected);
      var track := StartTrack(obj, nextId', cfg, steps, frameNumber);
      nextId' := nextId' + 1;
      created := created + [track];
    }
    NewEllipses(created, newObjects, detected);
  }

  /** Tracks started from distinct detections hold distinct ellipses, none
      of them the ellipse of a detection still to be started. */
  lemma NewEllipses(created: seq<TrackWithEllipse>, newObjects: seq<int>, detected: seq<DetectedObject>)
    requires |created| <= |newObjects| && SeparateEllipses(detected, [])
    requires forall k :: 0 <= k < |newObjects| ==> 0 <= newObjects[k] < |detected|
    requires forall k, l :: 0 <= k < l < |newObjects| ==> newObjects[k] != newObjects[l]
    requires forall k :: 0 <= k < |created| ==> created[k].ellipse == detected[newObjects[k]].ellipse
    ensures DistinctEllipses(created)
    ensures forall l, k :: 0 <= l < |created| <= k < |newObjects| && created[l].ellipse != null ==>
      created[l].ellipse != detected[newObjects[k]].ellipse
  {
    forall l, k | 0 <= l < k < |newObjects| && detected[newObjects[l]].ellipse != null
      ensures detected[newObjects[l]].ellipse != detected[newObjects[k]].ellipse
    {
      var a, b := newObjects[l], newObjects[k];
      if a < b {
        assert detected[a].ellipse != detected[b].ellipse;
      } else {
        assert detected[b].ellipse != detected[a].ellipse;
      }
    }
  }

  /** One new track: the detection's centroid and ellipse, applied once at
      the centroid, so it is held and its ellipse is centred on it. */
  method StartTrack(obj: DetectedObject, trackId: int, cfg: Cfg, steps: KalmanSteps, frameNumber: int)
    returns (t: TrackWithEllipse)
    modifies obj.ellipse
    ensures fresh(t.track) && t.ellipse == obj.ellipse
    ensures t.track.trackId == trackId && t.track.steps == steps
    ensures t.track.State() == Applied(InitialState(cfg, obj.centroid, frameNumber), steps, obj.centroid)
    ensures Live(t.track.State())
    ensures t.ellipse != null ==> t.track.currentPosition == Some(t.ellipse.center)
  {
    t := new TrackWithEllipse(trackId, cfg, obj.centroid, obj.ellipse, frameNumber, steps);
    var _ := t.Apply(obj.centroid);
    CreatedLive(cfg, obj.centroid, frameNumber, steps);
  }

  // ---------------------------------------------------------------------
  // One frame

  /** The tracks' states after assessment: predicted once when there was a
      detection to measure against, untouched otherwise. */
  function AfterAssess(S: seq<TrackState>, tracks: seq<TrackWithEllipse>, assessed: bool): (P: seq<TrackState>)
    requires |S| == |tracks|
    ensures |P| == |S|
  {
    seq(|S|, i requires 0 <= i < |S| => if assessed then Predicted(S[i], tracks[i].track.steps) else S[i])
  }

  /** The weighted age of every track, from its state. */
  function Ages(S: seq<TrackState>, ageWeighting: real, frameNumber: int): (A: seq<real>)
    ensures |A| == |S|
  {
    seq(|S|, i requires 0 <= i < |S| => ageWeighting * (frameNumber - S[i].lastDetectedAt) as real)
  }

  /** The state of every track that has just been created and applied once is held. */
  lemma CreatedLive(cfg: Cfg, c: Point, frameNumber: int, steps: KalmanSteps)
    ensures Live(Applied(InitialState(cfg, c, frameNumber), steps, c))
  {
    AppliedBookkeeping(InitialState(cfg, c, frameNumber), steps, c);
  }

  /** The assignment of one frame. `S0` holds the tracks' states before it
      and `M0` the distances from their predictions to the detections. With
      no detection every track is stopped and no track is started;
      otherwise the track and detection actions are those `Assign` computes
      on `M0` (so tracks and detections are linked and marked as it
      decides), and `newObjects` lists, in ascending order, exactly the
      detections marked for a new track. */
  ghost predicate Assigned(detected: seq<DetectedObject>, tracks: seq<TrackWithEllipse>, tp: Params.TrackerParams,
                           frameNumber: int, dist: Metric, S0: seq<TrackState>, M0: Matrix,
                           trackActions: seq<int>, objectActions: seq<int>, newObjects: seq<int>)
  {
    && |S0| == |trackActions| == |tracks|
    && (forall i :: 0 <= i < |tracks| ==> -1 <= trackActions[i] < |detected|)
    && (forall k :: 0 <= k < |newObjects| ==> 0 <= newObjects[k] < |detected|)
    && (forall i, j :: 0 <= i < j < |newObjects| ==> newObjects[i] < newObjects[j])
    && (|detected| == 0 ==> (forall i :: 0 <= i < |tracks| ==> trackActions[i] == TrStopped) && newObjects == [])
    && (|detected| > 0 ==>
      && IsMatrix(M0, |detected|, |tracks|)
      && (forall o, t :: 0 <= o < |detected| && 0 <= t < |tracks| ==>
            M0[o][t] == dist(Predicted(S0[t], tracks[t].track.steps).lastPredictedPoint.value, detected[o].centroid))
      && |objectActions| == |detected|
      && Links(trackActions, objectActions, M0, tp.maxJump)
      && Marks(trackActions, objectActions, M0, Ages(S0, tp.ageWeighting, frameNumber),
               DetectionDistances(detected, dist), tp.maxJump, tp.minGap)
      && (var r := Assign(M0, Ages(S0, tp.ageWeighting, frameNumber), DetectionDistances(detected, dist),
                          tp.maxJump, tp.minGap);
          trackActions == r.att && objectActions == r.aot)
      && (forall o :: 0 <= o < |detected| ==> (o in newObjects <==> objectActions[o] == ObjNewTrack)))
  }

  /** The first half of `trackMulti`: measure every detection against
      every track's prediction, then assign (or, with no detection, stop
      every track). */
  method MeasureAndAssign(detected: seq<DetectedObject>, tracks: seq<TrackWithEllipse>, tp: Params.TrackerParams,
                          frameNumber: int, dist: Metric)
    returns (actions: seq<int>, newObjs: seq<int>, ghost S0: seq<TrackState>, ghost M0: Matrix,
             ghost objectActions: seq<int>)
    requires IsDistance(dist) && tp.maxJump <= MaxValue && DistinctTracks(tracks)
    modifies TrackObjects(tracks)
    ensures S0 == old(StatesOf(tracks)) && StatesOf(tracks) == AfterAssess(S0, tracks, |detected| > 0)
    ensures Assigned(detected, tracks, tp, frameNumber, dist, S0, M0, actions, objectActions, newObjs)
  {
    var distances, trackAges, objDistances;
    distances, trackAges, objDistances, S0 := Measure(detected, tracks, tp.ageWeighting, frameNumber, dist);
    M0 := Snap(distances);
    if |detected| > 0 {
      var ta, no, oa := AssignTracksAndObjects(distances, objDistances, trackAges, tp.maxJump, tp.minGap);
      actions, newObjs, objectActions := ta[..], no[..], oa;
    } else {
      actions := seq(|tracks|, _ => TrStopped);
      newObjs := [];
      objectActions := [];
    }
  }

  /** The measuring part of `trackMulti`: the track-to-detection distance
      matrix (each track predicting once when there is a detection), the
      weighted ages and the detection-to-detection distances. */
  method Measure(detected: seq<DetectedObject>, tracks: seq<TrackWithEllipse>, ageWeighting: real,
                 frameNumber: int, dist: Metric)
    returns (distances: array2<real>, trackAges: array<real>, objDistances: array2<real>, ghost S0: seq<TrackState>)
    requires IsDistance(dist) && DistinctTracks(tracks)
    modifies TrackObjects(tracks)
    ensures fresh(distances) && fresh(trackAges) && fresh(objDistances) && distances != objDistances
    ensures S0 == old(StatesOf(tracks)) && StatesOf(tracks) == AfterAssess(S0, tracks, |detected| > 0)
    ensures distances.Length0 == |detected| && distances.Length1 == |tracks|
    ensures objDistances.Length0 == objDistances.Length1 == |detected| && trackAges.Length == |tracks|
    ensures forall o, t :: 0 <= o < |detected| && 0 <= t < |tracks| ==>
      Snap(distances)[o][t] == dist(Predicted(S0[t], tracks[t].track.steps).lastPredictedPoint.value, detected[o].centroid)
    ensures trackAges[..] == Ages(S0, ageWeighting, frameNumber)
    ensures Snap(objDistances) == DetectionDistances(detected, dist)
  {
    S0 := StatesOf(tracks);
    distances := BuildDistanceMatrix(tracks, detected, dist);
    trackAges := BuildTimesVector(tracks, ageWeighting, frameNumber);
    forall ti | 0 <= ti < |tracks|
      ensures trackAges[ti] == Ages(S0, ageWeighting, frameNumber)[ti]
    {
      assert tracks[ti].track.lastDetectedAt == tracks[ti].track.State().lastDetectedAt == S0[ti].lastDetectedAt;
    }
    assert trackAges[..] == Ages(S0, ageWeighting, frameNumber);
    objDistances := BuildObjectDistances(detected, dist);
    assert StatesOf(tracks) == AfterAssess(S0, tracks, |detected| > 0);
  }

  /** The update of the existing tracks: from the states `P` each track
      takes the next state its action gives, and its keep flag says whether
      it stays in the list. */
  ghost predicate Updated(tracks: seq<TrackWithEllipse>, P: seq<TrackState>, actions: seq<int>,
                          detected: seq<DetectedObject>, tp: Params.TrackerParams, region: Region,
                          test: PolygonTest, frameNumber: int, keep: seq<bool>)
    reads TrackObjects(tracks)
  {
    && |keep| == |P| == |actions| == |tracks|
    && forall i :: 0 <= i < |tracks| ==>
      && actions[i] < |detected| && (actions[i] < 0 ==> P[i].lastAppliedPoint.Some?) && P[i].lastPredictedPoint.Some?
      && keep[i] == Kept(P[i], actions[i], tp, region, test)
      && tracks[i].track.State() == NextState(P[i], tracks[i].track.steps, actions[i], detected, frameNumber)
  }

  /** The second half of `trackMulti`: update the existing tracks, keep
      those not dropped, and (when allowed) start a track per listed
      detection. `P` is the tracks' states after assessment. Every track
      touched, dropped or not, ends with its ellipse on its position. */
  method UpdateAndCreate(tracks: seq<TrackWithEllipse>, actions: seq<int>, newObjs: seq<int>,
                         detected: seq<DetectedObject>, tp: Params.TrackerParams, transformedMask: Option<Region>,
                         allowNewTracks: bool, imageSize: Size, frameNumber: int, cfg: Cfg, steps: KalmanSteps,
                         test: PolygonTest, nextId: int, ghost P: seq<TrackState>)
    returns (result: seq<TrackWithEllipse>, nextId': int, ghost keep: seq<bool>, ghost created: seq<TrackWithEllipse>)
    requires |actions| == |tracks| && DistinctTracks(tracks) && DistinctEllipses(tracks)
    requires SeparateEllipses(detected, tracks)
    requires forall i :: 0 <= i < |tracks| ==> -1 <= actions[i] < |detected|
    requires forall k :: 0 <= k < |newObjs| ==> 0 <= newObjs[k] < |detected|
    requires forall k, l :: 0 <= k < l < |newObjs| ==> newObjs[k] != newObjs[l]
    requires P == StatesOf(tracks)
    requires forall i :: 0 <= i < |P| ==>
      Valid(P[i]) && P[i].lastAppliedPoint.Some? && P[i].lastPredictedPoint.Some?
    modifies TrackObjects(tracks), EllipseObjects(tracks), DetectionEllipses(detected)
    ensures Updated(tracks, P, actions, detected, tp, TerminationRegion(transformedMask, imageSize), test, frameNumber, keep)
    ensures allowNewTracks ==> nextId' == nextId + |newObjs| && |created| == |newObjs|
    ensures !allowNewTracks ==> nextId' == nextId && created == []
    ensures result == Select(tracks, keep) + created
    ensures forall k :: 0 <= k < |created| ==> fresh(created[k].track)
    ensures Started(created, newObjs, detected, cfg, steps, frameNumber, nextId)
    ensures Centred(tracks) && HeldList(result)
  {
    forall i | 0 <= i < |tracks|
      ensures Live(NextState(P[i], tracks[i].track.steps, actions[i], detected, frameNumber))
    {
      NextStateLive(P[i], tracks[i].track.steps, actions[i], detected, frameNumber, false);
    }
    var kept;
    kept, keep := UpdateTracks(tracks, actions, detected, tp, transformedMask, imageSize, test, frameNumber, P);
    SelectHeld(detected, tracks, keep);
    result, nextId', created := AddNewTracks(kept, allowNewTracks, newObjs, detected, cfg, steps, frameNumber, nextId);
  }

  /** The new tracks, when new tracks are allowed, appended after the kept
      ones. The kept tracks are not touched, ellipses included, so the
      result stays free of duplicates, every track in it is live and every
      ellipse in it is centred on its track. */
  method AddNewTracks(kept: seq<TrackWithEllipse>, allowNewTracks: bool, newObjs: seq<int>,
                      detected: seq<DetectedObject>, cfg: Cfg, steps: KalmanSteps, frameNumber: int, nextId: int)
    returns (result: seq<TrackWithEllipse>, nextId': int, ghost created: seq<TrackWithEllipse>)
    requires forall k :: 0 <= k < |newObjs| ==> 0 <= newObjs[k] < |detected|
    requires forall k, l :: 0 <= k < l < |newObjs| ==> newObjs[k] != newObjs[l]
    requires HeldList(kept) && SeparateEllipses(detected, kept)
    modifies DetectionEllipses(detected)
    ensures allowNewTracks ==> nextId' == nextId + |newObjs| && |created| == |newObjs|
    ensures !allowNewTracks ==> nextId' == nextId && created == []
    ensures result == kept + created
    ensures forall k :: 0 <= k < |created| ==> fresh(created[k].track)
    ensures Started(created, newObjs, detected, cfg, steps, frameNumber, nextId)
    ensures forall k :: 0 <= k < |kept| ==> kept[k].track.State() == old(kept[k].track.State())
    ensures forall k :: 0 <= k < |kept| && kept[k].ellipse != null ==> kept[k].ellipse.center == old(kept[k].ellipse.center)
    ensures HeldList(result)
  {
    result := kept;
    nextId' := nextId;
    created := [];
    if allowNewTracks {
      var made;
      made, nextId' := CreateTracks(newObjs, detected, cfg, steps, frameNumber, nextId);
      created := made;
      result := kept + made;
      forall i, j | 0 <= i < |kept| && 0 <= j < |made| && kept[i].ellipse != null
        ensures kept[i].ellipse != made[j].ellipse
      {
        assert made[j].ellipse == detected[newObjs[j]].ellipse;
      }
    }
  }

  /** `trackMulti`: one frame. `S0` is the states of the tracks on entry,
      `M0` the distance matrix from their predictions to the detections,
      `trackActions` and `objectActions` the assignment, `newObjects` the
      detections that need a new track, `keep` which existing tracks are
      kept and `created` the new tracks. The result is the kept tracks in
      their original order followed by the new ones, and every track the
      frame touched has its ellipse, if any, on its corrected position. */
  method TrackMulti(detected: seq<DetectedObject>, tracks: seq<TrackWithEllipse>, tp: Params.TrackerParams,
                    transformedMask: Option<Region>, allowNewTracks: bool, imageSize: Size, frameNumber: int,
                    cfg: Cfg, steps: KalmanSteps, dist: Metric, test: PolygonTest, nextId: int)
    returns (result: seq<TrackWithEllipse>, nextId': int,
             ghost S0: seq<TrackState>, ghost M0: Matrix,
             ghost trackActions: seq<int>, ghost objectActions: seq<int>, ghost newObjects: seq<int>,
             ghost keep: seq<bool>, ghost created: seq<TrackWithEllipse>)
    requires IsDistance(dist) && tp.maxJump <= MaxValue && DistinctTracks(tracks) && DistinctEllipses(tracks)
    requires SeparateEllipses(detected, tracks)
    requires forall i :: 0 <= i < |tracks| ==>
      var s := tracks[i].track.State(); Valid(s) && s.lastAppliedPoint.Some? && s.lastPredictedPoint.Some?
    modifies TrackObjects(tracks), EllipseObjects(tracks), DetectionEllipses(detected)
    ensures S0 == old(StatesOf(tracks))
    ensures Stepped(detected, tracks, result, tp, TerminationRegion(transformedMask, imageSize), frameNumber,
                    dist, test, S0, M0, trackActions, objectActions, newObjects, keep, created)
    ensures allowNewTracks ==> nextId' == nextId + |newObjects| && |created| == |newObjects|
    ensures !allowNewTracks ==> nextId' == nextId && created == []
    ensures forall k :: 0 <= k < |created| ==> fresh(created[k].track)
    ensures HeldList(result)
    ensures Started(created, newObjects, detected, cfg, steps, frameNumber, nextId) && Centred(tracks)
  {
    var actions, newObjs;
    actions, newObjs, S0, M0, objectActions := MeasureAndAssign(detected, tracks, tp, frameNumber, dist);
    trackActions, newObjects := actions, newObjs;
    ghost var P := AfterAssess(S0, tracks, |detected| > 0);
    forall i | 0 <= i < |tracks|
      ensures Valid(P[i]) && P[i].lastAppliedPoint.Some? && P[i].lastPredictedPoint.Some?
    {
      NextStateLive(S0[i], tracks[i].track.steps, actions[i], detected, frameNumber, |detected| > 0);
    }
    result, nextId', keep, created := UpdateAndCreate(tracks, actions, newObjs, detected, tp, transformedMask,
      allowNewTracks, imageSize, frameNumber, cfg, steps, test, nextId, P);
  }

  // ---------------------------------------------------------------------
  // The filter object

  /** One frame of the tracker, from the held tracks `held` to the new
      list `next`: the assignment on the held tracks' states `S0`, their
      updates from the states after assessment, and the kept tracks in
      order followed by the new ones. */
  ghost predicate Stepped(detected: seq<DetectedObject>, held: seq<TrackWithEllipse>, next: seq<TrackWithEllipse>,
                          tp: Params.TrackerParams, region: Region, frameNumber: int,
                          dist: Metric, test: PolygonTest, S0: seq<TrackState>, M0: Matrix,
                          trackActions: seq<int>, objectActions: seq<int>, newObjects: seq<int>,
                          keep: seq<bool>, created: seq<TrackWithEllipse>)
    reads TrackObjects(held)
  {
    && Assigned(detected, held, tp, frameNumber, dist, S0, M0, trackActions, objectActions, newObjects)
    && Updated(held, AfterAssess(S0, held, |detected| > 0), trackActions, detected, tp, region, test, frameNumber, keep)
    && next == Select(held, keep) + created
  }

  /** Tracks fit to be held from one frame to the next: distinct objects,
      each applied at least once, no two sharing an ellipse, and each
      ellipse centred on its track's current position. */
  ghost predicate HeldList(ts: seq<TrackWithEllipse>)
    reads TrackObjects(ts), EllipseObjects(ts)
  {
    && DistinctTracks(ts)
    && (forall k :: 0 <= k < |ts| ==> Live(ts[k].track.State()))
    && DistinctEllipses(ts)
    && Centred(ts)
  }

  /** The tracker as a detection filter: it holds the tracks from frame to
      frame and appends them to the frame's track list. */
  class MultiTracker {
    const cfg: Cfg
    const steps: KalmanSteps
    /** The first frame to process, as a 0-based frame index. */
    const firstFrameToProcess: int
    const allowNewTracks: bool
    var trackingObjects: seq<TrackWithEllipse>

    /** Every held track is a distinct object and is held (applied at least
        once), no two share an ellipse, and each ellipse is centred on its
        track's current position. */
    ghost predicate Valid()
      reads this, TrackObjects(trackingObjects), EllipseObjects(trackingObjects)
    {
      HeldList(trackingObjects)
    }

    /** `firstFrameToProcess` is 1-based here and stored 0-based. */
    constructor (cfg: Cfg, firstFrameToProcess: int, allowNewTracks: bool, steps: KalmanSteps)
      ensures this.cfg == cfg && this.steps == steps && this.allowNewTracks == allowNewTracks
      ensures this.firstFrameToProcess == firstFrameToProcess - 1
      ensures trackingObjects == [] && Valid()
    {
      this.cfg := cfg;
      this.steps := steps;
      this.firstFrameToProcess := firstFrameToProcess - 1;
      this.allowNewTracks := allowNewTracks;
      trackingObjects := [];
    }

    /** `trackingObjects = ...`: holds `next` as the new list of tracks;
        what is known of the frame that produced it still holds. */
    method Hold(next: seq<TrackWithEllipse>, detected: seq<DetectedObject>, ghost held: seq<TrackWithEllipse>,
                tp: Params.TrackerParams, ghost region: Region, frameNumber: int, dist: Metric, test: PolygonTest,
                ghost S0: seq<TrackState>, ghost M0: Matrix,
                ghost trackActions: seq<int>, ghost objectActions: seq<int>, ghost newObjects: seq<int>,
                ghost keep: seq<bool>, ghost created: seq<TrackWithEllipse>)
      requires HeldList(next)
      requires Stepped(detected, held, next, tp, region, frameNumber, dist, test,
                       S0, M0, trackActions, objectActions, newObjects, keep, created)
      modifies this
      ensures trackingObjects == next && Valid()
      ensures Stepped(detected, held, next, tp, region, frameNumber, dist, test,
                      S0, M0, trackActions, objectActions, newObjects, keep, created)
    {
      trackingObjects := next;
      assert unchanged(TrackObjects(held));
    }

    /** One frame: frames before the first one to process are ignored;
        otherwise the held tracks are replaced by the result of
        `TrackMulti` (the tracks kept, in order, then the new ones), which
        may start new tracks only when new tracks are allowed or this is
        the first processed frame, and the held tracks are appended to
        `tracks`. The detections' ellipses must be new objects, as the
        detector makes them. */
    method Handle(detected: seq<DetectedObject>, tracks: seq<TrackWithEllipse>, frameIndex: int,
                  tp: Params.TrackerParams, transformedMask: Option<Region>, imageSize: Size,
                  dist: Metric, test: PolygonTest, nextId: int)
      returns (tracks': seq<TrackWithEllipse>, nextId': int, ghost held: seq<TrackWithEllipse>,
               ghost S0: seq<TrackState>, ghost M0: Matrix,
               ghost trackActions: seq<int>, ghost objectActions: seq<int>, ghost newObjects: seq<int>,
               ghost keep: seq<bool>, ghost created: seq<TrackWithEllipse>)
      requires Valid() && IsDistance(dist) && tp.maxJump <= MaxValue
      requires SeparateEllipses(detected, trackingObjects)
      modifies this, TrackObjects(trackingObjects), EllipseObjects(trackingObjects), DetectionEllipses(detected)
      ensures Valid() && held == old(trackingObjects)
      ensures frameIndex < firstFrameToProcess ==>
        tracks' == tracks && nextId' == nextId && trackingObjects == old(trackingObjects) && created == []
      ensures frameIndex >= firstFrameToProcess ==>
        && tracks' == tracks + trackingObjects
        && S0 == old(StatesOf(held))
        && Stepped(detected, held, trackingObjects, tp, TerminationRegion(transformedMask, imageSize), frameIndex,
                   dist, test, S0, M0, trackActions, objectActions, newObjects, keep, created)
      ensures (allowNewTracks || frameIndex == firstFrameToProcess) && frameIndex >= firstFrameToProcess ==>
        |created| == |newObjects|
      ensures !(allowNewTracks || frameIndex == firstFrameToProcess) ==> created == []
      ensures nextId' == nextId + |created|
      ensures forall k :: 0 <= k < |created| ==> fresh(created[k].track)
    {
      tracks', nextId', created := tracks, nextId, [];
      held := trackingObjects;
      S0, M0, trackActions, objectActions, newObjects, keep := [], [], [], [], [], [];
      if frameIndex < firstFrameToProcess {
        return;
      }
      var allowed := allowNewTracks || frameIndex == firstFrameToProcess;
      var next;
      next, nextId', S0, M0, trackActions, objectActions, newObjects, keep, created :=
        TrackMulti(detected, trackingObjects, tp, transformedMask, allowed, imageSize, frameIndex,
                   cfg, steps, dist, test, nextId);
      Hold(next, detected, held, tp, TerminationRegion(transformedMask, imageSize), frameIndex,
           dist, test, S0, M0, trackActions, objectActions, newObjects, keep, created);
      tracks' := tracks + next;
    }
  }
}
