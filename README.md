# YetAnotherTracker core, modelled in Dafny

YetAnotherTracker follows animals (or any moving objects) through a video.
Each frame it segments the foreground, keeps the contours that pass size
filters and turns each one into a detection: a centroid plus an optional
fitted ellipse. `MultiTracker` then associates the detections with the live
Kalman tracks. It commits mutual-best pairs under a `maxJump` ceiling,
discards detections that sit closer than `minGap` to another detection that
the same track prefers, stops or drops the unmatched tracks and opens new
tracks. The tracks go to a CSV writer, which writes only the first and last
frame at which a track stays at one position.

This project models that core:

- **The associator.** `Assignment` and `Tracker` model it over `array2<real>` distance
  matrices and `int` action arrays that are overwritten in place, as the
  source does. `Association` holds the pure specification it is proved against:
  the nearest row of a column, the preferred column of a row, mutual pairs,
  discarded detections, the invariant that every pass keeps, and the whole
  association as a function of the original matrix (`Assign`).
- **Track bookkeeping.** `Kalman.KalmanTrack` and `EllipseTrack.TrackWithEllipse`
  are classes whose fields change the way `assess`, `apply`, `stopped` and
  `continueAsPredicted` change them. The Kalman filter's predict and correct are
  functions passed in (`KalmanSteps`).
- **Region geometry** (`Region`, `RegionTransform`, `Util.OrthoRotation`): point maps over
  polygon lists, exact quarter turns, `bounds` and `pointInside`.
- **CSV output** (`Csv.CSVWriter`, `TrackCsv.TrackCSVWriter`): the writer's output is the
  sequence of text chunks written so far.
- **Smaller rules:**
  - contour filtering, and the dilation and erosion sequence (`Detection`);
  - the background handler registry and the averaging handlers (`Background`, `Averaging`);
  - polygon editing with snapping (`Polygon`);
  - `Dimension` parsing (`Dimensions`);
  - resize arithmetic (`Params`);
  - string and colour helpers (`Util`, `Strings`).

Java doubles are modelled as `real`. `Double.MAX_VALUE` is the constant
`Geometry.MaxValue`, and `Double.MIN_VALUE` (the smallest positive double) is
`Geometry.MinValue`. The following are parameters of the model rather than
definitions: OpenCV measurements, the polygon test, `Math.hypot`, number
parsing and number formatting. Every lemma holds for any choice of them,
unless the lemma's `requires` states a property of them (for example
`IsDistance`, that a distance is symmetric and zero on equal points).

## Model

| member | source | states |
|---|---|---|
| Assignment.BestObjectForTrack | src/com/jim/tracking/MultiTracker.java:321-332 | The scan returns `BestRow`, which `Association.BestRowIsNearest` proves to be the lowest-index row holding the smallest value below `Double.MAX_VALUE` in the column, or -1 when there is none. |
| Assignment.BestTrackForObject | src/com/jim/tracking/MultiTracker.java:334-345 | The scan returns `BestCol`: among columns whose distance is strictly below `maxJump`, the lowest-index one with the smallest distance plus age, or -1. |
| Assignment.FillRow | src/com/jim/tracking/MultiTracker.java:316-319 | Exactly the cells of the row become the value; every other cell keeps its old value. |
| Assignment.FillCol | src/com/jim/tracking/MultiTracker.java:311-314 | Exactly the cells of the column become the value; every other cell keeps its old value. |
| Assignment.ChooseBest | src/com/jim/tracking/MultiTracker.java:286-291 | `bestTrackToObject[t]` is `BestRow` of column t and `bestObjectToTrack[o]` is `BestCol` of row o, both over the matrix as it stands. |
| Assignment.SimpleAssignments | src/com/jim/tracking/MultiTracker.java:283-309 | One pass: the best arrays are the nearest-row and preferred-column choices on the old matrix. Exactly the mutual pairs under `maxJump` are committed, and their rows and columns are filled with `MAX_VALUE` (`PassOutcome`). The returned count is the number of mutual pairs. |
| Assignment.CommitMutualPairs | src/com/jim/tracking/MultiTracker.java:292-303 | The commit loop links track tr and object obj exactly when each is the other's best and `distances[obj][tr] < maxJump` on the matrix at the start of the pass. |
| Assignment.PairsAreMutual | src/com/jim/tracking/MultiTracker.java:292-303 | The pairs the commit loop reads from the best arrays are the pairs `Association.Mutual` describes, and they are as many as `CountMutual` says. |
| Assignment.CommittedIsPassOutcome | src/com/jim/tracking/MultiTracker.java:283-309 | The commit loop's final state is the `PassOutcome` of the pass. |
| Assignment.SuppressDuplicates | src/com/jim/tracking/MultiTracker.java:199-212 | Exactly the detections that are `Discarded` get -2 and a row of `MAX_VALUE`. Every other entry of both arrays is unchanged. |
| Assignment.FirstPass | src/com/jim/tracking/MultiTracker.java:189-212 | Starting from all -1, one pass followed by duplicate suppression leaves a `Consistent` state, and the matrix and both action arrays are exactly `Association.Start` of the original matrix. |
| Assignment.RepeatPasses | src/com/jim/tracking/MultiTracker.java:216-217 | The `while` loop keeps `Consistent` and terminates, because each productive pass assigns a track that was unassigned. When it stops, no mutual pair is left, and the matrix and both action arrays are exactly `Association.Passes` of the state the loop started from. |
| Assignment.RunPasses | src/com/jim/tracking/MultiTracker.java:185-217 | Fresh action arrays of the right lengths in a `Consistent` state with no mutual pair left. The final matrix and action arrays are exactly `Association.Assign` of the original matrix, ages and detection distances. |
| Assignment.NewTrackObjects | src/com/jim/tracking/MultiTracker.java:223-230 | The new-track list holds exactly the detections marked -1, in strictly increasing order, and all of them in range. |
| Assignment.AssignTracksAndObjects | src/com/jim/tracking/MultiTracker.java:183-245 | The consumed matrix, the track actions and the object actions are exactly `Association.Assign` of the original matrix, so the outcome is fully determined. They are `Consistent` with the original matrix: track and object actions are each other's inverse and injective, and every detection is classified. No mutual pair remains. The new-object list is exactly the -1 detections, in ascending order. |
| Association.RowScanIsNearest | src/com/jim/tracking/MultiTracker.java:321-332 | The loop's running minimum over the first n rows is the nearest row with the lowest index winning ties, and its value is that row's distance, or `MAX_VALUE` if there is none. |
| Association.BestRowIsNearest | src/com/jim/tracking/MultiTracker.java:321-332 | `bestObjectForTrack` returns the nearest row as defined by `IsNearestRow`. |
| Association.NearestRowUnique | src/com/jim/tracking/MultiTracker.java:321-332 | There is only one nearest row, so the tie rule fully determines it. |
| Association.ColScanIsPreferred | src/com/jim/tracking/MultiTracker.java:334-345 | The loop's running minimum is the preferred column among the first n columns. Its value is distance plus age, or `MAX_VALUE`. |
| Association.BestColIsPreferred | src/com/jim/tracking/MultiTracker.java:334-345 | `bestTrackForObject` returns the preferred column: strictly under `maxJump`, minimal distance plus age, lowest index on ties. |
| Association.CommittedIsMutual | src/com/jim/tracking/MultiTracker.java:292-297 | A detection is committed iff its preferred track is in a mutual pair whose nearest row is that detection. |
| Association.MutualMeaning | src/com/jim/tracking/MultiTracker.java:292-297 | A mutual pair has a distance below both `maxJump` and `MAX_VALUE`. The row is the track's nearest (ages play no part), and the column is the row's preferred track (ages do play a part). |
| Association.NoMutualLeft | src/com/jim/tracking/MultiTracker.java:216 | A pass that commits nothing means that no track is in a mutual pair. |
| Association.SomeMutual | src/com/jim/tracking/MultiTracker.java:216 | A pass that commits something has a witness track in a mutual pair. |
| Association.PreferredTrackHasNearest | src/com/jim/tracking/MultiTracker.java:199-202 | With `maxJump <= MAX_VALUE`, a detection's preferred track always has a nearest detection, so the lookup at line 202 is in range. |
| Association.CommittedNotDiscarded | src/com/jim/tracking/MultiTracker.java:199-212 | A detection committed in the first pass is never discarded as a duplicate. |
| Association.FreePairs | src/com/jim/tracking/MultiTracker.java:292-300 | In a `Consistent` state, every mutual pair joins an unassigned track and an unassigned detection whose original distance is under `maxJump`. |
| Association.PassKeepsLinks | src/com/jim/tracking/MultiTracker.java:295-297 | A pass keeps every earlier link and adds only links that are mutual and injective in both directions. |
| Association.PassKeepsMarks | src/com/jim/tracking/MultiTracker.java:207-208 | A pass keeps every detection classified: linked to its track, -2 only if discarded, -1 otherwise. |
| Association.PassKeepsFilled | src/com/jim/tracking/MultiTracker.java:295-300 | After a pass, the rows of linked or discarded detections and the columns of linked tracks hold `MAX_VALUE`, and every other cell still holds its original distance. |
| Association.PassProgress | src/com/jim/tracking/MultiTracker.java:216-217 | A productive pass strictly decreases the number of unassigned tracks, which makes the loop's termination measure. |
| Association.PassIdle | src/com/jim/tracking/MultiTracker.java:216-217 | An unproductive pass changes nothing, and no mutual pair is left. |
| Association.PassKeepsConsistent | src/com/jim/tracking/MultiTracker.java:216-217 | This is the loop invariant: `Consistent` is kept, a productive pass makes progress, and an idle pass is a fixed point. |
| Association.FirstPassConsistent | src/com/jim/tracking/MultiTracker.java:189-212 | All -1 arrays, one pass and the duplicate marking give a `Consistent` state. |
| Association.AssignmentInjective | src/com/jim/tracking/MultiTracker.java:292-303 | No detection is given to two tracks, and no track to two detections. |
| Association.NoTracksAllNew | src/com/jim/tracking/MultiTracker.java:183-230 | With zero tracks, every detection ends as a new track (-1). |
| Association.UnassignedDecreases | src/com/jim/tracking/MultiTracker.java:216 | Assigning one more entry while keeping the others assigned lowers the count of -1 entries. |
| Association.UnassignedMonotone | src/com/jim/tracking/MultiTracker.java:216 | Keeping assigned entries assigned never raises the count of -1 entries. |
| Association.PassDetermined | src/com/jim/tracking/MultiTracker.java:283-309 | A state is an outcome of one pass (`PassOutcome`) if and only if it equals `Pass` of the state before it, so a pass leaves no choice. |
| Association.SuppressDetermined | src/com/jim/tracking/MultiTracker.java:199-212 | Marking exactly the discarded detections -2 and filling their rows yields `Suppress` of the state after the first pass. |
| Association.Unstarted | src/com/jim/tracking/MultiTracker.java:189-192 | The state before the first pass: every track and every detection is -1. |
| Association.Start | src/com/jim/tracking/MultiTracker.java:189-212 | The first pass from nothing assigned, followed by duplicate suppression, gives a `Consistent` state. |
| Association.FirstPassIsStart | src/com/jim/tracking/MultiTracker.java:189-212 | Any state reached by one pass from all -1 and then duplicate marking is `Start` of the original matrix. |
| Association.PassStep | src/com/jim/tracking/MultiTracker.java:216-217 | From a `Consistent` state, a pass that commits something keeps the invariant and every earlier assignment, and lowers the number of unassigned tracks. |
| Association.PassKeepsAssignments | src/com/jim/tracking/MultiTracker.java:292-300 | A pass from a `Consistent` state changes no track or detection that was already assigned or discarded. |
| Association.Passes | src/com/jim/tracking/MultiTracker.java:216-217 | Repeating passes until one commits nothing ends `Consistent`, with no mutual pair left, and keeps every assignment the starting state held. |
| Association.Assign | src/com/jim/tracking/MultiTracker.java:183-217 | The whole association as a function of the original matrix: `Consistent` with it, and no mutual pair left. |
| Tracker.SelectDistinct | src/com/jim/tracking/MultiTracker.java:133-157 | Keeping a subset of distinct tracks in order gives distinct tracks. Every kept track comes from the input, and every flagged one is kept. |
| Tracker.BuildDistanceMatrix | src/com/jim/tracking/MultiTracker.java:255-271 | Cell [di, ti] is the distance from track ti's predicted point to detection di's centroid. Each track predicts exactly once, and only when there is at least one detection. |
| Tracker.BuildTimesVector | src/com/jim/tracking/MultiTracker.java:274-281 | The age of track ti is `ageWeighting * (frameNumber - lastDetectedAt)`. |
| Tracker.BuildObjectDistances | src/com/jim/tracking/MultiTracker.java:109-114 | The detection-to-detection matrix is the full pairwise distance matrix, as its mirrored writes make it for a symmetric distance. |
| Tracker.DefaultNeverTerminates | src/com/jim/Params.java:136 | With the default `terminationBorder` of -1, no stopped track is ever dropped. |
| Tracker.NextStateLive | src/com/jim/tracking/MultiTracker.java:139-154 | Stopping or applying a detection keeps a track's state well formed, with an applied and a predicted point present. |
| Tracker.UpdateTrack | src/com/jim/tracking/MultiTracker.java:134-157 | A stopped track is dropped iff `terminationBorder > 0` and `pointInside(lastPredictedPoint)` is below it, tested on the mask or else the frame rectangle at the origin. An assigned track is always kept, applies its detection and gets `lastDetectedAt = frameNumber`. |
| Tracker.UpdateTracks | src/com/jim/tracking/MultiTracker.java:133-157 | The kept list is the input tracks filtered by those flags, in original order. Each track's new state is `NextState` of its action, and each track's ellipse, when it has one, is centred on its new position (`Centred`). |
| Tracker.CreateTracks | src/com/jim/tracking/MultiTracker.java:160-167 | One fresh track per new detection, in list order. The ids are consecutive from the counter, each track has its detection's ellipse, and each has had exactly one `apply` of the centroid. The new tracks are distinct, hold distinct ellipses, are live and have their ellipses centred on them. |
| Tracker.StartTrack | src/com/jim/tracking/MultiTracker.java:163-164 | A new track with the detection's ellipse and the next id, whose state is the initial state applied once at the centroid. It is live and its ellipse is re-centred on the corrected position. |
| Tracker.CreatedLive | src/com/jim/tracking/MultiTracker.java:163-164 | A freshly created and applied track is well formed. |
| Tracker.Measure | src/com/jim/tracking/MultiTracker.java:99-114 | The distance matrix, age vector and detection-distance matrix are as `BuildDistanceMatrix`, `BuildTimesVector` and `BuildObjectDistances` state, over the states before the call. |
| Tracker.MeasureAndAssign | src/com/jim/tracking/MultiTracker.java:99-130 | With no detections every track is stopped and nothing is new. Otherwise the track and object actions are exactly `Association.Assign` of the measured matrix, the weighted ages and the detection distances (hence `Links` and `Marks` over that matrix), and the new-object list is the -1 detections in ascending order. |
| Tracker.UpdateAndCreate | src/com/jim/tracking/MultiTracker.java:133-167 | The result is the kept tracks in order, then the new tracks. New tracks appear only when allowed, and the id counter advances by the number created. Every updated track, dropped or kept, has its ellipse centred on its position, and the result is fit to be held (`HeldList`). |
| Tracker.AddNewTracks | src/com/jim/tracking/MultiTracker.java:160-167 | New tracks are appended after the kept ones, and only when new tracks are allowed. The kept tracks are not touched, states and ellipse centres included, and the result is fit to be held (`HeldList`): distinct tracks and ellipses, all live, all centred. |
| Tracker.TrackMulti | src/com/jim/tracking/MultiTracker.java:97-172 | The whole frame step: the actions `Association.Assign` computes on the measured matrix, then per-track keep flags and new states, then the result list made of the kept tracks followed by new tracks (`Stepped`). The new tracks start as `Started` says, every input track's ellipse is centred on its new position, and the result is fit to be held (`HeldList`). |
| Tracker.MultiTracker.constructor | src/com/jim/tracking/MultiTracker.java:46-50 | The tracker stores `firstFrameToProcess - 1` and starts with no tracks. |
| Tracker.MultiTracker.Handle | src/com/jim/tracking/MultiTracker.java:56-69 | Nothing happens before the stored first frame. From that frame on, the tracking list is replaced and appended to the caller's list. New tracks are allowed iff `allowNewTracks` or the frame index equals the stored value, and the id counter advances by exactly the tracks created. The new list is the held tracks selected by their keep flags, in order, followed by the new tracks. The actions are those `Association.Assign` computes on the measured matrix, and each held track's keep flag and new state are `Kept` and `NextState` of its action (`Stepped`). The held tracks stay fit to be held (`Valid`). |
| Tracker.MultiTracker.Hold | src/com/jim/tracking/MultiTracker.java:60 | The new list replaces the held one and stays fit to be held; the frame's outcome still holds. |
| Kalman.Preset | src/com/jim/tracking/KalmanTrack.java:55-72 | Exactly the five preset names have fixed noise triples. |
| Kalman.ParseCfg | src/com/jim/tracking/KalmanTrack.java:48-82 | Null means "normal" with its triple. A name that is not a preset and has fewer than three comma-separated parts is an error. A success keeps the text. |
| Kalman.ParseNumbers | src/com/jim/tracking/KalmanTrack.java:73-79 | A numeric configuration succeeds only with at least three parts. |
| Kalman.ParseCfgNumeric | src/com/jim/tracking/KalmanTrack.java:73-79 | Any non-preset text is parsed as comma-separated numbers. |
| Kalman.ParseCfgTriple | src/com/jim/tracking/KalmanTrack.java:73-79 | "a,b,c" followed by more comma parts gives the triple (a, b, c), and extra parts are ignored. If any of the three is not a number, the result is an error. |
| Kalman.Predicted | src/com/jim/tracking/KalmanTrack.java:143-150 | After `assess`, the flag is set and a predicted point exists. |
| Kalman.AppliedBookkeeping | src/com/jim/tracking/KalmanTrack.java:153-172 | `apply` records the point and counts it once, clears the predict flag and leaves a prediction. `positionChanged` holds iff the corrected position differs from the old one, `changeCount` grows exactly then, and `changeCount <= pointCount` is kept. |
| Kalman.FirstApplyChanges | src/com/jim/tracking/KalmanTrack.java:166-171 | The first apply always counts as a change. |
| Kalman.PredictedIdempotent | src/com/jim/tracking/KalmanTrack.java:143-150 | The filter predicts at most once between applies, so repeated `assess` calls measure from the same predicted point. |
| Kalman.AssessThenApply | src/com/jim/tracking/KalmanTrack.java:143-161 | `apply` after `assess` gives the same state as `apply` alone, because `apply` predicts first only when `assess` was not called. |
| Kalman.RunCounts | src/com/jim/tracking/KalmanTrack.java:153-182 | Over any sequence of calls, the applied-point count grows by exactly the number of applies (`stopped` and `continueAsPredicted` included), and the state stays well formed. |
| Kalman.StoppedKeepsLastApplied | src/com/jim/tracking/KalmanTrack.java:175-177 | `stopped()` re-applies the last applied point, so that point is unchanged. |
| Kalman.KalmanTrack.constructor | src/com/jim/tracking/KalmanTrack.java:98-135 | A new track has its id, initial position and the initial state for its configuration. |
| Kalman.KalmanTrack.Assess | src/com/jim/tracking/KalmanTrack.java:143-150 | The state becomes `Predicted` of the old one, and the result is the distance from the predicted point to the argument. |
| Kalman.KalmanTrack.Apply | src/com/jim/tracking/KalmanTrack.java:153-172 | The state becomes `Applied`, and the returned point is the new `currentPosition`. |
| Kalman.KalmanTrack.Stopped | src/com/jim/tracking/KalmanTrack.java:175-177 | Equivalent to applying the last applied point. |
| Kalman.KalmanTrack.ContinueAsPredicted | src/com/jim/tracking/KalmanTrack.java:180-182 | Equivalent to applying the last predicted point. |
| Kalman.KalmanTrack.SetLastDetectedAt | src/com/jim/tracking/KalmanTrack.java:224-226 | Only `lastDetectedAt` changes. |
| Kalman.DisplacementAtStart | src/com/jim/tracking/KalmanTrack.java:214-216 | Displacement is zero while the track is still at its initial position. |
| EllipseTrack.TrackWithEllipse.constructor | src/com/jim/tracking/TrackWithEllipse.java:12-15 | The track is fresh and the ellipse reference is the one given, possibly none. |
| EllipseTrack.TrackWithEllipse.Apply | src/com/jim/tracking/TrackWithEllipse.java:22-27 | The returned point is what the track's `apply` returned, and an ellipse, if present, is re-centred on it. |
| EllipseTrack.TrackWithEllipse.Stopped | src/com/jim/tracking/KalmanTrack.java:175-177 | `stopped` dispatches to the overriding `apply`, so the ellipse is re-centred too. |
| EllipseTrack.TrackWithEllipse.ContinueAsPredicted | src/com/jim/tracking/KalmanTrack.java:180-182 | `continueAsPredicted` dispatches to the overriding `apply` and re-centres the ellipse. |
| Region.MapPoints | src/com/jim/tracking/Region.java:259-269 | Every point is replaced by its image. The number of polygons, the points per polygon and their order are kept. |
| Region.TransformPoints | src/com/jim/tracking/Region.java:259-269 | The accumulator loop builds exactly `MapPoints`. |
| Region.Scale | src/com/jim/tracking/Region.java:118-121 | The result has the same inclusion flag and shape. |
| Region.Translate | src/com/jim/tracking/Region.java:129-131 | The result has the same inclusion flag and shape. |
| Region.Rotate | src/com/jim/tracking/Region.java:148-156 | The result has the same inclusion flag and shape. |
| Region.RotateQuarter | src/com/jim/tracking/Region.java:138-156 | The result has the same inclusion flag and shape. |
| Region.RotateFixesPivot | src/com/jim/tracking/Region.java:148-156 | A point at the pivot stays there. |
| Region.QuarterTurnCoordinates | src/com/jim/tracking/Region.java:138-156 | The exact quarter turns map (x, y) to (-y, x), (y, -x), (-x, -y) and (x, y). |
| Region.MapPointsCompose | src/com/jim/tracking/Region.java:259-269 | Mapping twice is mapping once by the composed function. |
| Region.MapPointsIdentity | src/com/jim/tracking/Region.java:259-269 | Mapping by the identity gives the same point lists. |
| Region.TranslateTwice | src/com/jim/tracking/Region.java:129-131 | `translate(a,b).translate(c,d) == translate(a+c,b+d)`. |
| Region.ScaleTwice | src/com/jim/tracking/Region.java:118-121 | `scale(s).scale(t) == scale(s*t)`. |
| Region.ScaleByOne | src/com/jim/tracking/Region.java:118-121 | `scale(1)` is the identity. |
| Region.MaxFoldBounds | src/com/jim/tracking/Region.java:200-214 | The running maximum is at least its start and every coordinate. |
| Region.MinFoldBounds | src/com/jim/tracking/Region.java:200-214 | The running minimum is at most its start and every coordinate. |
| Region.MaxFoldAttained | src/com/jim/tracking/Region.java:200-214 | The running maximum is its start value or some point's coordinate. |
| Region.MinFoldAttained | src/com/jim/tracking/Region.java:200-214 | The running minimum is its start value or some point's coordinate. |
| Region.FoldCorners | src/com/jim/tracking/Region.java:200-214 | The nested loops compute the coordinate-wise minimum and maximum over all polygons' points. |
| Region.BoundsAsWritten | src/com/jim/tracking/Region.java:200-214 | The source's `bounds`, starting the maxima at `Double.MIN_VALUE`: the maximum corner is never below that positive value. |
| Region.BoundsAsWrittenMissesNegativeMax | src/com/jim/tracking/Region.java:203-204 | For a region whose x coordinates are all negative, the as-written maximum x is `Double.MIN_VALUE`, which is above every point. |
| Region.Bounds | src/com/jim/tracking/Region.java:200-214 | The minimum corner is <= every point, which is <= the maximum corner. For a non-empty region of finite points, each corner coordinate is attained by some point. |
| Region.RectRegionBounds | src/com/jim/tracking/Region.java:44-54 | The rectangle constructor's corners (x,y), (x,y+h), (x+w,y+h), (x+w,y) have bounds exactly (x, y) to (x+w, y+h). |
| Region.InsideOf | src/com/jim/tracking/Region.java:219-227 | `pointInside` is never negative, is at least every polygon's test value, and is either 0 or one of those values. |
| Region.PointInside | src/com/jim/tracking/Region.java:219-227 | The loop computes `InsideOf` over the region's polygons, converted to integer points. |
| RegionTransform.TransformForParams | src/com/jim/tracking/Region.java:82-109 | The transformed region keeps the inclusion flag and shape. |
| RegionTransform.TransformIdentity | src/com/jim/tracking/Region.java:82-109 | With no rotation and `resizeWidth == 0`, the region is unchanged in both directions. |
| RegionTransform.ScaleReciprocal | src/com/jim/tracking/Region.java:118-121 | Scaling by k and then by 1/k restores the region. |
| RegionTransform.ReverseUndoesForward | src/com/jim/tracking/Region.java:82-109 | For the same parameters and size, the reverse transform undoes the forward one. |
| RegionTransform.ForwardUndoesReverse | src/com/jim/tracking/Region.java:82-109 | For the same parameters and size, the forward transform undoes the reverse one. |
| Util.RGB | src/com/jim/util/Util.java:71-73 | The channels are stored in blue, green, red order. |
| Util.IdToRGBChannels | src/com/jim/util/Util.java:262-267 | Red, green and blue are 240 or 0 according to id bits 0, 1 and 2. |
| Util.IdToRGBLowBits | src/com/jim/util/Util.java:262-267 | The colour depends only on `id & 7`. |
| Util.IdToRGBDistinct | src/com/jim/util/Util.java:262-267 | Ids that differ in their low three bits get different colours. |
| Util.ParseSize | src/com/jim/util/Util.java:79-86 | Text without an 'x' is an error. |
| Util.ParseSizeFirstTwoParts | src/com/jim/util/Util.java:79-86 | "WxH", with any further 'x' parts ignored, gives Size(W, H) when both parse, and an error otherwise. |
| Util.SetWidthPreservingAR | src/com/jim/util/Util.java:104-106 | The width is the new width and the aspect ratio is kept. |
| Util.OrthoRotation.Negative | src/com/jim/util/Util.java:125-137 | The two angles sum to a multiple of 360. |
| Util.NegativeInvolution | src/com/jim/util/Util.java:125-137 | `negative` is an involution. |
| Util.OrthoRotation.RotateSize | src/com/jim/util/Util.java:147-160 | Width and height swap for the 90-degree cases. Otherwise the size is unchanged. |
| Util.RotateSizeProperties | src/com/jim/util/Util.java:147-160 | Rotating a size twice is the identity, and `r.negative().rotateSize == r.rotateSize`. |
| Util.ValidAngles | src/com/jim/util/Util.java:116-123 | The loop lists the four angles in declaration order. |
| Util.FromAngle | src/com/jim/util/Util.java:139-145 | Succeeds iff the angle is 0, -90, 90 or 180, and then gives the rotation with that angle. Otherwise it fails with the source's message. |
| Util.OrthoRotation.RotateRegion | src/com/jim/util/Util.java:177-189 | The rotated region keeps the inclusion flag and shape. |
| Util.RotateRegionPointwise | src/com/jim/util/Util.java:177-189 | Translate-then-turn moves each point as `MovePoint` says. |
| Util.MovePointStaysInFrame | src/com/jim/util/Util.java:177-189 | A point of the original frame lands in the rotated frame. |
| Util.MovePointInverse | src/com/jim/util/Util.java:125-189 | The negative rotation on the rotated size moves the point back. |
| Util.RotateRegionRoundTrip | src/com/jim/util/Util.java:177-189 | `r.negative().rotate(r.rotate(region, size), r.rotateSize(size))` is the original region. |
| Util.JoinItems | src/com/jim/util/Util.java:224-232 | The builder loop gives `Join`: sep only between consecutive items, and "" for no items. |
| Util.StripTrailingSlashes | src/com/jim/util/Util.java:208-219 | The result is a prefix of the path that does not end with '/'. |
| Util.FileNameSplit | src/com/jim/util/Util.java:208-219 | The path is a directory part (empty or ending with '/') followed by a final component that holds no '/'. |
| Util.CutExtensionParts | src/com/jim/util/Util.java:208-219 | The final component is a stem plus an extension that is empty or starts at its last '.'. The result replaces that extension. |
| Util.ReplaceExtension | src/com/jim/util/Util.java:208-219 | The result always ends with the new extension. |
| Util.ExtensionParts | src/com/jim/util/Util.java:208-219 | The path splits into directory, stem and extension, and the result is directory + stem + new extension. |
| Util.ReplaceExtensionCutsLastComponent | src/com/jim/util/Util.java:208-219 | `replaceExtension` replaces from the last '.' of the final component, or appends when there is none. |
| Params.ScaleSize | src/com/jim/Params.java:49-53 | The size is unchanged when `resizeWidth == 0`. Otherwise its width is `resizeWidth` and its aspect ratio is kept. |
| Params.Scale | src/com/jim/Params.java:56-60 | The factor is 1 when `resizeWidth == 0`. Otherwise it is `resizeWidth / width`. |
| Params.ScaleSizeIsUniform | src/com/jim/Params.java:49-60 | `scaleSize(s)` is s with both sides multiplied by `scale(s)`. |
| Csv.Rendered | src/com/jim/tracking/CSVWriter.java:57-64 | There is one field per value. |
| Csv.RowFields | src/com/jim/tracking/CSVWriter.java:37-49 | A row ends with '\n', and splitting the rest at ',' gives back the rendered values, in order. |
| Csv.TextIsQuotedVerbatim | src/com/jim/tracking/CSVWriter.java:57-60 | A string value is wrapped in double quotes with nothing doubled inside. |
| Csv.CommentLines | src/com/jim/tracking/CSVWriter.java:27-31 | There is one line per segment. |
| Csv.CommentOfLines | src/com/jim/tracking/CSVWriter.java:27-31 | A comment made of '\n'-joined lines gives one prefixed line per line. |
| Csv.OneLineComment | src/com/jim/tracking/CSVWriter.java:14-31 | A comment without '\n' becomes exactly prefix + comment + '\n'. |
| Csv.ConcatAppend | src/com/jim/tracking/CSVWriter.java:37-49 | The text written is the concatenation of the chunks, so appending chunks appends text. |
| Csv.CSVWriter.Detached | src/com/jim/tracking/CSVWriter.java:16-17 | The no-writer constructor is closed, has written nothing and has the default comment prefix "# ". |
| Csv.CSVWriter.constructor | src/com/jim/tracking/CSVWriter.java:19-21 | An open writer that has written nothing and has the default comment prefix. |
| Csv.CSVWriter.SetCommentPrefix | src/com/jim/tracking/CSVWriter.java:23-25 | Only the prefix changes. |
| Csv.CSVWriter.WriteComment | src/com/jim/tracking/CSVWriter.java:27-31 | Appends one prefixed line per '\n'-separated segment. |
| Csv.CSVWriter.WriteHeaders | src/com/jim/tracking/CSVWriter.java:33-35 | Headers are written as quoted strings, as one row, and only while open. |
| Csv.CSVWriter.WriteValues | src/com/jim/tracking/CSVWriter.java:37-49 | Appends one row while open. After close it does nothing. |
| Csv.CSVWriter.Close | src/com/jim/tracking/CSVWriter.java:51-55 | The writer becomes closed and nothing is written. A second close is harmless. |
| TrackCsv.FrameRate | src/com/jim/tracking/TrackCSVWriter.java:127-132 | The configured fps if positive, else the camera's. |
| TrackCsv.ScaleFactorConverts | src/com/jim/tracking/TrackCSVWriter.java:87-90 | The factor is 1/scale if scale > 0. Otherwise it makes the frame width equal the user units width, or else the frame height equal the user units height, or else it is 1. The frame size is the optional playback size, which must be present on the user-units branches. |
| TrackCsv.PosValuesMeaning | src/com/jim/tracking/TrackCSVWriter.java:127-132 | The six values are frame-1, (frame-1)/fps, id, x·sf, y·sf and changed. |
| TrackCsv.RowsAppend | src/com/jim/tracking/TrackCSVWriter.java:127-132 | Rows of concatenated records are the concatenated rows. |
| TrackCsv.TrackRecordsSnoc | src/com/jim/tracking/TrackCSVWriter.java:93-115 | The records of one more track are the earlier records followed by that track's step. |
| TrackCsv.AllFramesOneRowEach | src/com/jim/tracking/TrackCSVWriter.java:97-113 | With `writeAllFrames`, each track writes one row per frame and the skipped map stays empty. |
| TrackCsv.NoChangeNoRows | src/com/jim/tracking/TrackCSVWriter.java:97-101 | Unchanged tracks write nothing and their positions are remembered. |
| TrackCsv.SkippedAfterFrame | src/com/jim/tracking/TrackCSVWriter.java:97-114 | After a frame, a changed track has no entry, an unchanged one holds its latest position, and other ids are untouched. |
| TrackCsv.MoveAfterStay | src/com/jim/tracking/TrackCSVWriter.java:102-109 | On a change after a stay, the stored position is written first (unchanged, current frame), then the current row. |
| TrackCsv.DeriveName | src/com/jim/tracking/TrackCSVWriter.java:155-157 | The derived name ends with ".csv". |
| TrackCsv.DerivedNameIsHandled | src/com/jim/tracking/TrackCSVWriter.java:155-157 | `canHandle` accepts every derived name. |
| TrackCsv.LowerKeepsExtension | src/com/jim/tracking/TrackCSVWriter.java:53-55 | Lower-casing keeps a ".csv" ending. |
| TrackCsv.TrackCSVWriter.constructor | src/com/jim/tracking/TrackCSVWriter.java:37-42 | Exactly one header row is written: Frame, Time, TrackId, x, y, ValueChanged. |
| TrackCsv.TrackCSVWriter.SetWriteTracks | src/com/jim/tracking/TrackCSVWriter.java:44-46 | Only the flag changes. |
| TrackCsv.TrackCSVWriter.SetScale | src/com/jim/tracking/TrackCSVWriter.java:62-64 | Only the scale changes. |
| TrackCsv.TrackCSVWriter.SetUserUnitsWidth | src/com/jim/tracking/TrackCSVWriter.java:67-69 | Only the user units width changes. |
| TrackCsv.TrackCSVWriter.SetUserUnitsHeight | src/com/jim/tracking/TrackCSVWriter.java:72-74 | Only the user units height changes. |
| TrackCsv.TrackCSVWriter.WritePos | src/com/jim/tracking/TrackCSVWriter.java:127-132 | Appends exactly that record's row. |
| TrackCsv.TrackCSVWriter.HandleTrack | src/com/jim/tracking/TrackCSVWriter.java:94-114 | Writes one track's records and updates the skipped map as `TrackStep` says. |
| TrackCsv.TrackCSVWriter.HandleTracks | src/com/jim/tracking/TrackCSVWriter.java:93-115 | The loop over tracks writes `TrackRecords` and leaves its skipped map. |
| TrackCsv.TrackCSVWriter.Handle | src/com/jim/tracking/TrackCSVWriter.java:79-125 | Nothing is written when not running. Otherwise the frame size becomes the playback size, which may be absent. When scale <= 0 and a user-units size is set, an absent frame size throws (`thrown`, as the source's `NullPointerException`) and nothing more is written. Otherwise the scale factor is set, then either the track records are written, or one id-1 row is written when there is exactly one detection. |
| TrackCsv.TrackCSVWriter.OnDone | src/com/jim/tracking/TrackCSVWriter.java:140-152 | Writes the id -1 sentinel row with the frame size when it is known (never with the default playback size, which is absent), then closes. |
| Detection.OpFor | src/com/jim/tracking/DifferenceDetector.java:38-48 | A positive size dilates with size v, a negative one erodes with size -v, and 0 does nothing. |
| Detection.MorphAppend | src/com/jim/tracking/DifferenceDetector.java:38-48 | The operations apply in list order, so a list split in two applies its halves one after the other. |
| Detection.ZeroSizeIsSkipped | src/com/jim/tracking/DifferenceDetector.java:38-48 | A 0 anywhere in the list has no effect. |
| Detection.ApplyMorphology | src/com/jim/tracking/DifferenceDetector.java:38-48 | The loop gives `Morph` of the list. |
| Detection.Centroid | src/com/jim/tracking/DifferenceDetector.java:98-99 | The centroid is (m10/m00, m01/m00). |
| Detection.ScanIsCutFilter | src/com/jim/tracking/DifferenceDetector.java:71-114 | The loop's detections are the filtered detections in contour order, cut after the first `MAX_CONTOURS + 1`. The loop only breaks when that many are held. |
| Detection.ScanBound | src/com/jim/tracking/DifferenceDetector.java:91-95 | There are never more than 1001 detections. |
| Detection.KeptPassFilters | src/com/jim/tracking/DifferenceDetector.java:76-112 | Every detection comes from a contour whose area and length lie within their bounds and whose ellipse, if fitted, is not longer than `maxLength`. |
| Detection.DefaultAreaBounds | src/com/jim/Params.java:115-117 | With the defaults, an area below 60 or above 2000 is rejected. |
| Detection.DetectContours | src/com/jim/tracking/DifferenceDetector.java:55-143 | The result matches the scan: centroids in order, with a fresh ellipse exactly when at least 5 points were fitted. |
| Detection.StoppedStays | src/com/jim/tracking/DifferenceDetector.java:91-95 | Once the loop has broken, later contours change nothing. |
| Detection.Detect | src/com/jim/tracking/DifferenceDetector.java:33-53 | The foreground is morphed by the configured sizes, and the detections are the scan of its contours, at most 1001 of them. |
| Background.Parse | src/com/jim/tracking/bg/BackgroundHandler.java:55-57 | The descriptor is split on ':' with trailing empty parts dropped. The name is the first part and the arguments are the rest, in order. A descriptor of separators only has no name. |
| Background.GetHandler | src/com/jim/tracking/bg/BackgroundHandler.java:54-62 | An unknown name fails with the registered names. A known name is its factory applied to the arguments. |
| Background.ParseJoined | src/com/jim/tracking/bg/BackgroundHandler.java:55-57 | Parts joined with ':' parse back to the same name and arguments. |
| Background.HandlerOfJoined | src/com/jim/tracking/bg/BackgroundHandler.java:54-62 | "name:args" reaches the factory registered for the name, with those arguments. |
| Background.RegisterReplaces | src/com/jim/tracking/bg/BackgroundHandler.java:44-48 | Registering a name replaces its factory and leaves the other names alone. |
| Background.Registry.constructor | src/com/jim/tracking/bg/BackgroundHandler.java:44 | The registry starts empty. |
| Background.Registry.Register | src/com/jim/tracking/bg/BackgroundHandler.java:46-48 | A map put. |
| Averaging.FirstFramesHandler | src/com/jim/tracking/bg/AveragingBackground.java:13-21 | Exactly one argument is required. A count of 1 selects FirstFrame, and another count selects averaging from the start frames. |
| Averaging.PreviousFramesHandler | src/com/jim/tracking/bg/AveragingBackground.java:22-28 | The first argument is read without a count check, and a missing one fails. A count of 1 selects PreviousFrame, and another count selects running averaging. |
| Averaging.PreviousFramesIgnoresExtra | src/com/jim/tracking/bg/AveragingBackground.java:13-28 | "PreviousFrames" ignores extra arguments, where "FirstFrames" rejects them. |
| Averaging.Register | src/com/jim/tracking/bg/AveragingBackground.java:12-29 | Both names are put in the registry. |
| Averaging.RegisteredDescriptors | src/com/jim/tracking/bg/AveragingBackground.java:12-29 | "FirstFrames:n" and "PreviousFrames:n" give the handler those rules choose. |
| Averaging.BackgroundAfterFirstFrame | src/com/jim/tracking/bg/BackgroundHandler.java:15 | The background is null exactly until the first frame. |
| Averaging.FirstFrameKeepsFirst | src/com/jim/tracking/bg/AveragingBackground.java:64-72 | FirstFrame keeps the first frame forever. |
| Averaging.PreviousFrameKeepsLatest | src/com/jim/tracking/bg/AveragingBackground.java:74-79 | PreviousFrame holds the latest frame. |
| Averaging.AveragingAccumulates | src/com/jim/tracking/bg/AveragingBackground.java:51-62 | The background is zeros plus the accumulation of the first n frames when start frames are used, and of every frame otherwise. |
| Averaging.Handler.constructor | src/com/jim/tracking/bg/AveragingBackground.java:35-38 | No frames are seen yet and the background is null. |
| Averaging.Handler.ProcessFrame | src/com/jim/tracking/bg/AveragingBackground.java:51-79 | Adds one frame and steps the background by the handler's rule. The averaging frame count goes up on every call. |
| Averaging.Handler.GetBackground | src/com/jim/tracking/bg/AveragingBackground.java:40-49 | Null before any frame. The averaging handler converts to bytes, and the others return the background itself. |
| Polygon.SnapCoord | src/com/jim/ui/PolygonDefiner.java:99-109 | Below 10 from the low edge the coordinate becomes 0, else within 10 of the high edge it becomes the extent, else it is unchanged. |
| Polygon.SnapToEdge | src/com/jim/ui/PolygonDefiner.java:99-109 | x and y are snapped independently. |
| Polygon.SnapInRange | src/com/jim/ui/PolygonDefiner.java:99-109 | For an extent of at least 0, the snapped coordinate is within [0, extent]. |
| Polygon.SnappedPointInView | src/com/jim/ui/PolygonDefiner.java:99-109 | A snapped point lies in the view. |
| Polygon.SnapIdempotent | src/com/jim/ui/PolygonDefiner.java:99-109 | Snapping twice is snapping once, for views at least 10 long. |
| Polygon.InteriorUnchanged | src/com/jim/ui/PolygonDefiner.java:99-109 | Points at least 10 from both edges stay put. |
| Polygon.MousePoint | src/com/jim/ui/PolygonDefiner.java:87-93 | The snapped point is scaled to image pixels. |
| Polygon.MousePointInImage | src/com/jim/ui/PolygonDefiner.java:87-93 | Mouse points lie in the scaled image. |
| Polygon.PolygonDefiner.constructor | src/com/jim/ui/PolygonDefiner.java:38-43 | No points, no drawing and no completion call. |
| Polygon.PolygonDefiner.Press | src/com/jim/ui/PolygonDefiner.java:52-60 | A non-secondary press adds the first point only when the list is empty, and draws it. |
| Polygon.PolygonDefiner.Release | src/com/jim/ui/PolygonDefiner.java:61-71 | A secondary release removes the last point and finishes, and throws on an empty list. Any other release appends a point and draws. |
| Polygon.PolygonDefiner.Move | src/com/jim/ui/PolygonDefiner.java:72-82 | With more than one point, the last point follows the mouse. The length never changes. |
| Polygon.Handle | src/com/jim/ui/PolygonDefiner.java:52-82 | The list lengths after each handler, and every point is old or the mouse point. |
| Polygon.HandleInImage | src/com/jim/ui/PolygonDefiner.java:52-82 | One handler keeps all points in the image. |
| Polygon.PointsStayInImage | src/com/jim/ui/PolygonDefiner.java:52-109 | Any sequence of events keeps all points in the image. |
| Polygon.ReleaseThenUndo | src/com/jim/ui/PolygonDefiner.java:61-71 | A secondary release right after a primary one restores the list. |
| Dimensions.Parse | src/com/jim/util/Dimension.java:18-28 | Succeeds iff a number prefix was consumed and the trimmed rest is non-empty. The distance is the number and the units are the trimmed rest. Otherwise it fails with the text. |
| Dimensions.ParsedUnitsTrimmed | src/com/jim/util/Dimension.java:23 | The units neither start nor end with a blank and are a core of the text after the number. |
| Dimensions.ParseNumberThenUnits | src/com/jim/util/Dimension.java:18-28 | A number, blanks and units parse to that number and exactly those units. |
| Geometry.TruncToInt | src/com/jim/tracking/Region.java:237-245 | Building the integer polygons casts each coordinate to `int`, which truncates toward zero. |

## Left out

- **OpenCV numerics.** The Kalman filter's predict and correct, `pointPolygonTest`, `findContours`, moments, `fitEllipse`, `arcLength`, dilation, erosion and `accumulateWeighted` are parameters (`KalmanSteps`, `PolygonTest`, `Contour` fields, and functions passed to `Detect` and `Handler`). Their numerical behaviour is not modelled.
- **Floating point.** Doubles are reals, so rounding, NaN and infinities are not modelled. Division by zero is excluded where the source would divide by zero:
  - an fps of 0 (`FrameRate(...) != 0.0` in `TrackCsv`);
  - a zero frame width (`Params.Resizable`, `Util.SetWidthPreservingAR`);
  - a zero m00 (`Detection.Measurable`);
  - a zero frame width or height on the user-units branch of the scale factor (`TrackCsv.ScaleDefined`);
  - a zero rotated frame width when `resizeWidth` is non-zero (`RegionTransform.Transformable`), where `transformForParams` divides by that width on the reverse branch.
- **Infinite `maxJump`.** `Assignment.AssignTracksAndObjects`, `Tracker.TrackMulti` and `Tracker.MultiTracker.Handle` require `maxJump <= Double.MAX_VALUE`. An infinite `maxJump` would let a `MAX_VALUE` cell win a comparison.
- **General-angle rotation.** `Region.rotate(angle)` takes cos and sin as parameters (`Region.Rotate`). Only the exact quarter turns are computed, for `transformForParams` and `OrthoRotation.rotate`.
- **Distances.** `Util.distance` (`Math.hypot`) is a `Metric` parameter. `IsDistance` assumes only symmetry and zero on equal points.
- **Number parsing and formatting.** `Double.parseDouble`, `Long.parseLong`, `NumberFormat.parse` and `Double.toString` are parameters (`parseDouble`, `parseLong`, the consumed count in `Dimensions.Parse`, and `realText`). `Long` overflow is not modelled.
- **Lower-casing.** `toLowerCase` in `canHandle` is ASCII lower-casing.
- **Integer widths.** Java `int`/`long` overflow of counters and ids is not modelled.
- **I/O and exceptions.**
  - The CSV `Writer` is the sequence of text chunks written so far, and `IOException` is not modelled.
  - `Csv.CSVWriter.WriteComment` requires an open writer. The source calls the writer without a null check, so after close it throws `NullPointerException`.
- **Drawing and UI.**
  - Feedback drawing (`drawMarker`, ellipses, contours, rectangles, circles), debug printing and `Region.draw`/`Region.mask` are left out.
  - The polygon drawer and the completion callback are recorded as call logs in `Polygon.PolygonDefiner`.
  - JavaFX event plumbing and `ShapeDefiner.scalePointToImage` are reduced to the scale factors carried in each `MouseEvent`.
- **Gson.** `Region.toJson`, `Region(Reader)` and `Region(Region)` copying are not modelled.
- **Bounds as a rectangle.** `Region.Bounds` returns the two corner points. The integer `Rect` that `new Rect(Point, Point)` builds from them is not modelled.
- **Caches.** The transient `pts`/`pts2f` caches are dropped. `getMatOfPoints` becomes `Region.IntPolygon`, computed fresh each time.
- **Shared ellipses.** A track shares its ellipse object with the detection it started from. `Tracker.TrackMulti` and `Tracker.MultiTracker.Handle` require the frame's detections to hold new ellipse objects, distinct from each other and from every held track's (`SeparateEllipses`), as the detector makes them.
- **Track ids.** The static counter `nextObjectId` is an explicit parameter and result (`nextId`, `nextId'`).
- **KalmanTrack constructor.** `TrackWithEllipse` calls a four-argument `KalmanTrack` constructor, `(id, cfg, centroid, frameNumber)`, but `KalmanTrack.java` shows only a three-argument one. The model gives the constructor an explicit `detectedAt`, used as the initial `lastDetectedAt`.
- **TrackCSVWriter.handle inputs.** `handle` receives each track's id, current position and `positionChanged` flag (`TrackView`), plus the detections' centroids. It does not receive the track and detection objects themselves. `outputUnits` is unused, as in the source.
- **Background handlers.**
  - The `FactoryInfo` video file and `Params` are not passed to factories, because no modelled factory reads them.
  - `NoBackground` and `FullMovie` are not part of this model.
  - The three averaging classes are one `Averaging.Handler` class with a `Kind` field.
- **Dimension accessors.** `getDistance`/`getUnits` are the fields of the `Dimensions.Dimension` datatype.
- **MotionDetector.** The frame loop and the caller's filter chain are not part of this model. `MultiTracker.onCameraOpened`, `onDone` and `toString` do nothing worth stating.

## Findings

| source | as written | input that shows it | evidently intended | confidence | as-written member | corrected member |
|---|---|---|---|---|---|---|
| src/com/jim/tracking/Region.java:203-204 | `bounds` starts maxX and maxY at `Double.MIN_VALUE`, the smallest positive double | a region whose points all have negative x, e.g. (-2, 1) and (-1, 1): maxX stays `Double.MIN_VALUE`, above every point | start the maxima at `-Double.MAX_VALUE`, so the maximum corner is attained by a point | not executed | Region.BoundsAsWritten, Region.BoundsAsWrittenMissesNegativeMax | Region.Bounds |
