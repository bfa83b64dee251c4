/** A Kalman track that also carries the ellipse of the detection that
    started it, and moves that ellipse's centre to every corrected position.
    Java's subclass is modelled by composition: the track object and the
    ellipse object are separate constants, so `modifies` can name both. */
module EllipseTrack {
  import opened Wrappers
  import opened Geometry
  import opened Kalman

  class TrackWithEllipse {
    const track: KalmanTrack
    /** Shared with the detection the track was created from; may be null. */
    const ellipse: RotatedRect?

    constructor (trackId: int, cfg: Cfg, centroid: Point, ellipse: RotatedRect?, frameNumber: int, steps: KalmanSteps)
      ensures fresh(track) && this.ellipse == ellipse
      ensures track.trackId == trackId && track.initialPosition == centroid && track.steps == steps
      ensures track.State() == InitialState(cfg, centroid, frameNumber)
    {
      track := new KalmanTrack(trackId, cfg, centroid, frameNumber, steps);
      this.ellipse := ellipse;
    }

    /** The overriding `apply`: the track's correction, then the ellipse is
        re-centred on the corrected position. */
    method Apply(point: Point) returns (p: Point)
      modifies track, ellipse
      ensures track.State() == Applied(old(track.State()), track.steps, point)
      ensures track.currentPosition == Some(p)
      ensures ellipse != null ==> ellipse.center == p
    {
      p := track.Apply(point);
      if ellipse != null {
        ellipse.center := p;
      }
    }

    /** `stopped`, which reaches the overriding `apply`. */
    method Stopped() returns (p: Point)
      requires track.lastAppliedPoint.Some?
      modifies track, ellipse
      ensures track.State() == Applied(old(track.State()), track.steps, old(track.lastAppliedPoint).value)
      ensures track.currentPosition == Some(p)
      ensures ellipse != null ==> ellipse.center == p
    {
      p := Apply(track.lastAppliedPoint.value);
    }

    /** `continueAsPredicted`, which reaches the overriding `apply`. */
    method ContinueAsPredicted() returns (p: Point)
      requires track.lastPredictedPoint.Some?
      modifies track, ellipse
      ensures track.State() == Applied(old(track.State()), track.steps, old(track.lastPredictedPoint).value)
      ensures track.currentPosition == Some(p)
      ensures ellipse != null ==> ellipse.center == p
    {
      p := Apply(track.lastPredictedPoint.value);
    }
  }
}
