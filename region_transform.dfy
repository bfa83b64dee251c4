/** `Region.transformForParams`: moving a region between raw-video
    coordinates and processed-frame coordinates by the video's rotation and
    resize. It lives in its own module because it needs both the region
    operations and the parameter records. */
module RegionTransform {
  import opened Geometry
  import opened Region
  import opened Util
  import Params

  /** The frame sizes the transform can be applied to without dividing by 0. */
  predicate Transformable(p: Params.SrcVideoParams, inSize: Size) {
    p.resizeWidth != 0.0 ==> p.angle.RotateSize(inSize).width != 0.0
  }

  /** `transformForParams`. Forward: rotate on the `inSize` frame, then scale
      by rotated width / `resizeWidth`. Reverse: with the negative rotation,
      scale by `resizeWidth` / rotated width, then rotate on the rotated frame. */
  function TransformForParams(r: Region, p: Params.SrcVideoParams, inSize: Size, reverse: bool): (t: Region)
    requires Transformable(p, inSize)
    ensures t.includeRegion == r.includeRegion && SameShape(t.points, r.points)
  {
    if reverse then
      var angle := p.angle.Negative();
      RotateSizeProperties(p.angle, inSize);
      var region := if p.resizeWidth != 0.0 then Scale(r, p.resizeWidth / angle.RotateSize(inSize).width) else r;
      angle.RotateRegion(region, angle.RotateSize(inSize))
    else
      var region := p.angle.RotateRegion(r, inSize);
      if p.resizeWidth != 0.0 then Scale(region, p.angle.RotateSize(inSize).width / p.resizeWidth) else region
  }

  /** With no rotation and no resizing the region comes back unchanged, in either direction. */
  lemma TransformIdentity(r: Region, p: Params.SrcVideoParams, inSize: Size, reverse: bool)
    requires p.angle == NoRotation && p.resizeWidth == 0.0
    ensures TransformForParams(r, p, inSize, reverse) == r
  {
  }

  /** Scaling by a nonzero factor and then by its reciprocal changes nothing. */
  lemma ScaleReciprocal(r: Region, k: real)
    requires k != 0.0
    ensures Scale(Scale(r, k), 1.0 / k) == r
  {
    var t := 1.0 / k;
    ScaleTwice(r, k, t);
    var one := k * t;
    assert one == 1.0;
    ScaleByOne(r);
  }

  /** The reverse transform undoes the forward one. */
  lemma ReverseUndoesForward(r: Region, p: Params.SrcVideoParams, inSize: Size)
    requires Transformable(p, inSize)
    ensures TransformForParams(TransformForParams(r, p, inSize, false), p, inSize, true) == r
  {
    var a, size2 := p.angle, p.angle.RotateSize(inSize);
    RotateSizeProperties(a, inSize);
    var rotated := a.RotateRegion(r, inSize);
    if p.resizeWidth != 0.0 {
      var k := size2.width / p.resizeWidth;
      assert p.resizeWidth / size2.width == 1.0 / k;
      ScaleReciprocal(rotated, k);
    }
    RotateRegionRoundTrip(a, r, inSize);
  }

  /** The forward transform undoes the reverse one. */
  lemma ForwardUndoesReverse(r: Region, p: Params.SrcVideoParams, inSize: Size)
    requires Transformable(p, inSize)
    ensures TransformForParams(TransformForParams(r, p, inSize, true), p, inSize, false) == r
  {
    var a := p.angle;
    var neg, size2 := a.Negative(), a.RotateSize(inSize);
    RotateSizeProperties(a, inSize);
    NegativeInvolution(a);
    RotateSizeProperties(neg, size2);
    var scaled := if p.resizeWidth != 0.0 then Scale(r, p.resizeWidth / size2.width) else r;
    RotateRegionRoundTrip(neg, scaled, size2);
    assert a.RotateRegion(neg.RotateRegion(scaled, size2), inSize) == scaled;
    if p.resizeWidth != 0.0 {
      var k := p.resizeWidth / size2.width;
      assert size2.width / p.resizeWidth == 1.0 / k;
      ScaleReciprocal(r, k);
    }
  }
}
