/** The difference detector: the foreground mask is dilated or eroded by the
    configured list of sizes, then every contour found in it is kept or
    dropped by its area, its length and the size of its fitted ellipse, and
    each kept contour becomes a detection at its centroid. The image
    operations (segmentation, morphology, contour finding, moments, arc
    length, ellipse fitting) are OpenCV's: the morphology steps are
    parameters, and a contour is given by its measurements. */
module Detection {
  import opened Wrappers
  import opened Geometry
  import Params
  import opened Tracker

  /** At most this many detections are collected before the rest are skipped;
      the check comes before adding, so one more than this can be kept. */
  const MaxContours: nat := 1000

  /** The least number of contour points an ellipse is fitted to. */
  const MinEllipsePoints: nat := 5

  // ---------------------------------------------------------------------
  // Dilation and erosion

  /** One morphology step on the mask: dilate or erode with an elliptic
      kernel of the given size. */
  datatype MorphOp = Dilate(size: real) | Erode(size: real)

  /** The step a configured size asks for: a positive size dilates by it, a
      negative one erodes by its magnitude and zero does nothing. */
  function OpFor(v: real): (op: Option<MorphOp>)
    ensures op == None <==> v == 0.0
    ensures op.Some? ==> (op.value.Dilate? <==> v > 0.0) && op.value.size > 0.0
    ensures op.Some? && op.value.Dilate? ==> op.value.size == v
    ensures op.Some? && op.value.Erode? ==> op.value.size == -v
  {
    if v > 0.0 then Some(Dilate(v)) else if v < 0.0 then Some(Erode(-v)) else None
  }

  /** One step applied to mask `m`, with OpenCV's dilate and erode given. */
  function ApplyOp<M>(m: M, v: real, dilate: (M, real) -> M, erode: (M, real) -> M): M {
    match OpFor(v)
    case None => m
    case Some(Dilate(s)) => dilate(m, s)
    case Some(Erode(s)) => erode(m, s)
  }

  /** The mask after the steps for `sizes`, applied in list order. */
  function Morph<M>(m: M, sizes: seq<real>, dilate: (M, real) -> M, erode: (M, real) -> M): M {
    if |sizes| == 0 then m else ApplyOp(Morph(m, sizes[..|sizes| - 1], dilate, erode), sizes[|sizes| - 1], dilate, erode)
  }

  /** The steps compose in list order: the steps of `a + b` are those of
      `a` followed by those of `b`. */
  lemma {:induction false} MorphAppend<M>(m: M, a: seq<real>, b: seq<real>, dilate: (M, real) -> M, erode: (M, real) -> M)
    ensures Morph(m, a + b, dilate, erode) == Morph(Morph(m, a, dilate, erode), b, dilate, erode)
    decreases |b|
  {
    if |b| == 0 {
      assert a + b == a;
    } else {
      var n := |b| - 1;
      assert (a + b)[..|a + b| - 1] == a + b[..n];
      MorphAppend(m, a, b[..n], dilate, erode);
    }
  }

  /** A zero size anywhere in the list changes nothing. */
  lemma ZeroSizeIsSkipped<M>(m: M, a: seq<real>, b: seq<real>, dilate: (M, real) -> M, erode: (M, real) -> M)
    ensures Morph(m, a + [0.0] + b, dilate, erode) == Morph(m, a + b, dilate, erode)
  {
    MorphAppend(m, a + [0.0], b, dilate, erode);
    MorphAppend(m, a, [0.0], dilate, erode);
    MorphAppend(m, a, b, dilate, erode);
    assert [0.0][..0] == [];
  }

  /** The dilation/erosion loop of `detect`, on the mask in place. */
  method ApplyMorphology<M>(foreground: M, sizes: seq<real>, dilate: (M, real) -> M, erode: (M, real) -> M)
    returns (m: M)
    ensures m == Morph(foreground, sizes, dilate, erode)
  {
    m := foreground;
    for i := 0 to |sizes|
      invariant m == Morph(foreground, sizes[..i], dilate, erode)
    {
      assert sizes[..i + 1][..i] == sizes[..i];
      var v := sizes[i];
      if v > 0.0 {
        m := dilate(m, v);
      } else if v < 0.0 {
        m := erode(m, -v);
      }
    }
    assert sizes[..|sizes|] == sizes;
  }

  // ---------------------------------------------------------------------
  // Contour filtering

  /** The fitted ellipse of a contour, as a value. */
  datatype Ellipse = Ellipse(center: Point, size: Size, angle: real)

  /** What `detect` measures of one contour: its area, its closed arc
      length, its number of points, its moments m00, m10 and m01 and the
      ellipse OpenCV fits to it (only used with at least five points). */
  datatype Contour = Contour(area: real, length: real, pointCount: nat,
                             m00: real, m10: real, m01: real, fitted: Ellipse)

  /** A contour passes the size filters: its area and then its length lie
      within the configured bounds, both ends included. */
  predicate Accepted(c: Contour, tp: Params.TrackerParams) {
    && tp.minContourArea <= c.area <= tp.maxContourArea
    && tp.minContourLength <= c.length <= tp.maxContourLength
  }

  /** An accepted contour with an ellipse is still dropped when the
      ellipse is wider or taller than `maxLength`. */
  predicate TooLong(c: Contour, tp: Params.TrackerParams) {
    c.pointCount >= MinEllipsePoints && (c.fitted.size.width > tp.maxLength || c.fitted.size.height > tp.maxLength)
  }

  /** A detection as a value: the centroid and the ellipse, if one was fitted. */
  datatype Found = Found(centroid: Point, ellipse: Option<Ellipse>)

  /** The centroid from the moments. The source divides by m00 whatever its
      value; a zero m00 (IEEE infinity or NaN) is not modelled. */
  function Centroid(c: Contour): (p: Point)
    requires c.m00 != 0.0
    ensures p.x * c.m00 == c.m10 && p.y * c.m00 == c.m01
  {
    Point(c.m10 / c.m00, c.m01 / c.m00)
  }

  /** The detection a kept contour becomes. */
  function FoundOf(c: Contour): Found
    requires c.m00 != 0.0
  {
    Found(Centroid(c), if c.pointCount >= MinEllipsePoints then Some(c.fitted) else None)
  }

  predicate Measurable(cs: seq<Contour>, tp: Params.TrackerParams) {
    forall i :: 0 <= i < |cs| && Accepted(cs[i], tp) ==> cs[i].m00 != 0.0
  }

  /** The detections of all contours that pass every filter, in contour
      order, with no limit on their number. */
  function Kept(cs: seq<Contour>, tp: Params.TrackerParams): seq<Found>
    requires Measurable(cs, tp)
  {
    if |cs| == 0 then []
    else
      var c := cs[|cs| - 1];
      Kept(cs[..|cs| - 1], tp) + if Accepted(c, tp) && !TooLong(c, tp) then [FoundOf(c)] else []
  }

  /** The result loop of `detect` over the contours: the detections so far
      and whether the loop has stopped at the limit. */
  function Scan(cs: seq<Contour>, tp: Params.TrackerParams): (res: (seq<Found>, bool))
    requires Measurable(cs, tp)
  {
    if |cs| == 0 then ([], false)
    else
      var (r, stopped) := Scan(cs[..|cs| - 1], tp);
      var c := cs[|cs| - 1];
      if stopped || !Accepted(c, tp) then (r, stopped)
      else if |r| > MaxContours then (r, true)
      else if TooLong(c, tp) then (r, false)
      else (r + [FoundOf(c)], false)
  }

  function Min(a: int, b: int): int {
    if a <= b then a else b
  }

  /** The loop's detections are exactly the filtered detections cut after
      MAX_CONTOURS + 1 of them; once it stops it has that many. */
  lemma {:induction false} ScanIsCutFilter(cs: seq<Contour>, tp: Params.TrackerParams)
    requires Measurable(cs, tp)
    ensures var (r, stopped) := Scan(cs, tp);
      var k := Kept(cs, tp);
      && r == k[..Min(|k|, MaxContours + 1)]
      && (stopped ==> |r| == MaxContours + 1)
  {
    if |cs| > 0 {
      var n := |cs| - 1;
      var front := cs[..n];
      assert Measurable(front, tp);
      ScanIsCutFilter(front, tp);
      var k := Kept(front, tp);
      var c := cs[n];
      var more := if Accepted(c, tp) && !TooLong(c, tp) then [FoundOf(c)] else [];
      assert Kept(cs, tp) == k + more;
      assert (k + more)[..|k|] == k;
      var r := Scan(front, tp).0;
      if |r| <= MaxContours {
        assert r == k;
        assert (k + more)[..Min(|k + more|, MaxContours + 1)] == k + more;
      } else {
        assert (k + more)[..MaxContours + 1] == k[..MaxContours + 1];
      }
    }
  }

  /** At most MAX_CONTOURS + 1 detections come out. */
  lemma ScanBound(cs: seq<Contour>, tp: Params.TrackerParams)
    requires Measurable(cs, tp)
    ensures |Scan(cs, tp).0| <= MaxContours + 1
  {
    ScanIsCutFilter(cs, tp);
  }

  /** Every detection is that of a contour passing every filter. */
  lemma {:induction false} KeptPassFilters(cs: seq<Contour>, tp: Params.TrackerParams, j: int)
    requires Measurable(cs, tp) && 0 <= j < |Kept(cs, tp)|
    ensures exists i :: 0 <= i < |cs| && Accepted(cs[i], tp) && !TooLong(cs[i], tp) && Kept(cs, tp)[j] == FoundOf(cs[i])
  {
    var n := |cs| - 1;
    var front := cs[..n];
    assert Measurable(front, tp);
    if j < |Kept(front, tp)| {
      KeptPassFilters(front, tp, j);
      var i :| 0 <= i < |front| && Accepted(front[i], tp) && !TooLong(front[i], tp) && Kept(front, tp)[j] == FoundOf(front[i]);
      assert cs[i] == front[i];
    } else {
      assert Kept(cs, tp)[j] == FoundOf(cs[n]);
    }
  }

  /** With the default parameters a contour smaller than 60 or larger than
      2000 in area is never kept. */
  lemma DefaultAreaBounds(c: Contour)
    requires c.area < 60.0 || c.area > 2000.0
    ensures !Accepted(c, Params.DefaultTrackerParams)
  {
  }

  /** The detections as the tracker receives them: fresh ellipse objects
      holding the fitted ellipse, or none. */
  ghost predicate Matches(result: seq<DetectedObject>, found: seq<Found>)
    reads set i | 0 <= i < |result| :: result[i].ellipse
  {
    && |result| == |found|
    && forall i :: 0 <= i < |result| ==>
         && result[i].centroid == found[i].centroid
         && (result[i].ellipse == null <==> found[i].ellipse.None?)
         && (result[i].ellipse != null ==>
               var e := found[i].ellipse.value;
               result[i].ellipse.center == e.center && result[i].ellipse.size == e.size && result[i].ellipse.angle == e.angle)
  }

  /** The contour loop of `detect`. */
  method DetectContours(cs: seq<Contour>, tp: Params.TrackerParams) returns (result: seq<DetectedObject>)
    requires Measurable(cs, tp)
    ensures Matches(result, Scan(cs, tp).0)
    ensures forall i :: 0 <= i < |result| ==> result[i].ellipse == null || fresh(result[i].ellipse)
  {
    result := [];
    ghost var stoppedAt := |cs|;
    for idx := 0 to |cs|
      invariant Scan(cs[..idx], tp) == (Scan(cs[..idx], tp).0, false)
      invariant Matches(result, Scan(cs[..idx], tp).0)
      invariant forall i :: 0 <= i < |result| ==> result[i].ellipse == null || fresh(result[i].ellipse)
    {
      var c := cs[idx];
      assert cs[..idx + 1][..idx] == cs[..idx];
      assert cs[..idx + 1][idx] == c;
      if Accepted(c, tp) {
        if |result| > MaxContours {
          StoppedStays(cs, tp, idx + 1);
          return;
        }
        var centroid := Point(c.m10 / c.m00, c.m01 / c.m00);
        if c.pointCount >= MinEllipsePoints {
          if c.fitted.size.width > tp.maxLength || c.fitted.size.height > tp.maxLength {
            continue;
          }
          var ell := new RotatedRect(c.fitted.center, c.fitted.size, c.fitted.angle);
          result := result + [DetectedObject(centroid, ell)];
        } else {
          result := result + [DetectedObject(centroid, null)];
        }
      }
    }
    assert cs[..|cs|] == cs;
  }

  /** Once the loop has stopped, later contours change nothing. */
  lemma {:induction false} StoppedStays(cs: seq<Contour>, tp: Params.TrackerParams, k: int)
    requires Measurable(cs, tp) && 0 <= k <= |cs| && Scan(cs[..k], tp).1
    ensures Scan(cs, tp) == Scan(cs[..k], tp)
    decreases |cs| - k
  {
    if k < |cs| {
      assert cs[..k + 1][..k] == cs[..k];
      assert Scan(cs[..k + 1], tp) == Scan(cs[..k], tp);
      StoppedStays(cs, tp, k + 1);
    } else {
      assert cs[..k] == cs;
    }
  }

  /** `detect`: the foreground mask (the segmenter's output) is dilated and
      eroded as configured, its contours are found and measured, and the
      contour loop turns them into detections. */
  method Detect<M>(foreground: M, tp: Params.TrackerParams, dilate: (M, real) -> M, erode: (M, real) -> M,
                   findContours: M -> seq<Contour>)
    returns (result: seq<DetectedObject>, ghost mask: M)
    requires Measurable(findContours(Morph(foreground, tp.dilationErosionSize, dilate, erode)), tp)
    ensures mask == Morph(foreground, tp.dilationErosionSize, dilate, erode)
    ensures Matches(result, Scan(findContours(mask), tp).0)
    ensures |result| <= MaxContours + 1
  {
    var m := ApplyMorphology(foreground, tp.dilationErosionSize, dilate, erode);
    mask := m;
    result := DetectContours(findContours(m), tp);
    ScanBound(findContours(m), tp);
  }
}
