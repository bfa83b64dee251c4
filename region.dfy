/** A spatial region: a set of polygons with a flag saying whether the area of
    interest is inside or outside them. Transforms build new regions point by
    point and never change the receiver. */
module Region {
  import opened Geometry

  datatype Region = Region(includeRegion: bool, points: seq<seq<Point>>)

  /** The region made of one rectangle, corners listed top-left, bottom-left,
      bottom-right, top-right. */
  function FromRect(includeRegion: bool, rect: Rect): (r: Region) {
    var x, y, w, h := rect.x as real, rect.y as real, rect.width as real, rect.height as real;
    Region(includeRegion, [[Point(x, y), Point(x, y + h), Point(x + w, y + h), Point(x + w, y)]])
  }

  /** `op` applied to every point of one polygon, order kept. */
  function MapList(ps: seq<Point>, op: Point -> Point): (r: seq<Point>)
    ensures |r| == |ps|
  {
    seq(|ps|, j requires 0 <= j < |ps| => op(ps[j]))
  }

  /** `op` applied to every point of every polygon: the value `transformPoints` builds. */
  function MapPoints(pp: seq<seq<Point>>, op: Point -> Point): (r: seq<seq<Point>>)
    ensures |r| == |pp|
    ensures forall i :: 0 <= i < |pp| ==> |r[i]| == |pp[i]|
    ensures forall i, j :: 0 <= i < |pp| && 0 <= j < |pp[i]| ==> r[i][j] == op(pp[i][j])
  {
    seq(|pp|, i requires 0 <= i < |pp| => MapList(pp[i], op))
  }

  /** The accumulator loop of `transformPoints`: a fresh list of fresh lists,
      one transformed point for each original point. */
  method TransformPoints(pp: seq<seq<Point>>, op: Point -> Point) returns (p: seq<seq<Point>>)
    ensures p == MapPoints(pp, op)
  {
    p := [];
    for i := 0 to |pp|
      invariant |p| == i
      invariant forall k :: 0 <= k < i ==> p[k] == MapList(pp[k], op)
    {
      var np: seq<Point> := [];
      for j := 0 to |pp[i]|
        invariant |np| == j
        invariant forall k :: 0 <= k < j ==> np[k] == op(pp[i][k])
      {
        np := np + [op(pp[i][j])];
      }
      p := p + [np];
    }
  }

  /** Two polygon lists with the same shape: same polygon count and the same
      number of points in each polygon. */
  predicate SameShape(a: seq<seq<Point>>, b: seq<seq<Point>>) {
    |a| == |b| && forall i :: 0 <= i < |a| ==> |a[i]| == |b[i]|
  }

  function ScalePoint(q: Point, s: real): Point {
    Point(q.x * s, q.y * s)
  }

  /** Every coordinate multiplied by `s` (scaling about the origin). */
  function Scale(r: Region, s: real): (t: Region)
    ensures t.includeRegion == r.includeRegion && SameShape(t.points, r.points)
  {
    Region(r.includeRegion, MapPoints(r.points, q => ScalePoint(q, s)))
  }

  function TranslatePoint(q: Point, dx: real, dy: real): Point {
    Point(q.x + dx, q.y + dy)
  }

  /** Every point moved by (dx, dy). */
  function Translate(r: Region, dx: real, dy: real): (t: Region)
    ensures t.includeRegion == r.includeRegion && SameShape(t.points, r.points)
  {
    Region(r.includeRegion, MapPoints(r.points, q => TranslatePoint(q, dx, dy)))
  }

  /** Rotation of `q` about `origin` by the angle whose cosine and sine are given. */
  function RotatePoint(q: Point, cosA: real, sinA: real, origin: Point): Point {
    Point((q.x - origin.x) * cosA - (q.y - origin.y) * sinA + origin.x,
          (q.x - origin.x) * sinA + (q.y - origin.y) * cosA + origin.y)
  }

  /** Every point rotated about `origin`; the caller supplies the cosine and
      sine of the angle (trigonometry is not modelled). */
  function Rotate(r: Region, cosA: real, sinA: real, origin: Point): (t: Region)
    ensures t.includeRegion == r.includeRegion && SameShape(t.points, r.points)
  {
    Region(r.includeRegion, MapPoints(r.points, q => RotatePoint(q, cosA, sinA, origin)))
  }

  /** The four angles, in degrees, at which the core rotates regions. */
  datatype QuarterTurn = Deg0 | Deg90 | DegMinus90 | Deg180 {
    function Degrees(): int {
      match this
      case Deg0 => 0
      case Deg90 => 90
      case DegMinus90 => -90
      case Deg180 => 180
    }
    /** The exact cosine of the angle. */
    function Cos(): real {
      match this
      case Deg0 => 1.0
      case Deg90 => 0.0
      case DegMinus90 => 0.0
      case Deg180 => -1.0
    }
    /** The exact sine of the angle. */
    function Sin(): real {
      match this
      case Deg0 => 0.0
      case Deg90 => 1.0
      case DegMinus90 => -1.0
      case Deg180 => 0.0
    }
  }

  /** `rotate(angle)`: rotation about (0, 0) by a quarter-turn multiple, with exact cosine and sine. */
  function RotateQuarter(r: Region, a: QuarterTurn): (t: Region)
    ensures t.includeRegion == r.includeRegion && SameShape(t.points, r.points)
  {
    Rotate(r, a.Cos(), a.Sin(), Point(0.0, 0.0))
  }

  /** Rotating about a pivot leaves the pivot where it is, whatever the angle. */
  lemma RotateFixesPivot(r: Region, cosA: real, sinA: real, origin: Point, i: nat, j: nat)
    requires i < |r.points| && j < |r.points[i]| && r.points[i][j] == origin
    ensures Rotate(r, cosA, sinA, origin).points[i][j] == origin
  {
  }

  /** A quarter turn of +90 degrees sends (x, y) to (-y, x); -90 sends it to
      (y, -x); 180 sends it to (-x, -y). */
  lemma QuarterTurnCoordinates(r: Region, i: nat, j: nat)
    requires i < |r.points| && j < |r.points[i]|
    ensures var q := r.points[i][j];
      && RotateQuarter(r, Deg90).points[i][j] == Point(-q.y, q.x)
      && RotateQuarter(r, DegMinus90).points[i][j] == Point(q.y, -q.x)
      && RotateQuarter(r, Deg180).points[i][j] == Point(-q.x, -q.y)
      && RotateQuarter(r, Deg0).points[i][j] == q
  {
  }

  /** Transforming twice is transforming once by the composed operation. */
  lemma MapPointsCompose(pp: seq<seq<Point>>, f: Point -> Point, g: Point -> Point, h: Point -> Point)
    requires forall q :: h(q) == g(f(q))
    ensures MapPoints(MapPoints(pp, f), g) == MapPoints(pp, h)
  {
    var a, b := MapPoints(MapPoints(pp, f), g), MapPoints(pp, h);
    forall i | 0 <= i < |pp|
      ensures a[i] == b[i]
    {
      assert |a[i]| == |b[i]|;
      forall j | 0 <= j < |pp[i]|
        ensures a[i][j] == b[i][j]
      {
      }
    }
  }

  /** A transform that changes no point gives back the same polygons. */
  lemma MapPointsIdentity(pp: seq<seq<Point>>, f: Point -> Point)
    requires forall q :: f(q) == q
    ensures MapPoints(pp, f) == pp
  {
    var a := MapPoints(pp, f);
    forall i | 0 <= i < |pp|
      ensures a[i] == pp[i]
    {
      assert |a[i]| == |pp[i]|;
    }
  }

  /** Translations compose by adding their offsets. */
  lemma TranslateTwice(r: Region, a: real, b: real, c: real, d: real)
    ensures Translate(Translate(r, a, b), c, d) == Translate(r, a + c, b + d)
  {
    MapPointsCompose(r.points, q => TranslatePoint(q, a, b), q => TranslatePoint(q, c, d),
                     q => TranslatePoint(q, a + c, b + d));
  }

  /** Scalings compose by multiplying their factors. */
  lemma ScaleTwice(r: Region, s: real, t: real)
    ensures Scale(Scale(r, s), t) == Scale(r, s * t)
  {
    forall q: Point ensures ScalePoint(ScalePoint(q, s), t) == ScalePoint(q, s * t) {
      calc {
        q.x * s * t;
        q.x * (s * t);
      }
      calc {
        q.y * s * t;
        q.y * (s * t);
      }
    }
    MapPointsCompose(r.points, q => ScalePoint(q, s), q => ScalePoint(q, t), q => ScalePoint(q, s * t));
  }

  /** Scaling by 1 changes nothing. */
  lemma ScaleByOne(r: Region)
    ensures Scale(r, 1.0) == r
  {
    MapPointsIdentity(r.points, q => ScalePoint(q, 1.0));
  }

  // ---------------------------------------------------------------------
  // Bounds

  /** All points of all polygons, polygon by polygon, in order. */
  function Flat(pp: seq<seq<Point>>): seq<Point> {
    if |pp| == 0 then [] else Flat(pp[..|pp| - 1]) + pp[|pp| - 1]
  }

  /** `Math.max` folded over the x (or y) coordinates of `ps`, from `init`. */
  function MaxFold(init: real, ps: seq<Point>, useX: bool): real {
    if |ps| == 0 then init
    else
      var c := if useX then ps[|ps| - 1].x else ps[|ps| - 1].y;
      var m0 := MaxFold(init, ps[..|ps| - 1], useX);
      if m0 >= c then m0 else c
  }

  /** `Math.min` folded over the x (or y) coordinates of `ps`, from `init`. */
  function MinFold(init: real, ps: seq<Point>, useX: bool): real {
    if |ps| == 0 then init
    else
      var c := if useX then ps[|ps| - 1].x else ps[|ps| - 1].y;
      var m0 := MinFold(init, ps[..|ps| - 1], useX);
      if m0 <= c then m0 else c
  }

  /** The max fold is at least its start and at least every coordinate. */
  lemma {:induction false} MaxFoldBounds(init: real, ps: seq<Point>, useX: bool)
    ensures MaxFold(init, ps, useX) >= init
    ensures forall k :: 0 <= k < |ps| ==> MaxFold(init, ps, useX) >= (if useX then ps[k].x else ps[k].y)
  {
    if |ps| > 0 {
      MaxFoldBounds(init, ps[..|ps| - 1], useX);
    }
  }

  /** The min fold is at most its start and at most every coordinate. */
  lemma {:induction false} MinFoldBounds(init: real, ps: seq<Point>, useX: bool)
    ensures MinFold(init, ps, useX) <= init
    ensures forall k :: 0 <= k < |ps| ==> MinFold(init, ps, useX) <= (if useX then ps[k].x else ps[k].y)
  {
    if |ps| > 0 {
      MinFoldBounds(init, ps[..|ps| - 1], useX);
    }
  }

  /** A fold started from `init` ends at `init` or at one of the coordinates. */
  lemma {:induction false} MaxFoldAttained(init: real, ps: seq<Point>, useX: bool)
    ensures MaxFold(init, ps, useX) == init
            || exists k :: 0 <= k < |ps| && MaxFold(init, ps, useX) == (if useX then ps[k].x else ps[k].y)
  {
    if |ps| > 0 {
      MaxFoldAttained(init, ps[..|ps| - 1], useX);
    }
  }

  /** A fold started from `init` ends at `init` or at one of the coordinates. */
  lemma {:induction false} MinFoldAttained(init: real, ps: seq<Point>, useX: bool)
    ensures MinFold(init, ps, useX) == init
            || exists k :: 0 <= k < |ps| && MinFold(init, ps, useX) == (if useX then ps[k].x else ps[k].y)
  {
    if |ps| > 0 {
      MinFoldAttained(init, ps[..|ps| - 1], useX);
    }
  }

  /** One more point moves each fold by one `Math.min`/`Math.max` step. */
  lemma FoldAppend(lowInit: real, highInit: real, xs: seq<Point>, q: Point, useX: bool)
    ensures var c := if useX then q.x else q.y;
      var lo := MinFold(lowInit, xs, useX);
      var hi := MaxFold(highInit, xs, useX);
      && MinFold(lowInit, xs + [q], useX) == (if lo <= c then lo else c)
      && MaxFold(highInit, xs + [q], useX) == (if hi >= c then hi else c)
  {
    assert (xs + [q])[..|xs|] == xs;
  }

  lemma FlatAppend(pp: seq<seq<Point>>, i: nat)
    requires i < |pp|
    ensures Flat(pp[..i + 1]) == Flat(pp[..i]) + pp[i]
  {
    assert pp[..i + 1][..i] == pp[..i];
  }

  /** The nested accumulator loop of `bounds`, started from the given initial
      corner values. Returns the minimum and maximum corners. */
  method FoldCorners(pp: seq<seq<Point>>, lowInit: real, highInit: real) returns (low: Point, high: Point)
    ensures low == Point(MinFold(lowInit, Flat(pp), true), MinFold(lowInit, Flat(pp), false))
    ensures high == Point(MaxFold(highInit, Flat(pp), true), MaxFold(highInit, Flat(pp), false))
  {
    var minX, minY, maxX, maxY := lowInit, lowInit, highInit, highInit;
    ghost var seen: seq<Point> := [];
    for i := 0 to |pp|
      invariant seen == Flat(pp[..i])
      invariant minX == MinFold(lowInit, seen, true) && minY == MinFold(lowInit, seen, false)
      invariant maxX == MaxFold(highInit, seen, true) && maxY == MaxFold(highInit, seen, false)
    {
      minX, minY, maxX, maxY := FoldRow(pp[i], lowInit, highInit, seen, minX, minY, maxX, maxY);
      seen := seen + pp[i];
      FlatAppend(pp, i);
    }
    assert pp[..|pp|] == pp;
    low, high := Point(minX, minY), Point(maxX, maxY);
  }

  /** The inner loop of `FoldCorners`, over the points of one polygon,
      continuing the corners of the points `done` before it. */
  method FoldRow(row: seq<Point>, lowInit: real, highInit: real, ghost done: seq<Point>,
                 minX0: real, minY0: real, maxX0: real, maxY0: real)
    returns (minX: real, minY: real, maxX: real, maxY: real)
    requires minX0 == MinFold(lowInit, done, true) && minY0 == MinFold(lowInit, done, false)
    requires maxX0 == MaxFold(highInit, done, true) && maxY0 == MaxFold(highInit, done, false)
    ensures minX == MinFold(lowInit, done + row, true) && minY == MinFold(lowInit, done + row, false)
    ensures maxX == MaxFold(highInit, done + row, true) && maxY == MaxFold(highInit, done + row, false)
  {
    minX, minY, maxX, maxY := minX0, minY0, maxX0, maxY0;
    ghost var seen := done;
    for j := 0 to |row|
      invariant seen == done + row[..j]
      invariant minX == MinFold(lowInit, seen, true) && minY == MinFold(lowInit, seen, false)
      invariant maxX == MaxFold(highInit, seen, true) && maxY == MaxFold(highInit, seen, false)
    {
      var q := row[j];
      minX, minY, maxX, maxY := FoldPoint(q, lowInit, highInit, seen, minX, minY, maxX, maxY);
      assert row[..j + 1] == row[..j] + [q];
      seen := seen + [q];
    }
    assert row[..|row|] == row;
  }

  /** One point of the inner loop of `FoldCorners`. */
  method FoldPoint(q: Point, lowInit: real, highInit: real, ghost seen: seq<Point>,
                   minX0: real, minY0: real, maxX0: real, maxY0: real)
    returns (minX: real, minY: real, maxX: real, maxY: real)
    requires minX0 == MinFold(lowInit, seen, true) && minY0 == MinFold(lowInit, seen, false)
    requires maxX0 == MaxFold(highInit, seen, true) && maxY0 == MaxFold(highInit, seen, false)
    ensures minX == MinFold(lowInit, seen + [q], true) && minY == MinFold(lowInit, seen + [q], false)
    ensures maxX == MaxFold(highInit, seen + [q], true) && maxY == MaxFold(highInit, seen + [q], false)
  {
    FoldAppend(lowInit, highInit, seen, q, true);
    FoldAppend(lowInit, highInit, seen, q, false);
    minX := if minX0 <= q.x then minX0 else q.x;
    maxX := if maxX0 >= q.x then maxX0 else q.x;
    minY := if minY0 <= q.y then minY0 else q.y;
    maxY := if maxY0 >= q.y then maxY0 else q.y;
  }

  /** `bounds` as written: the maxima start from Double.MIN_VALUE, the
      smallest positive double, so they can never be below it. */
  method BoundsAsWritten(r: Region) returns (low: Point, high: Point)
    ensures low == Point(MinFold(MaxValue, Flat(r.points), true), MinFold(MaxValue, Flat(r.points), false))
    ensures high == Point(MaxFold(MinValue, Flat(r.points), true), MaxFold(MinValue, Flat(r.points), false))
    ensures high.x >= MinValue && high.y >= MinValue
  {
    low, high := FoldCorners(r.points, MaxValue, MinValue);
    MaxFoldBounds(MinValue, Flat(r.points), true);
    MaxFoldBounds(MinValue, Flat(r.points), false);
  }

  /** For a region lying entirely left of the y-axis, the as-written maximum x
      is Double.MIN_VALUE, which is no point's coordinate. */
  lemma BoundsAsWrittenMissesNegativeMax()
    ensures var ps := Flat(Region(true, [[Point(-2.0, 1.0), Point(-1.0, 1.0)]]).points);
      MaxFold(MinValue, ps, true) == MinValue
      && forall k :: 0 <= k < |ps| ==> ps[k].x < MaxFold(MinValue, ps, true)
  {
    var ps := Flat([[Point(-2.0, 1.0), Point(-1.0, 1.0)]]);
    assert ps == [Point(-2.0, 1.0), Point(-1.0, 1.0)] by {
      assert Flat([[Point(-2.0, 1.0), Point(-1.0, 1.0)]][..0]) == [];
    }
    assert ps[..1][..0] == [];
  }

  /** `bounds` with the maxima started from -Double.MAX_VALUE: the returned
      corners enclose every point and, for a non-empty region of finite
      coordinates, are attained by points of the region. */
  method Bounds(r: Region) returns (low: Point, high: Point)
    ensures forall q :: q in Flat(r.points) ==> low.x <= q.x <= high.x && low.y <= q.y <= high.y
    ensures (|Flat(r.points)| > 0 && forall q :: q in Flat(r.points) ==> IsFinite(q.x) && IsFinite(q.y)) ==>
      && (exists q :: q in Flat(r.points) && q.x == low.x) && (exists q :: q in Flat(r.points) && q.y == low.y)
      && (exists q :: q in Flat(r.points) && q.x == high.x) && (exists q :: q in Flat(r.points) && q.y == high.y)
  {
    low, high := FoldCorners(r.points, MaxValue, -MaxValue);
    var ps := Flat(r.points);
    MinFoldBounds(MaxValue, ps, true);
    MinFoldBounds(MaxValue, ps, false);
    MaxFoldBounds(-MaxValue, ps, true);
    MaxFoldBounds(-MaxValue, ps, false);
    if |ps| > 0 && forall q :: q in ps ==> IsFinite(q.x) && IsFinite(q.y) {
      MinFoldAttained(MaxValue, ps, true);
      MinFoldAttained(MaxValue, ps, false);
      MaxFoldAttained(-MaxValue, ps, true);
      MaxFoldAttained(-MaxValue, ps, false);
      assert ps[0] in ps;
    }
  }

  /** The bounds of a rectangle's region are the rectangle's own corners,
      whenever they are finite doubles. */
  lemma RectRegionBounds(includeRegion: bool, rect: Rect)
    requires rect.width >= 0 && rect.height >= 0
    requires IsFinite(rect.x as real) && IsFinite(rect.y as real)
    requires IsFinite((rect.x + rect.width) as real) && IsFinite((rect.y + rect.height) as real)
    ensures var ps := Flat(FromRect(includeRegion, rect).points);
      && MinFold(MaxValue, ps, true) == rect.x as real && MinFold(MaxValue, ps, false) == rect.y as real
      && MaxFold(-MaxValue, ps, true) == (rect.x + rect.width) as real
      && MaxFold(-MaxValue, ps, false) == (rect.y + rect.height) as real
  {
    var pp := FromRect(includeRegion, rect).points;
    assert |pp| == 1 && pp[..0] == [];
    assert Flat(pp[..0]) == [];
    assert Flat(pp) == [] + pp[0] == pp[0];
    CornerFolds(rect.x as real, rect.y as real, rect.width as real, rect.height as real);
  }

  /** The folds over the four corners of a rectangle with finite corners. */
  lemma CornerFolds(x: real, y: real, w: real, h: real)
    requires w >= 0.0 && h >= 0.0 && IsFinite(x) && IsFinite(y) && IsFinite(x + w) && IsFinite(y + h)
    ensures var ps := [Point(x, y), Point(x, y + h), Point(x + w, y + h), Point(x + w, y)];
      && MinFold(MaxValue, ps, true) == x && MinFold(MaxValue, ps, false) == y
      && MaxFold(-MaxValue, ps, true) == x + w && MaxFold(-MaxValue, ps, false) == y + h
  {
    var ps := [Point(x, y), Point(x, y + h), Point(x + w, y + h), Point(x + w, y)];
    var ps3 := [Point(x, y), Point(x, y + h), Point(x + w, y + h)];
    var ps2 := [Point(x, y), Point(x, y + h)];
    var ps1 := [Point(x, y)];
    assert ps[..3] == ps3 && ps3[..2] == ps2 && ps2[..1] == ps1 && ps1[..0] == [];
    assert MinFold(MaxValue, ps1, true) == x;
    assert MinFold(MaxValue, ps1, false) == y;
    assert MaxFold(-MaxValue, ps1, true) == x;
    assert MaxFold(-MaxValue, ps1, false) == y;
    assert MinFold(MaxValue, ps2, true) == x && MinFold(MaxValue, ps2, false) == y;
    assert MaxFold(-MaxValue, ps2, true) == x && MaxFold(-MaxValue, ps2, false) == y + h;
    assert MinFold(MaxValue, ps3, true) == x && MinFold(MaxValue, ps3, false) == y;
    assert MaxFold(-MaxValue, ps3, true) == x + w && MaxFold(-MaxValue, ps3, false) == y + h;
  }

  // ---------------------------------------------------------------------
  // Point inside

  /** Imgproc.pointPolygonTest with distance measurement: the signed distance
      from a point to a polygon's edge, positive inside. Not modelled; a parameter. */
  type PolygonTest = (seq<Point>, Point) -> real

  /** The polygon as OpenCV receives it: a MatOfPoint, whose coordinates are
      Java `(int)` casts of the region's doubles. */
  function IntPolygon(ps: seq<Point>): (r: seq<Point>)
    ensures |r| == |ps|
  {
    MapList(ps, (q: Point) => Point(TruncToInt(q.x) as real, TruncToInt(q.y) as real))
  }

  /** The value `pointInside` accumulates: starting from 0, the largest
      polygon test value seen. Never negative; at least every test value;
      either 0 or one of the test values. */
  function InsideOf(pp: seq<seq<Point>>, p: Point, test: PolygonTest): (d: real)
    ensures d >= 0.0
    ensures forall i :: 0 <= i < |pp| ==> d >= test(IntPolygon(pp[i]), p)
    ensures d == 0.0 || exists i :: 0 <= i < |pp| && d == test(IntPolygon(pp[i]), p)
  {
    if |pp| == 0 then 0.0
    else
      var d0 := InsideOf(pp[..|pp| - 1], p, test);
      var t := test(IntPolygon(pp[|pp| - 1]), p);
      if t > d0 then t else d0
  }

  /** `pointInside`: the loop over the polygons, keeping the largest test value above 0. */
  method PointInside(r: Region, p: Point, test: PolygonTest) returns (dist: real)
    ensures dist == InsideOf(r.points, p, test)
  {
    dist := 0.0;
    for i := 0 to |r.points|
      invariant dist == InsideOf(r.points[..i], p, test)
    {
      var d := test(IntPolygon(r.points[i]), p);
      assert r.points[..i + 1][..i] == r.points[..i];
      if d > dist {
        dist := d;
      }
    }
    assert r.points[..|r.points|] == r.points;
  }
}
