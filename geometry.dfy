/** The OpenCV value types the core passes around (points, sizes, integer
    rectangles and rotated rectangles), the two double constants it uses as
    sentinels, and the distance function it measures with. */
module Geometry {

  /** org.opencv.core.Point, with doubles modelled as reals. */
  datatype Point = Point(x: real, y: real)

  /** org.opencv.core.Size. */
  datatype Size = Size(width: real, height: real)

  /** org.opencv.core.Rect: integer corner and extent. */
  datatype Rect = Rect(x: int, y: int, width: int, height: int)

  /** Double.MAX_VALUE, the largest finite double. */
  const MaxValue: real := 1.7976931348623157e308

  /** Double.MIN_VALUE, the smallest POSITIVE double (not the most negative one). */
  const MinValue: real := 4.9e-324

  /** A Java `double` that is finite: at most MaxValue in magnitude. */
  predicate IsFinite(r: real) {
    -MaxValue <= r <= MaxValue
  }

  /** Java's `(int)` cast of a double: truncation toward zero. */
  function TruncToInt(r: real): (n: int)
    ensures 0.0 <= r ==> n as real <= r < n as real + 1.0
    ensures r < 0.0 ==> n as real - 1.0 < r <= n as real
  {
    if r >= 0.0 then r.Floor else -((-r).Floor)
  }

  /** OpenCV's `new Rect(Point p, Size s)`: each coordinate cast to int. */
  function RectAt(p: Point, s: Size): Rect {
    Rect(TruncToInt(p.x), TruncToInt(p.y), TruncToInt(s.width), TruncToInt(s.height))
  }

  /** A distance between points. The source uses Math.hypot of the coordinate
      differences; floating-point square roots are not modelled, so the
      metric is a parameter, required only to behave like a distance. */
  type Metric = (Point, Point) -> real

  /** What the model relies on of Math.hypot(p.x - q.x, p.y - q.y):
      it is symmetric and zero from a point to itself. */
  ghost predicate IsDistance(dist: Metric) {
    forall p, q :: dist(p, q) == dist(q, p) && dist(p, p) == 0.0
  }

  /** org.opencv.core.RotatedRect, the fitted ellipse of a detection. Only
      its centre is ever updated by the core. */
  class RotatedRect {
    var center: Point
    const size: Size
    const angle: real

    constructor (center: Point, size: Size, angle: real)
      ensures this.center == center && this.size == size && this.angle == angle
    {
      this.center := center;
      this.size := size;
      this.angle := angle;
    }
  }
}
