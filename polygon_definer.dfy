/** Interactive polygon definition: mouse presses, releases and moves edit a
    list of points, each snapped to the edges of the view when it lies
    within 10 pixels of one and then scaled from view to image pixels. The
    drawer and the completion callback are recorded as the calls made to
    them. */
module Polygon {
  import opened Geometry

  /** Points this close to an edge (in view pixels) are moved onto it. */
  const SnapDist: real := 10.0

  /** `snapToEdge` for one coordinate `v` in a view `extent` long: near the
      low edge it becomes 0, else near the high edge it becomes `extent`,
      else it is unchanged. */
  function SnapCoord(v: real, extent: real): (r: real)
    ensures v < SnapDist ==> r == 0.0
    ensures v >= SnapDist && extent - v < SnapDist ==> r == extent
    ensures v >= SnapDist && extent - v >= SnapDist ==> r == v
  {
    if v < SnapDist then 0.0 else if extent - v < SnapDist then extent else v
  }

  /** `snapToEdge`: x and y are snapped independently. */
  function SnapToEdge(x: real, y: real, width: real, height: real): (p: Point)
    ensures p.x == SnapCoord(x, width) && p.y == SnapCoord(y, height)
  {
    Point(SnapCoord(x, width), SnapCoord(y, height))
  }

  /** A snapped coordinate never lies outside the view. */
  lemma SnapInRange(v: real, extent: real)
    requires extent >= 0.0
    ensures 0.0 <= SnapCoord(v, extent) <= extent
  {
  }

  /** A snapped point lies in the view rectangle. */
  lemma SnappedPointInView(x: real, y: real, width: real, height: real)
    requires width >= 0.0 && height >= 0.0
    ensures var p := SnapToEdge(x, y, width, height);
      0.0 <= p.x <= width && 0.0 <= p.y <= height
  {
    SnapInRange(x, width);
    SnapInRange(y, height);
  }

  /** In a view at least 10 long, snapping a snapped coordinate changes
      nothing more. */
  lemma SnapIdempotent(v: real, extent: real)
    requires extent >= SnapDist
    ensures SnapCoord(SnapCoord(v, extent), extent) == SnapCoord(v, extent)
  {
  }

  /** A coordinate at least 10 from both edges is left where it is. */
  lemma InteriorUnchanged(v: real, extent: real)
    requires SnapDist <= v <= extent - SnapDist
    ensures SnapCoord(v, extent) == v
  {
  }

  datatype Button = Primary | Secondary | Middle

  /** A mouse event: the button, the position in the view, the view's local
      width and height, and the view-to-image scale factors (image size over
      the view's size in its parent) taken when the event arrives. */
  datatype MouseEvent = MouseEvent(button: Button, x: real, y: real, width: real, height: real,
                                   scaleX: real, scaleY: real)

  /** `getMousePoint`: the snapped position scaled to image pixels
      (`scalePointToImage`). */
  function MousePoint(e: MouseEvent): (p: Point)
    ensures p.x == SnapCoord(e.x, e.width) * e.scaleX && p.y == SnapCoord(e.y, e.height) * e.scaleY
  {
    var s := SnapToEdge(e.x, e.y, e.width, e.height);
    Point(s.x * e.scaleX, s.y * e.scaleY)
  }

  /** A mouse point lies in the image when the view and scales are not negative. */
  lemma MousePointInImage(e: MouseEvent)
    requires e.width >= 0.0 && e.height >= 0.0 && e.scaleX >= 0.0 && e.scaleY >= 0.0
    ensures var p := MousePoint(e);
      0.0 <= p.x <= e.width * e.scaleX && 0.0 <= p.y <= e.height * e.scaleY
  {
    var s := SnapToEdge(e.x, e.y, e.width, e.height);
    SnappedPointInView(e.x, e.y, e.width, e.height);
    assert 0.0 <= s.x * e.scaleX <= e.width * e.scaleX;
    assert 0.0 <= s.y * e.scaleY <= e.height * e.scaleY;
  }

  /** `PolygonDefiner` once drawing has started. */
  class PolygonDefiner {
    var points: seq<Point>
    /** The point lists passed to `drawPoly`, in call order. */
    var drawn: seq<seq<Point>>
    /** How many times the completion callback was called. */
    var finishedCalls: nat

    constructor ()
      ensures points == [] && drawn == [] && finishedCalls == 0
    {
      points := [];
      drawn := [];
      finishedCalls := 0;
    }

    /** Mouse pressed: with any button but the secondary one, the first
        point of the polygon is added, and only when there is none yet. */
    method Press(e: MouseEvent)
      modifies this
      ensures points == Handle(old(points), Pressed(e))
      ensures drawn == old(drawn) + if e.button != Secondary && |old(points)| == 0 then [points] else []
      ensures finishedCalls == old(finishedCalls)
    {
      if e.button != Secondary {
        if |points| == 0 {
          points := points + [MousePoint(e)];
          drawn := drawn + [points];
        }
      }
    }

    /** Mouse released: the secondary button removes the last point and
        finishes the polygon; any other button appends a point. Removing
        from an empty list throws (`thrown`) and changes nothing. */
    method Release(e: MouseEvent) returns (thrown: bool)
      modifies this
      ensures thrown <==> e.button == Secondary && |old(points)| == 0
      ensures points == Handle(old(points), Released(e))
      ensures drawn == old(drawn) + if e.button != Secondary then [points] else []
      ensures finishedCalls == old(finishedCalls) + if e.button == Secondary && !thrown then 1 else 0
    {
      thrown := false;
      if e.button == Secondary {
        if |points| == 0 {
          thrown := true;
          return;
        }
        points := points[..|points| - 1];
        finishedCalls := finishedCalls + 1;
      } else {
        points := points + [MousePoint(e)];
        drawn := drawn + [points];
      }
    }

    /** Mouse moved or dragged: with more than one point, the last one
        follows the mouse; the number of points never changes. */
    method Move(e: MouseEvent)
      modifies this
      ensures points == Handle(old(points), Moved(e))
      ensures drawn == old(drawn) + if |old(points)| > 1 then [points] else []
      ensures finishedCalls == old(finishedCalls)
    {
      var np := |points|;
      if np > 1 {
        points := points[np - 1 := MousePoint(e)];
        drawn := drawn + [points];
      }
    }
  }

  /** The three mouse handlers. */
  datatype Event = Pressed(e: MouseEvent) | Released(e: MouseEvent) | Moved(e: MouseEvent)

  /** The point list after one event, as its handler leaves it (a release
      that throws leaves it alone). */
  function Handle(ps: seq<Point>, ev: Event): (r: seq<Point>)
    ensures ev.Pressed? ==> |r| == if ev.e.button != Secondary && |ps| == 0 then 1 else |ps|
    ensures ev.Released? ==> |r| == if ev.e.button != Secondary then |ps| + 1 else if |ps| == 0 then 0 else |ps| - 1
    ensures ev.Moved? ==> |r| == |ps|
    ensures forall k :: 0 <= k < |r| ==> r[k] in ps || r[k] == MousePoint(ev.e)
  {
    var p := MousePoint(ev.e);
    match ev
    case Pressed(e) => if e.button != Secondary && |ps| == 0 then [p] else ps
    case Released(e) =>
      if e.button != Secondary then ps + [p]
      else if |ps| == 0 then ps
      else ps[..|ps| - 1]
    case Moved(e) => if |ps| > 1 then ps[..|ps| - 1] + [p] else ps
  }

  /** The points after a sequence of events. */
  function AfterEvents(points: seq<Point>, events: seq<Event>): seq<Point> {
    if |events| == 0 then points
    else Handle(AfterEvents(points, events[..|events| - 1]), events[|events| - 1])
  }

  predicate InImage(ps: seq<Point>, w: real, h: real) {
    forall k :: 0 <= k < |ps| ==> 0.0 <= ps[k].x <= w && 0.0 <= ps[k].y <= h
  }

  /** The view and scales of an event are not negative and map the view
      into a `w` by `h` image. */
  predicate FitsImage(e: MouseEvent, w: real, h: real) {
    && e.width >= 0.0 && e.height >= 0.0 && e.scaleX >= 0.0 && e.scaleY >= 0.0
    && e.width * e.scaleX <= w && e.height * e.scaleY <= h
  }

  /** One handler keeps every point in the image. */
  lemma HandleInImage(ps: seq<Point>, ev: Event, w: real, h: real)
    requires InImage(ps, w, h) && FitsImage(ev.e, w, h)
    ensures InImage(Handle(ps, ev), w, h)
  {
    MousePointInImage(ev.e);
    var p := MousePoint(ev.e);
    if |ps| > 0 {
      assert InImage(ps[..|ps| - 1], w, h);
    }
    assert InImage([p], w, h);
  }

  /** With views and scales that fit the image, every point the handlers
      put in the list lies in the image, whatever the order of events. */
  lemma {:induction false} PointsStayInImage(points: seq<Point>, events: seq<Event>, w: real, h: real)
    requires InImage(points, w, h)
    requires forall k :: 0 <= k < |events| ==> FitsImage(events[k].e, w, h)
    ensures InImage(AfterEvents(points, events), w, h)
  {
    if |events| > 0 {
      var n := |events| - 1;
      PointsStayInImage(points, events[..n], w, h);
      HandleInImage(AfterEvents(points, events[..n]), events[n], w, h);
    }
  }

  /** A secondary release right after a primary release (on a list that
      had points) gives back the list from before the pair. */
  lemma ReleaseThenUndo(ps: seq<Point>, a: MouseEvent, b: MouseEvent)
    requires a.button != Secondary && b.button == Secondary
    ensures Handle(Handle(ps, Released(a)), Released(b)) == ps
  {
    assert (ps + [MousePoint(a)])[..|ps|] == ps;
  }
}
