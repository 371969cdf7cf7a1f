/** Board coordinates, wire segments, bounding boxes and the vertical flip. */
module Geometry {

  /** A point in board units (mils), as the (x, y) float tuple of brd2svg.py. */
  datatype Point = Point(x: real, y: real)

  /** One <wire> of the <plain> section: from (x1, y1) to (x2, y2). */
  datatype Segment = Segment(p1: Point, p2: Point)

  /** The tuple (minX, minY, maxX, maxY) that bounding_box returns. */
  datatype Box = Box(minX: real, minY: real, maxX: real, maxY: real)

  predicate Inside(p: Point, b: Box) {
    b.minX <= p.x <= b.maxX && b.minY <= p.y <= b.maxY
  }

  function Min(a: real, b: real): real { if a <= b then a else b }
  function Max(a: real, b: real): real { if a >= b then a else b }

  /**
   * bounding_box: the smallest box holding every point. Every point lies inside,
   * and each of the four bounds is the coordinate of some point.
   */
  function BoundingBox(pts: seq<Point>): (b: Box)
    requires |pts| > 0
    ensures b.minX <= b.maxX && b.minY <= b.maxY
    ensures forall i :: 0 <= i < |pts| ==> Inside(pts[i], b)
    ensures exists i :: 0 <= i < |pts| && pts[i].x == b.minX
    ensures exists i :: 0 <= i < |pts| && pts[i].y == b.minY
    ensures exists i :: 0 <= i < |pts| && pts[i].x == b.maxX
    ensures exists i :: 0 <= i < |pts| && pts[i].y == b.maxY
  {
    if |pts| == 1 then Box(pts[0].x, pts[0].y, pts[0].x, pts[0].y)
    else
      var b := BoundingBox(pts[..|pts| - 1]);
      var p := pts[|pts| - 1];
      assert forall i :: 0 <= i < |pts| - 1 ==> pts[..|pts| - 1][i] == pts[i];
      Box(Min(b.minX, p.x), Min(b.minY, p.y), Max(b.maxX, p.x), Max(b.maxY, p.y))
  }

  /** The source's Y-up coordinate seen from SVG's Y-down axis, measured from height h. */
  function FlipY(h: real, y: real): (r: real)
    ensures r + y == h
    ensures 0.0 <= r <==> y <= h
  {
    h - y
  }
}
