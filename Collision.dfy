/** Point and disc intersection tests against strokes, rectangles and
    circles, used by the eraser and by the legacy selection tool. */
module Collision {
  import opened Geometry
  import opened Strokes

  /** Tolerance of the legacy "is the mouse on this stroke" test. */
  const PointInStrokeTolerance: real := 5.0

  /** Some point of `pts` lies within `radius` of (cx, cy); the program scans
      the points and returns at the first one close enough. */
  function AnyPointWithin(pts: seq<Point>, cx: real, cy: real, radius: real): (b: bool)
    ensures b <==> exists i :: 0 <= i < |pts| && WithinRadius(cx, cy, pts[i].x, pts[i].y, radius)
    decreases |pts|
  {
    if |pts| == 0 then false
    else if WithinRadius(cx, cy, pts[0].x, pts[0].y, radius) then true
    else
      var rest := AnyPointWithin(pts[1..], cx, cy, radius);
      assert forall i :: 1 <= i < |pts| ==> pts[1..][i - 1] == pts[i];
      rest
  }

  /** The eraser disc at (ex, ey) touches one of the stroke's rendered points;
      a negative radius touches nothing. */
  predicate IsStrokeInEraserRadius(stroke: StrokeData, ex: real, ey: real, radius: real)
    ensures IsStrokeInEraserRadius(stroke, ex, ey, radius) <==>
      exists i :: 0 <= i < |stroke.points| && WithinRadius(ex, ey, stroke.points[i].x, stroke.points[i].y, radius)
    ensures radius < 0.0 ==> !IsStrokeInEraserRadius(stroke, ex, ey, radius)
  {
    AnyPointWithin(stroke.points, ex, ey, radius)
  }

  /** The point of the rectangle nearest to (ex, ey), by clamping each coordinate. */
  function ClosestPointOnRect(rect: Rect, ex: real, ey: real): Point
  {
    Point(Max(rect.x, Min(ex, rect.x + rect.width)), Max(rect.y, Min(ey, rect.y + rect.height)))
  }

  /** The eraser disc at (ex, ey) reaches the clamped closest point of the
      rectangle. A negative radius reaches nothing; a disc centred inside a
      rectangle with non-negative extents always reaches it. */
  predicate IsRectInEraserRadius(rect: Rect, ex: real, ey: real, radius: real)
    ensures IsRectInEraserRadius(rect, ex, ey, radius) ==> radius >= 0.0
    ensures rect.width >= 0.0 && rect.height >= 0.0 && IsPointInRectangle(rect, ex, ey) && radius >= 0.0 ==>
      IsRectInEraserRadius(rect, ex, ey, radius)
  {
    var c := ClosestPointOnRect(rect, ex, ey);
    WithinRadius(ex, ey, c.x, c.y, radius)
  }

  /** The eraser disc at (ex, ey) and the circle overlap: centres at most
      radius + r apart. A disc that reaches the centre of a circle, or whose
      centre lies in the circle, overlaps it. */
  predicate IsCircleInEraserRadius(circle: CircleData, ex: real, ey: real, radius: real)
    ensures IsCircleInEraserRadius(circle, ex, ey, radius) ==> radius + circle.r >= 0.0
    ensures circle.r >= 0.0 && WithinRadius(ex, ey, circle.x, circle.y, radius) ==>
      IsCircleInEraserRadius(circle, ex, ey, radius)
    ensures radius >= 0.0 && WithinRadius(ex, ey, circle.x, circle.y, circle.r) ==>
      IsCircleInEraserRadius(circle, ex, ey, radius)
  {
    SumSquareBounds(radius, circle.r);
    WithinRadius(ex, ey, circle.x, circle.y, radius + circle.r)
  }

  /** The legacy stroke hit test: some rendered point within `tolerance` of
      (x, y), which is the eraser test with the tolerance as radius. */
  predicate IsPointInStroke(stroke: StrokeData, x: real, y: real, tolerance: real := PointInStrokeTolerance)
    ensures IsPointInStroke(stroke, x, y, tolerance) <==>
      exists i :: 0 <= i < |stroke.points| && WithinRadius(x, y, stroke.points[i].x, stroke.points[i].y, tolerance)
    ensures IsPointInStroke(stroke, x, y, tolerance) <==> IsStrokeInEraserRadius(stroke, x, y, tolerance)
  {
    AnyPointWithin(stroke.points, x, y, tolerance)
  }

  /** The legacy rectangle hit test: inclusive containment in the rectangle's extent. */
  function IsPointInRectangle(rect: Rect, x: real, y: real): (b: bool)
    ensures b <==> BoundingBox(rect.x, rect.y, rect.width, rect.height).ContainsPoint(x, y)
  {
    x >= rect.x && x <= rect.x + rect.width && y >= rect.y && y <= rect.y + rect.height
  }

  /** The legacy circle hit test: (x, y) within the circle's radius of its
      centre, which is the eraser test with a zero radius. */
  predicate IsPointInCircle(circle: CircleData, x: real, y: real)
    ensures IsPointInCircle(circle, x, y) ==> circle.r >= 0.0
    ensures IsPointInCircle(circle, x, y) <==> IsCircleInEraserRadius(circle, x, y, 0.0)
  {
    WithinRadius(x, y, circle.x, circle.y, circle.r)
  }

  /** In one axis, the clamped coordinate is at least as close to e as any coordinate of [lo, hi]. */
  lemma ClampIsClosest1D(lo: real, hi: real, e: real, p: real)
    requires lo <= p <= hi
    ensures var c := Max(lo, Min(e, hi)); (c - e) * (c - e) <= (p - e) * (p - e)
  {
    var c := Max(lo, Min(e, hi));
    if e < lo {
      assert c == lo;
      assert 0.0 < c - e <= p - e;
      assert (c - e) * (c - e) <= (c - e) * (p - e) <= (p - e) * (p - e);
    } else if e > hi {
      assert c == hi;
      assert 0.0 < e - c <= e - p;
      assert (e - c) * (e - c) <= (e - c) * (e - p) <= (e - p) * (e - p);
    } else {
      assert c == e;
    }
  }

  /** For a rectangle with non-negative extents, the eraser test holds exactly
      when the eraser disc contains some point of the rectangle. */
  lemma RectEraserTestIsIntersection(rect: Rect, ex: real, ey: real, radius: real)
    requires rect.width >= 0.0 && rect.height >= 0.0
    ensures IsRectInEraserRadius(rect, ex, ey, radius) <==>
      exists px, py :: rect.x <= px <= rect.x + rect.width && rect.y <= py <= rect.y + rect.height
                    && WithinRadius(ex, ey, px, py, radius)
  {
    var c := ClosestPointOnRect(rect, ex, ey);
    if IsRectInEraserRadius(rect, ex, ey, radius) {
      assert rect.x <= c.x <= rect.x + rect.width && rect.y <= c.y <= rect.y + rect.height;
      assert WithinRadius(ex, ey, c.x, c.y, radius);
    }
    forall px, py | rect.x <= px <= rect.x + rect.width && rect.y <= py <= rect.y + rect.height
                    && WithinRadius(ex, ey, px, py, radius)
      ensures IsRectInEraserRadius(rect, ex, ey, radius)
    {
      ClampIsClosest1D(rect.x, rect.x + rect.width, ex, px);
      ClampIsClosest1D(rect.y, rect.y + rect.height, ey, py);
    }
  }

  // -------------------------------------------------------------------
  // Rectangles with signed extents

  /** A rectangle dragged left or up is stored with a negative extent, and
      the point test takes `x + width` as the upper bound, so such a
      rectangle contains no point at all. */
  lemma NegativeExtentContainsNothing(rect: Rect, x: real, y: real)
    requires rect.width < 0.0 || rect.height < 0.0
    ensures !IsPointInRectangle(rect, x, y)
  {
  }

  /** The point test on the area the rectangle covers on screen. */
  predicate IsPointInDrawnRectangle(rect: Rect, x: real, y: real)
  {
    IsPointInRectangle(DrawnRect(rect), x, y)
  }

  /** The eraser test on the area the rectangle covers on screen. */
  predicate IsDrawnRectInEraserRadius(rect: Rect, ex: real, ey: real, radius: real)
  {
    IsRectInEraserRadius(DrawnRect(rect), ex, ey, radius)
  }

  /** The corrected point test holds exactly between the two corners on each
      axis, whichever way the rectangle was dragged, and agrees with the
      program's test on rectangles with non-negative extents. */
  lemma DrawnRectanglePointTest(rect: Rect, x: real, y: real)
    ensures IsPointInDrawnRectangle(rect, x, y) <==>
      (rect.x <= x <= rect.x + rect.width || rect.x + rect.width <= x <= rect.x) &&
      (rect.y <= y <= rect.y + rect.height || rect.y + rect.height <= y <= rect.y)
    ensures rect.width >= 0.0 && rect.height >= 0.0 ==>
      (IsPointInDrawnRectangle(rect, x, y) <==> IsPointInRectangle(rect, x, y))
  {
  }

  /** The corrected eraser test holds exactly when the eraser disc contains
      some point of the drawn area, for every rectangle. */
  lemma DrawnRectEraserTestIsIntersection(rect: Rect, ex: real, ey: real, radius: real)
    ensures IsDrawnRectInEraserRadius(rect, ex, ey, radius) <==>
      exists px, py :: IsPointInDrawnRectangle(rect, px, py) && WithinRadius(ex, ey, px, py, radius)
    ensures rect.width >= 0.0 && rect.height >= 0.0 ==>
      (IsDrawnRectInEraserRadius(rect, ex, ey, radius) <==> IsRectInEraserRadius(rect, ex, ey, radius))
  {
    RectEraserTestIsIntersection(DrawnRect(rect), ex, ey, radius);
  }

  /** A rectangle dragged from (10, 0) to (0, 10) covers [0, 10] x [0, 10] on
      screen. The program's point test misses its centre, and its eraser test
      misses an eraser of radius 10 at (-5, 5), five units from the left edge;
      the corrected tests hit both. */
  lemma LeftwardRectangleIsMissed()
    ensures var rect := Rect(10.0, 0.0, -10.0, 10.0, Color());
      && !IsPointInRectangle(rect, 5.0, 5.0) && IsPointInDrawnRectangle(rect, 5.0, 5.0)
      && !IsRectInEraserRadius(rect, -5.0, 5.0, 10.0) && IsDrawnRectInEraserRadius(rect, -5.0, 5.0, 10.0)
  {
  }

  /** A wider disc catches at least what a narrower one does: whatever the
      radius-10 commit path erases, the radius-20 hover preview shows. */
  lemma EraserRadiusMonotone(stroke: StrokeData, rect: Rect, circle: CircleData,
                             ex: real, ey: real, r1: real, r2: real)
    requires r1 <= r2
    ensures IsStrokeInEraserRadius(stroke, ex, ey, r1) ==> IsStrokeInEraserRadius(stroke, ex, ey, r2)
    ensures IsRectInEraserRadius(rect, ex, ey, r1) ==> IsRectInEraserRadius(rect, ex, ey, r2)
    ensures IsCircleInEraserRadius(circle, ex, ey, r1) ==> IsCircleInEraserRadius(circle, ex, ey, r2)
  {
    if 0.0 <= r1 {
      SquareMonotone(r1, r2);
    }
    if 0.0 <= r1 + circle.r {
      SquareMonotone(r1 + circle.r, r2 + circle.r);
    }
    if IsStrokeInEraserRadius(stroke, ex, ey, r1) {
      var i :| 0 <= i < |stroke.points| && WithinRadius(ex, ey, stroke.points[i].x, stroke.points[i].y, r1);
      assert WithinRadius(ex, ey, stroke.points[i].x, stroke.points[i].y, r2);
    }
  }

  lemma SquareMonotone(a: real, b: real)
    requires 0.0 <= a <= b
    ensures a * a <= b * b
  {
    assert a * a <= a * b <= b * b;
  }

  /** Each of two non-negative lengths squared is at most their sum squared. */
  lemma SumSquareBounds(a: real, b: real)
    ensures a >= 0.0 && b >= 0.0 ==> a * a <= (a + b) * (a + b) && b * b <= (a + b) * (a + b)
  {
    if a >= 0.0 && b >= 0.0 {
      SquareMonotone(a, a + b);
      SquareMonotone(b, a + b);
    }
  }

  /** Every rendered point of a stroke is hit at any non-negative tolerance,
      and a circle is hit at its own centre exactly when its radius is not
      negative. */
  lemma PointTestsHitOwnPoints(st: StrokeData, c: CircleData, i: int, tolerance: real)
    requires 0 <= i < |st.points| && tolerance >= 0.0
    ensures IsPointInStroke(st, st.points[i].x, st.points[i].y, tolerance)
    ensures IsPointInCircle(c, c.x, c.y) <==> c.r >= 0.0
  {
    var p := st.points[i];
    SquareMonotone(0.0, tolerance);
    assert WithinRadius(p.x, p.y, p.x, p.y, tolerance);
    if c.r >= 0.0 {
      SquareMonotone(0.0, c.r);
    }
  }
}
