/** The unified object model: a closed union of stroke, rectangle and circle
    with bounding box, hit test, translation, scaling and handle lookup, and
    the drawable object that carries a shape and its selection flag. */
module Objects {
  import opened Geometry
  import opened Strokes
  import opened Collision

  /** Side of the square drawn at each resize handle. */
  const HandleSize: real := 8.0

  /** Extra reach of the stroke hit test beyond half the stroke width. */
  const StrokeHitMargin: real := 2.0

  /** The three kinds of drawable object. */
  datatype Shape =
    | StrokeShape(stroke: StrokeData)
    | RectShape(rect: Rect)
    | CircleShape(circle: CircleData)

  // ---------------------------------------------------------------------
  // Extremes of a point sequence

  function Xs(pts: seq<Point>): (r: seq<real>)
    ensures |r| == |pts| && forall i :: 0 <= i < |pts| ==> r[i] == pts[i].x
  {
    seq(|pts|, i requires 0 <= i < |pts| => pts[i].x)
  }

  function Ys(pts: seq<Point>): (r: seq<real>)
    ensures |r| == |pts| && forall i :: 0 <= i < |pts| ==> r[i] == pts[i].y
  {
    seq(|pts|, i requires 0 <= i < |pts| => pts[i].y)
  }

  /** The least value, folded from the first element onwards as the program's loop does. */
  function SeqMin(s: seq<real>): real
    requires |s| > 0
    decreases |s|
  {
    if |s| == 1 then s[0] else Min(SeqMin(s[..|s| - 1]), s[|s| - 1])
  }

  /** The greatest value, folded from the first element onwards as the program's loop does. */
  function SeqMax(s: seq<real>): real
    requires |s| > 0
    decreases |s|
  {
    if |s| == 1 then s[0] else Max(SeqMax(s[..|s| - 1]), s[|s| - 1])
  }

  /** The fold's least value is at most every element and is one of them;
      likewise the greatest value is at least every element and is one of them. */
  lemma {:induction false} SeqExtremes(s: seq<real>)
    requires |s| > 0
    ensures forall i :: 0 <= i < |s| ==> SeqMin(s) <= s[i] <= SeqMax(s)
    ensures exists i :: 0 <= i < |s| && SeqMin(s) == s[i]
    ensures exists i :: 0 <= i < |s| && SeqMax(s) == s[i]
    decreases |s|
  {
    var n := |s| - 1;
    if n == 0 {
      assert SeqMin(s) == s[0] && SeqMax(s) == s[0];
    } else {
      var pre := s[..n];
      SeqExtremes(pre);
      var lo, hi := SeqMin(pre), SeqMax(pre);
      assert SeqMin(s) == Min(lo, s[n]) && SeqMax(s) == Max(hi, s[n]);
      forall i | 0 <= i < |s|
        ensures SeqMin(s) <= s[i] <= SeqMax(s)
      {
        if i < n {
          assert pre[i] == s[i];
        }
      }
      var j :| 0 <= j < |pre| && lo == pre[j];
      var k :| 0 <= k < |pre| && hi == pre[k];
      assert pre[j] == s[j] && pre[k] == s[k];
      var jm := if lo <= s[n] then j else n;
      assert SeqMin(s) == s[jm];
      var km := if hi >= s[n] then k else n;
      assert SeqMax(s) == s[km];
    }
  }

  /** Adding a constant to every value moves the least and greatest values by that constant. */
  lemma ShiftedExtremes(s: seq<real>, t: seq<real>, d: real)
    requires |s| > 0 && |t| == |s|
    requires forall i :: 0 <= i < |s| ==> t[i] == s[i] + d
    ensures SeqMin(t) == SeqMin(s) + d && SeqMax(t) == SeqMax(s) + d
  {
    SeqExtremes(s);
    SeqExtremes(t);
    var j :| 0 <= j < |s| && SeqMin(s) == s[j];
    var k :| 0 <= k < |t| && SeqMin(t) == t[k];
    assert SeqMin(t) <= t[j] && SeqMin(s) <= s[k];
    var j' :| 0 <= j' < |s| && SeqMax(s) == s[j'];
    var k' :| 0 <= k' < |t| && SeqMax(t) == t[k'];
    assert SeqMax(t) >= t[j'] && SeqMax(s) >= s[k'];
  }

  // ---------------------------------------------------------------------
  // Geometry of a shape

  /** The box a shape reports: a stroke's point extremes padded by half its
      width (all zeros for a stroke without points), a rectangle's own
      geometry, a circle's enclosing square. */
  function Bounds(s: Shape): (b: BoundingBox)
    ensures s.StrokeShape? && |s.stroke.points| == 0 ==> b == EmptyBox()
    ensures s.StrokeShape? && s.stroke.width >= 0.0 ==> b.width >= 0.0 && b.height >= 0.0
    ensures s.CircleShape? ==>
      b.width == b.height == 2.0 * s.circle.r &&
      b.x + b.width / 2.0 == s.circle.x && b.y + b.height / 2.0 == s.circle.y
  {
    match s
    case StrokeShape(st) =>
      if |st.points| == 0 then BoundingBox()
      else
        SeqExtremes(Xs(st.points));
        SeqExtremes(Ys(st.points));
        var minX, maxX := SeqMin(Xs(st.points)), SeqMax(Xs(st.points));
        var minY, maxY := SeqMin(Ys(st.points)), SeqMax(Ys(st.points));
        var padding := st.width / 2.0;
        BoundingBox(minX - padding, minY - padding, maxX - minX + 2.0 * padding, maxY - minY + 2.0 * padding)
    case RectShape(r) => BoundingBox(r.x, r.y, r.width, r.height)
    case CircleShape(c) => BoundingBox(c.x - c.r, c.y - c.r, 2.0 * c.r, 2.0 * c.r)
  }

  /** Whether (x, y) picks the shape: a stroke point within half the width
      plus 2, inclusive containment in a rectangle, or distance to a circle's
      centre at most its radius. */
  predicate Hits(s: Shape, x: real, y: real)
    ensures s.StrokeShape? ==> (Hits(s, x, y) <==>
      exists i :: 0 <= i < |s.stroke.points| &&
        WithinRadius(x, y, s.stroke.points[i].x, s.stroke.points[i].y, s.stroke.width / 2.0 + StrokeHitMargin))
    ensures s.CircleShape? && Hits(s, x, y) ==> s.circle.r >= 0.0
  {
    match s
    case StrokeShape(st) => AnyPointWithin(st.points, x, y, st.width / 2.0 + StrokeHitMargin)
    case RectShape(r) => IsPointInRectangle(r, x, y)
    case CircleShape(c) => IsPointInCircle(c, x, y)
  }

  function TranslatePoints(pts: seq<Point>, dx: real, dy: real): (r: seq<Point>)
    ensures |r| == |pts|
    ensures forall i :: 0 <= i < |pts| ==> r[i] == Point(pts[i].x + dx, pts[i].y + dy)
  {
    seq(|pts|, i requires 0 <= i < |pts| => Point(pts[i].x + dx, pts[i].y + dy))
  }

  /** The shape shifted by (dx, dy): same kind, colour and size. */
  function Translated(s: Shape, dx: real, dy: real): (t: Shape)
    ensures t.StrokeShape? == s.StrokeShape? && t.RectShape? == s.RectShape? && t.CircleShape? == s.CircleShape?
    ensures s.StrokeShape? ==>
      t.stroke.color == s.stroke.color && t.stroke.width == s.stroke.width &&
      |t.stroke.points| == |s.stroke.points|
    ensures s.RectShape? ==>
      t.rect.color == s.rect.color && t.rect.width == s.rect.width && t.rect.height == s.rect.height
    ensures s.CircleShape? ==> t.circle.color == s.circle.color && t.circle.r == s.circle.r
  {
    match s
    case StrokeShape(st) => StrokeShape(st.(points := TranslatePoints(st.points, dx, dy)))
    case RectShape(r) => RectShape(r.(x := r.x + dx, y := r.y + dy))
    case CircleShape(c) => CircleShape(c.(x := c.x + dx, y := c.y + dy))
  }

  /** One coordinate scaled by `factor` about `origin`. */
  function ScaleAbout(v: real, origin: real, factor: real): real
  {
    origin + (v - origin) * factor
  }

  function ScalePoints(pts: seq<Point>, sx: real, sy: real, ox: real, oy: real): (r: seq<Point>)
    ensures |r| == |pts|
    ensures forall i :: 0 <= i < |pts| ==> r[i] == Point(ScaleAbout(pts[i].x, ox, sx), ScaleAbout(pts[i].y, oy, sy))
  {
    seq(|pts|, i requires 0 <= i < |pts| => Point(ScaleAbout(pts[i].x, ox, sx), ScaleAbout(pts[i].y, oy, sy)))
  }

  /** The shape scaled about (ox, oy): coordinates map affinely; a stroke's
      width and a circle's radius scale by the smaller factor, so circles stay round. */
  function Scaled(s: Shape, sx: real, sy: real, ox: real, oy: real): (t: Shape)
    ensures t.StrokeShape? == s.StrokeShape? && t.RectShape? == s.RectShape? && t.CircleShape? == s.CircleShape?
    ensures s.StrokeShape? ==> t.stroke.color == s.stroke.color && |t.stroke.points| == |s.stroke.points|
    ensures s.RectShape? ==> t.rect.color == s.rect.color
    ensures s.CircleShape? ==> t.circle.color == s.circle.color
    ensures s.RectShape? && sx >= 0.0 && sy >= 0.0 && s.rect.width >= 0.0 && s.rect.height >= 0.0 ==>
      t.rect.width >= 0.0 && t.rect.height >= 0.0
    ensures s.CircleShape? && sx >= 0.0 && sy >= 0.0 && s.circle.r >= 0.0 ==> t.circle.r >= 0.0
    ensures s.StrokeShape? ==>
      t.stroke.width == s.stroke.width * Min(sx, sy) &&
      forall i :: 0 <= i < |s.stroke.points| ==>
        t.stroke.points[i] == Point(ScaleAbout(s.stroke.points[i].x, ox, sx), ScaleAbout(s.stroke.points[i].y, oy, sy))
    ensures s.CircleShape? ==>
      t.circle.r == s.circle.r * Min(sx, sy) &&
      t.circle.x == ScaleAbout(s.circle.x, ox, sx) && t.circle.y == ScaleAbout(s.circle.y, oy, sy)
  {
    match s
    case StrokeShape(st) =>
      StrokeShape(st.(points := ScalePoints(st.points, sx, sy, ox, oy), width := st.width * Min(sx, sy)))
    case RectShape(r) =>
      RectShape(r.(x := ScaleAbout(r.x, ox, sx), y := ScaleAbout(r.y, oy, sy),
                   width := r.width * sx, height := r.height * sy))
    case CircleShape(c) =>
      CircleShape(c.(x := ScaleAbout(c.x, ox, sx), y := ScaleAbout(c.y, oy, sy), r := c.r * Min(sx, sy)))
  }

  // ---------------------------------------------------------------------
  // Properties of the shape geometry

  /** Every rendered point of a stroke with non-negative width lies in its box. */
  lemma StrokeBoundsContainPoints(st: StrokeData)
    requires st.width >= 0.0
    ensures forall i :: 0 <= i < |st.points| ==>
      Bounds(StrokeShape(st)).ContainsPoint(st.points[i].x, st.points[i].y)
  {
    forall i | 0 <= i < |st.points|
      ensures Bounds(StrokeShape(st)).ContainsPoint(st.points[i].x, st.points[i].y)
    {
      SeqExtremes(Xs(st.points));
      SeqExtremes(Ys(st.points));
      assert Xs(st.points)[i] == st.points[i].x && Ys(st.points)[i] == st.points[i].y;
    }
  }

  /** A rectangle is hit exactly where its box contains the point; a circle
      is hit only inside its enclosing square. */
  lemma HitsWithinBounds(s: Shape, x: real, y: real)
    requires !s.StrokeShape?
    ensures s.RectShape? ==> (Hits(s, x, y) <==> Bounds(s).ContainsPoint(x, y))
    ensures s.CircleShape? && Hits(s, x, y) ==> Bounds(s).ContainsPoint(x, y)
  {
    if s.CircleShape? && Hits(s, x, y) {
      var c := s.circle;
      SquareBound(x - c.x, y - c.y, c.r);
      SquareBound(y - c.y, x - c.x, c.r);
    }
  }

  /** a^2 + b^2 <= r^2 with r >= 0 bounds |a| by r. */
  lemma SquareBound(a: real, b: real, r: real)
    requires r >= 0.0 && a * a + b * b <= r * r
    ensures -r <= a <= r
  {
    assert b * b >= 0.0;
    SquareGrows(a, r);
    SquareGrows(-a, r);
  }

  lemma SquareGrows(a: real, r: real)
    ensures 0.0 <= r < a ==> r * r < a * a
  {
    if 0.0 <= r < a {
      assert (a - r) * r >= 0.0;
      assert (a - r) * a > 0.0;
    }
  }

  /** Translating by (dx, dy) and back by (-dx, -dy) restores the shape exactly. */
  lemma TranslateRoundTrip(s: Shape, dx: real, dy: real)
    ensures Translated(Translated(s, dx, dy), -dx, -dy) == s
  {
    match s
    case StrokeShape(st) =>
      var back := TranslatePoints(TranslatePoints(st.points, dx, dy), -dx, -dy);
      assert back == st.points;
    case RectShape(r) =>
    case CircleShape(c) =>
  }

  /** Translation moves the box by (dx, dy) and keeps its size (a stroke without points keeps the zero box). */
  lemma TranslateMovesBounds(s: Shape, dx: real, dy: real)
    ensures var b, b' := Bounds(s), Bounds(Translated(s, dx, dy));
      (s.StrokeShape? && |s.stroke.points| == 0) ||
      (b'.x == b.x + dx && b'.y == b.y + dy && b'.width == b.width && b'.height == b.height)
  {
    match s
    case StrokeShape(st) =>
      if |st.points| > 0 {
        var moved := TranslatePoints(st.points, dx, dy);
        ShiftedExtremes(Xs(st.points), Xs(moved), dx);
        ShiftedExtremes(Ys(st.points), Ys(moved), dy);
      }
    case RectShape(r) =>
    case CircleShape(c) =>
  }

  /** Hit testing commutes with translation: the moved shape is hit at the moved point. */
  lemma TranslatePreservesHits(s: Shape, dx: real, dy: real, x: real, y: real)
    ensures Hits(Translated(s, dx, dy), x + dx, y + dy) == Hits(s, x, y)
  {
    match s
    case StrokeShape(st) =>
      var moved := TranslatePoints(st.points, dx, dy);
      var tol := st.width / 2.0 + StrokeHitMargin;
      assert forall i :: 0 <= i < |moved| ==>
        DistSq(x + dx, y + dy, moved[i].x, moved[i].y) == DistSq(x, y, st.points[i].x, st.points[i].y);
      if Hits(s, x, y) {
        var i :| 0 <= i < |st.points| && WithinRadius(x, y, st.points[i].x, st.points[i].y, tol);
        assert WithinRadius(x + dx, y + dy, moved[i].x, moved[i].y, tol);
      }
      if Hits(Translated(s, dx, dy), x + dx, y + dy) {
        var i :| 0 <= i < |moved| && WithinRadius(x + dx, y + dy, moved[i].x, moved[i].y, tol);
        assert WithinRadius(x, y, st.points[i].x, st.points[i].y, tol);
      }
    case RectShape(r) =>
    case CircleShape(c) =>
      assert DistSq(x + dx, y + dy, c.x + dx, c.y + dy) == DistSq(x, y, c.x, c.y);
  }

  /** Scaling by 1 in both axes changes nothing, and the origin itself never moves. */
  lemma ScaleIdentityAndOrigin(s: Shape, ox: real, oy: real, f: real)
    ensures Scaled(s, 1.0, 1.0, ox, oy) == s
    ensures ScaleAbout(ox, ox, f) == ox
  {
    match s
    case StrokeShape(st) =>
      assert ScalePoints(st.points, 1.0, 1.0, ox, oy) == st.points;
    case RectShape(r) =>
    case CircleShape(c) =>
  }

  /** A scaled rectangle's two vertical edges are the old edges mapped about
      the origin (and likewise the horizontal edges). */
  lemma ScaleMapsRectEdges(r: Rect, sx: real, sy: real, ox: real, oy: real)
    ensures var b := Bounds(Scaled(RectShape(r), sx, sy, ox, oy));
      && b.x == ScaleAbout(r.x, ox, sx) && b.x + b.width == ScaleAbout(r.x + r.width, ox, sx)
      && b.y == ScaleAbout(r.y, oy, sy) && b.y + b.height == ScaleAbout(r.y + r.height, oy, sy)
  {
    assert (r.x + r.width - ox) * sx == (r.x - ox) * sx + r.width * sx;
    assert (r.y + r.height - oy) * sy == (r.y - oy) * sy + r.height * sy;
  }

  // ---------------------------------------------------------------------
  // Resize handles

  /** Where a handle sits on a box: four corners, then the four edge midpoints. */
  function HandlePoint(b: BoundingBox, h: HandlePosition): Point
    requires h != NoHandle
  {
    match h
    case TopLeft => Point(b.x, b.y)
    case TopRight => Point(b.x + b.width, b.y)
    case BottomLeft => Point(b.x, b.y + b.height)
    case BottomRight => Point(b.x + b.width, b.y + b.height)
    case Top => Point(b.x + b.width / 2.0, b.y)
    case Bottom => Point(b.x + b.width / 2.0, b.y + b.height)
    case Left => Point(b.x, b.y + b.height / 2.0)
    case Right => Point(b.x + b.width, b.y + b.height / 2.0)
  }

  /** (x, y) lies in the handle's square, half a handle size each way. */
  predicate NearHandle(b: BoundingBox, h: HandlePosition, x: real, y: real)
    requires h != NoHandle
  {
    var p := HandlePoint(b, h);
    Abs(x - p.x) <= HandleSize / 2.0 && Abs(y - p.y) <= HandleSize / 2.0
  }

  /** The first handle, from position k of the fixed order onwards, whose
      square holds (x, y); NoHandle when there is none. */
  function FirstNearFrom(b: BoundingBox, x: real, y: real, k: nat): HandlePosition
    requires k <= 8
    decreases 8 - k
  {
    if k == 8 then NoHandle
    else if NearHandle(b, AllHandles()[k], x, y) then AllHandles()[k]
    else FirstNearFrom(b, x, y, k + 1)
  }

  /** FirstNearFrom is NoHandle exactly when no handle from position k on is
      near, and otherwise the handle at the first position that is. */
  lemma {:induction false} FirstNearFromIsFirst(b: BoundingBox, x: real, y: real, k: nat)
    requires k <= 8
    ensures var h := FirstNearFrom(b, x, y, k);
      && (h == NoHandle <==> forall j :: k <= j < 8 ==> !NearHandle(b, AllHandles()[j], x, y))
      && (h != NoHandle ==>
            exists j :: k <= j < 8 && AllHandles()[j] == h && NearHandle(b, h, x, y) &&
              forall i :: k <= i < j ==> !NearHandle(b, AllHandles()[i], x, y))
    decreases 8 - k
  {
    if k < 8 && !NearHandle(b, AllHandles()[k], x, y) {
      FirstNearFromIsFirst(b, x, y, k + 1);
    }
  }

  /** The handle under (x, y), as the program's chain of tests computes it:
      corners first, then edge midpoints, each test asking whether the point
      lies within half a handle size of that handle's point in both axes. */
  function HandleAt(b: BoundingBox, x: real, y: real): (h: HandlePosition)
    ensures h != NoHandle ==> NearHandle(b, h, x, y)
    ensures h == NoHandle ==> forall k :: 0 <= k < 8 ==> !NearHandle(b, AllHandles()[k], x, y)
  {
    if NearHandle(b, TopLeft, x, y) then TopLeft
    else if NearHandle(b, TopRight, x, y) then TopRight
    else if NearHandle(b, BottomLeft, x, y) then BottomLeft
    else if NearHandle(b, BottomRight, x, y) then BottomRight
    else if NearHandle(b, Top, x, y) then Top
    else if NearHandle(b, Bottom, x, y) then Bottom
    else if NearHandle(b, Left, x, y) then Left
    else if NearHandle(b, Right, x, y) then Right
    else NoHandle
  }

  /** The chain of tests picks exactly the first handle, in the order they
      are drawn, whose square holds the point: NoHandle when none does. */
  lemma HandleAtIsFirstNear(b: BoundingBox, x: real, y: real)
    ensures HandleAt(b, x, y) == FirstNearFrom(b, x, y, 0)
  {
    FirstNearUnrolled(b, x, y);
  }

  lemma FirstNearUnrolled(b: BoundingBox, x: real, y: real)
    ensures FirstNearFrom(b, x, y, 0) ==
      if NearHandle(b, TopLeft, x, y) then TopLeft
      else if NearHandle(b, TopRight, x, y) then TopRight
      else if NearHandle(b, BottomLeft, x, y) then BottomLeft
      else if NearHandle(b, BottomRight, x, y) then BottomRight
      else if NearHandle(b, Top, x, y) then Top
      else if NearHandle(b, Bottom, x, y) then Bottom
      else if NearHandle(b, Left, x, y) then Left
      else if NearHandle(b, Right, x, y) then Right
      else NoHandle
  {
    var hs := AllHandles();
    assert hs == [TopLeft, TopRight, BottomLeft, BottomRight, Top, Bottom, Left, Right, NoHandle];
    assert FirstNearFrom(b, x, y, 8) == NoHandle;
    assert FirstNearFrom(b, x, y, 7) == if NearHandle(b, Right, x, y) then Right else NoHandle;
    assert FirstNearFrom(b, x, y, 6) == if NearHandle(b, Left, x, y) then Left else FirstNearFrom(b, x, y, 7);
    assert FirstNearFrom(b, x, y, 5) == if NearHandle(b, Bottom, x, y) then Bottom else FirstNearFrom(b, x, y, 6);
    assert FirstNearFrom(b, x, y, 4) == if NearHandle(b, Top, x, y) then Top else FirstNearFrom(b, x, y, 5);
    assert FirstNearFrom(b, x, y, 3) == if NearHandle(b, BottomRight, x, y) then BottomRight else FirstNearFrom(b, x, y, 4);
    assert FirstNearFrom(b, x, y, 2) == if NearHandle(b, BottomLeft, x, y) then BottomLeft else FirstNearFrom(b, x, y, 3);
    assert FirstNearFrom(b, x, y, 1) == if NearHandle(b, TopRight, x, y) then TopRight else FirstNearFrom(b, x, y, 2);
    assert FirstNearFrom(b, x, y, 0) == if NearHandle(b, TopLeft, x, y) then TopLeft else FirstNearFrom(b, x, y, 1);
  }

  // ---------------------------------------------------------------------
  // The drawable object

  /** A shape on the canvas together with its selection flag. */
  class DrawableObject {
    var shape: Shape
    var isSelected: bool

    /** A new object is never selected. */
    constructor (s: Shape)
      ensures shape == s && !isSelected
    {
      shape := s;
      isSelected := false;
    }

    function GetBoundingBox(): (b: BoundingBox)
      reads this
      ensures b == Bounds(shape)
    {
      Bounds(shape)
    }

    /** A rectangle object is hit exactly inside the box it reports, a
        circle object only inside it. */
    predicate HitTest(x: real, y: real)
      reads this
      ensures shape.RectShape? ==> (HitTest(x, y) <==> Bounds(shape).ContainsPoint(x, y))
      ensures shape.CircleShape? && HitTest(x, y) ==> Bounds(shape).ContainsPoint(x, y)
    {
      if shape.StrokeShape? then Hits(shape, x, y)
      else HitsWithinBounds(shape, x, y); Hits(shape, x, y)
    }

    function GetHandleAtPoint(x: real, y: real): (h: HandlePosition)
      reads this
      ensures h == HandleAt(Bounds(shape), x, y)
    {
      HandleAt(GetBoundingBox(), x, y)
    }

    method Translate(dx: real, dy: real)
      modifies this
      ensures shape == Translated(old(shape), dx, dy) && isSelected == old(isSelected)
    {
      shape := Translated(shape, dx, dy);
    }

    method Scale(sx: real, sy: real, ox: real, oy: real)
      modifies this
      ensures shape == Scaled(old(shape), sx, sy, ox, oy) && isSelected == old(isSelected)
    {
      shape := Scaled(shape, sx, sy, ox, oy);
    }
  }
}
