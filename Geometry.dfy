/** Value types of the drawing engine: points, colours, the two shape records,
    the axis-aligned bounding box and the eight resize handles.
    Coordinates are `double` in the program and `real` here. */
module Geometry {

  /** A mouse sample; the creation timestamp of the program is never read and is not kept. */
  datatype Point = Point(x: real, y: real)

  /** An RGB colour; every component defaults to 0. */
  datatype Color = Color(r: real := 0.0, g: real := 0.0, b: real := 0.0)

  /** One drawn rectangle: its corner, signed extents and outline colour. */
  datatype Rect = Rect(x: real, y: real, width: real, height: real, color: Color)

  /** One drawn circle: its centre, radius and outline colour. */
  datatype CircleData = CircleData(x: real, y: real, r: real, color: Color)

  /** An axis-aligned box; every field defaults to 0. */
  datatype BoundingBox = BoundingBox(x: real := 0.0, y: real := 0.0, width: real := 0.0, height: real := 0.0)
  {
    /** Inclusive containment on all four edges. */
    predicate ContainsPoint(px: real, py: real)
    {
      px >= x && px <= x + width && py >= y && py <= y + height
    }
  }

  /** The eight resize handles, corners first, and NONE for "no handle". */
  datatype HandlePosition =
    | TopLeft | TopRight | BottomLeft | BottomRight
    | Top | Bottom | Left | Right
    | NoHandle

  function Min(a: real, b: real): (r: real)
    ensures r <= a && r <= b && (r == a || r == b)
  {
    if b < a then b else a
  }

  function Max(a: real, b: real): (r: real)
    ensures r >= a && r >= b && (r == a || r == b)
  {
    if a < b then b else a
  }

  function Abs(a: real): (r: real)
    ensures r >= 0.0 && (r == a || r == -a)
  {
    if a < 0.0 then -a else a
  }

  /** The area a rectangle with signed extents covers on screen: its corner
      and the opposite corner put in order, whichever way it was dragged.
      An ordered rectangle is its own drawn area. */
  function DrawnRect(rect: Rect): (n: Rect)
    ensures n.width >= 0.0 && n.height >= 0.0 && n.color == rect.color
    ensures n.x == Min(rect.x, rect.x + rect.width) && n.x + n.width == Max(rect.x, rect.x + rect.width)
    ensures n.y == Min(rect.y, rect.y + rect.height) && n.y + n.height == Max(rect.y, rect.y + rect.height)
    ensures rect.width >= 0.0 && rect.height >= 0.0 ==> n == rect
  {
    Rect(Min(rect.x, rect.x + rect.width), Min(rect.y, rect.y + rect.height),
         Abs(rect.width), Abs(rect.height), rect.color)
  }

  /** Square of the Euclidean distance between (px, py) and (qx, qy). */
  function DistSq(px: real, py: real, qx: real, qy: real): real
  {
    (qx - px) * (qx - px) + (qy - py) * (qy - py)
  }

  /** `sqrt(DistSq) <= radius` stated without the square root: a negative
      radius admits nothing, because a square root is never negative. */
  predicate WithinRadius(px: real, py: real, qx: real, qy: real, radius: real)
  {
    radius >= 0.0 && DistSq(px, py, qx, qy) <= radius * radius
  }

  /** `sqrt(DistSq) >= threshold` stated without the square root. */
  predicate AtLeastApart(a: Point, b: Point, threshold: real)
  {
    threshold <= 0.0 || DistSq(a.x, a.y, b.x, b.y) >= threshold * threshold
  }

  /** The box a default-constructed BoundingBox holds, which is what an empty
      stroke and an empty selection report. */
  function EmptyBox(): (b: BoundingBox)
    ensures b.x == 0.0 && b.y == 0.0 && b.width == 0.0 && b.height == 0.0
    ensures b.ContainsPoint(0.0, 0.0)
    ensures forall px, py :: b.ContainsPoint(px, py) ==> px == 0.0 && py == 0.0
  {
    BoundingBox()
  }

  /** The handle values in declaration order: the eight handles, then NONE. */
  function AllHandles(): (hs: seq<HandlePosition>)
    ensures |hs| == 9
    ensures forall i, j :: 0 <= i < j < |hs| ==> hs[i] != hs[j]
    ensures hs[8] == NoHandle && forall i :: 0 <= i < 8 ==> hs[i] != NoHandle
  {
    [TopLeft, TopRight, BottomLeft, BottomRight, Top, Bottom, Left, Right, NoHandle]
  }

  /** The enumeration has no other value than the nine listed. */
  lemma AllHandlesComplete(h: HandlePosition)
    ensures h in AllHandles()
  {
    var hs := AllHandles();
    match h
    case TopLeft => assert hs[0] == h;
    case TopRight => assert hs[1] == h;
    case BottomLeft => assert hs[2] == h;
    case BottomRight => assert hs[3] == h;
    case Top => assert hs[4] == h;
    case Bottom => assert hs[5] == h;
    case Left => assert hs[6] == h;
    case Right => assert hs[7] == h;
    case NoHandle => assert hs[8] == h;
  }

  /** The containment test is exactly the pair of closed intervals
      [x, x + width] and [y, y + height]; with non-negative extents all
      four corners are inside. */
  lemma ContainsPointInclusive(b: BoundingBox, px: real, py: real)
    ensures b.ContainsPoint(px, py) <==> (b.x <= px <= b.x + b.width && b.y <= py <= b.y + b.height)
    ensures b.width >= 0.0 && b.height >= 0.0 ==>
      b.ContainsPoint(b.x, b.y) && b.ContainsPoint(b.x + b.width, b.y) &&
      b.ContainsPoint(b.x, b.y + b.height) && b.ContainsPoint(b.x + b.width, b.y + b.height)
  {
  }
}
