/** Strokes and shape groups: the in-progress pen stroke, which is updated in
    place as samples arrive, and the committed values the canvas stores. */
module Strokes {
  import opened Geometry
  import opened Smoothing

  /** Width of a default-constructed stroke. */
  const DefaultStrokeWidth: real := 3.0

  /** Colour of a default-constructed stroke: a dark blue. */
  function DefaultStrokeColor(): (c: Color)
    ensures c.r == 0.0 && c.g == 0.0 && c.b == 0.8
  {
    Color(0.0, 0.0, 0.8)
  }

  /** A stroke as the canvas keeps it once committed: its rendered points, colour and width. */
  datatype StrokeData = StrokeData(points: seq<Point>, color: Color, width: real)

  /** The rectangles of one drag gesture. */
  datatype Rectangle = Rectangle(rects: seq<Rect>)
  {
    function AddRect(x: real, y: real, width: real, height: real, color: Color): (r: Rectangle)
      ensures |r.rects| == |rects| + 1 && r.rects[..|rects|] == rects
      ensures r.rects[|rects|] == Rect(x, y, width, height, color)
    {
      Rectangle(rects + [Rect(x, y, width, height, color)])
    }
  }

  /** The circles of one drag gesture. */
  datatype Circle = Circle(circles: seq<CircleData>)
  {
    function AddCircle(x: real, y: real, r: real, color: Color): (c: Circle)
      ensures |c.circles| == |circles| + 1 && c.circles[..|circles|] == circles
      ensures c.circles[|circles|] == CircleData(x, y, r, color)
    {
      Circle(circles + [CircleData(x, y, r, color)])
    }
  }

  /** The stroke being drawn: raw samples and the smoothed points rendered from them. */
  class Stroke {
    var rawPoints: seq<Point>
    var points: seq<Point>
    var color: Color
    var width: real

    /** A new stroke has no points; width 3.0 and dark blue unless given. */
    constructor (w: real := DefaultStrokeWidth, col: Color := DefaultStrokeColor())
      ensures width == w && color == col
      ensures rawPoints == [] && points == []
    {
      width := w;
      color := col;
      rawPoints := [];
      points := [];
    }

    /** The value the canvas stores when the stroke is committed. */
    function Data(): (d: StrokeData)
      reads this
      ensures d.points == points && d.color == color && d.width == width
    {
      StrokeData(points, color, width)
    }

    /** Appends a sample and recomputes the rendered points from the whole
        raw history. */
    method AddPoint(x: real, y: real)
      modifies this
      ensures rawPoints == old(rawPoints) + [Point(x, y)]
      ensures points == Smooth(rawPoints)
      ensures color == old(color) && width == old(width)
    {
      rawPoints := rawPoints + [Point(x, y)];
      if |rawPoints| < 2 {
        points := rawPoints;
        return;
      }
      var simplified := SimplifyStroke(rawPoints, JitterThreshold);
      points := InterpolateCatmullRom(simplified, PenSegments);
    }

    /** Finalises the stroke: the raw samples are discarded, the rendered points stay. */
    method CompleteStroke()
      modifies this
      ensures rawPoints == []
      ensures points == old(points) && color == old(color) && width == old(width)
    {
      rawPoints := [];
    }
  }
}
