/** The stroke smoothing pipeline: a greedy jitter filter followed by a
    uniform Catmull-Rom expansion. Functions give the meaning; the methods are
    the program's push_back loops, proved equal to them. */
module Smoothing {
  import opened Geometry

  /** Distance below which an interior sample is dropped as jitter while drawing. */
  const JitterThreshold: real := 0.5
  /** Interpolated points emitted per segment while drawing. */
  const PenSegments: int := 12
  /** Default tolerance of the standalone simplification helper. */
  const DefaultSimplifyTolerance: real := 2.0
  /** Default segment count of the standalone interpolation helper. */
  const DefaultSegmentsPerCurve: int := 8

  // ---------------------------------------------------------------------
  // Simplification

  /** The kept points after the greedy filter has visited raw[1..i):
      raw[0] always, then each visited point at least `tol` away from the
      point kept last. */
  function Kept(raw: seq<Point>, i: nat, tol: real): (k: seq<Point>)
    requires 1 <= i <= |raw|
    ensures 1 <= |k| <= i && k[0] == raw[0]
    decreases i
  {
    if i == 1 then [raw[0]]
    else
      var prev := Kept(raw, i - 1, tol);
      if AtLeastApart(prev[|prev| - 1], raw[i - 1], tol) then prev + [raw[i - 1]] else prev
  }

  /** The raw positions of the points in Kept(raw, i, tol). */
  ghost function KeptIndices(raw: seq<Point>, i: nat, tol: real): (idx: seq<int>)
    requires 1 <= i <= |raw|
    ensures 1 <= |idx| && idx[0] == 0
    decreases i
  {
    if i == 1 then [0]
    else
      var prev := Kept(raw, i - 1, tol);
      if AtLeastApart(prev[|prev| - 1], raw[i - 1], tol)
      then KeptIndices(raw, i - 1, tol) + [i - 1]
      else KeptIndices(raw, i - 1, tol)
  }

  /** The simplified sequence: short inputs as they are, otherwise the first
      point, the kept interior points and the last point. */
  function Simplify(raw: seq<Point>, tol: real): (r: seq<Point>)
    ensures |raw| <= 2 ==> r == raw
    ensures |raw| > 2 ==> 2 <= |r| <= |raw| && r[0] == raw[0] && r[|r| - 1] == raw[|raw| - 1]
  {
    if |raw| <= 2 then raw
    else Kept(raw, |raw| - 1, tol) + [raw[|raw| - 1]]
  }

  /** `k` is `raw` read at the strictly increasing positions `idx`, each below `bound`. */
  predicate TakenInOrder(k: seq<Point>, idx: seq<int>, raw: seq<Point>, bound: int)
  {
    && |idx| == |k|
    && (forall j :: 0 <= j < |idx| ==> 0 <= idx[j] < bound && idx[j] < |raw| && k[j] == raw[idx[j]])
    && (forall j :: 1 <= j < |idx| ==> idx[j - 1] < idx[j])
  }

  /** The kept points are raw points taken in strictly increasing order,
      starting with raw[0]. */
  lemma {:induction false} KeptIsSubsequence(raw: seq<Point>, i: nat, tol: real)
    requires 1 <= i <= |raw|
    ensures TakenInOrder(Kept(raw, i, tol), KeptIndices(raw, i, tol), raw, i)
    decreases i
  {
    if i > 1 {
      KeptIsSubsequence(raw, i - 1, tol);
      KeptStepTakesInOrder(raw, i, tol);
    }
  }

  /** One more visited point keeps the kept points in order. */
  lemma KeptStepTakesInOrder(raw: seq<Point>, i: nat, tol: real)
    requires 1 < i <= |raw|
    requires TakenInOrder(Kept(raw, i - 1, tol), KeptIndices(raw, i - 1, tol), raw, i - 1)
    ensures TakenInOrder(Kept(raw, i, tol), KeptIndices(raw, i, tol), raw, i)
  {
    var prev, pidx := Kept(raw, i - 1, tol), KeptIndices(raw, i - 1, tol);
    var k, idx := Kept(raw, i, tol), KeptIndices(raw, i, tol);
    if AtLeastApart(prev[|prev| - 1], raw[i - 1], tol) {
      assert k == prev + [raw[i - 1]] && idx == pidx + [i - 1];
      AppendTakenInOrder(prev, pidx, raw, i);
    } else {
      assert k == prev && idx == pidx;
      TakenInOrderWeakens(prev, pidx, raw, i - 1, i);
    }
  }

  /** Appending raw[bound - 1] keeps the order, with the bound one higher. */
  lemma AppendTakenInOrder(k: seq<Point>, idx: seq<int>, raw: seq<Point>, bound: int)
    requires 1 <= bound <= |raw|
    requires TakenInOrder(k, idx, raw, bound - 1)
    ensures TakenInOrder(k + [raw[bound - 1]], idx + [bound - 1], raw, bound)
  {
    var k', idx' := k + [raw[bound - 1]], idx + [bound - 1];
    assert forall j :: 0 <= j < |idx| ==> k'[j] == k[j] && idx'[j] == idx[j];
    if 0 < |idx| {
      assert idx'[|idx| - 1] == idx[|idx| - 1] < bound - 1;
    }
  }

  /** A higher bound still bounds the positions. */
  lemma TakenInOrderWeakens(k: seq<Point>, idx: seq<int>, raw: seq<Point>, bound: int, bound': int)
    requires bound <= bound'
    requires TakenInOrder(k, idx, raw, bound)
    ensures TakenInOrder(k, idx, raw, bound')
  {
  }

  /** Each point after the first is at least `tol` from the one before it. */
  predicate Spaced(k: seq<Point>, tol: real)
  {
    forall j :: 1 <= j < |k| ==> AtLeastApart(k[j - 1], k[j], tol)
  }

  /** Each kept point after the first is at least `tol` from the one kept
      before it. */
  lemma {:induction false} KeptIsSpaced(raw: seq<Point>, i: nat, tol: real)
    requires 1 <= i <= |raw|
    ensures Spaced(Kept(raw, i, tol), tol)
    decreases i
  {
    if i > 1 {
      KeptIsSpaced(raw, i - 1, tol);
      var prev := Kept(raw, i - 1, tol);
      if AtLeastApart(prev[|prev| - 1], raw[i - 1], tol) {
        var k := prev + [raw[i - 1]];
        assert Kept(raw, i, tol) == k;
        forall j | 1 <= j < |k|
          ensures AtLeastApart(k[j - 1], k[j], tol)
        {
          if j < |prev| {
            assert k[j - 1] == prev[j - 1] && k[j] == prev[j];
          } else {
            assert k[j - 1] == prev[|prev| - 1] && k[j] == raw[i - 1];
          }
        }
      }
    }
  }

  /** The simplified sequence keeps raw[0] and the last raw point, never
      grows, takes its points from `raw` in order, and every interior kept
      point is at least `tol` from the point kept before it. */
  lemma SimplifyProperties(raw: seq<Point>, tol: real)
    requires |raw| >= 2
    ensures var r := Simplify(raw, tol);
      && 2 <= |r| <= |raw|
      && r[0] == raw[0]
      && r[|r| - 1] == raw[|raw| - 1]
      && Spaced(r[..|r| - 1], tol)
    ensures |raw| > 2 ==>
      TakenInOrder(Simplify(raw, tol), KeptIndices(raw, |raw| - 1, tol) + [|raw| - 1], raw, |raw|)
  {
    if |raw| > 2 {
      var last := |raw| - 1;
      KeptIsSubsequence(raw, last, tol);
      KeptIsSpaced(raw, last, tol);
      var k := Kept(raw, last, tol);
      assert Simplify(raw, tol)[..|k|] == k;
      AppendTakenInOrder(k, KeptIndices(raw, last, tol), raw, |raw|);
    }
  }

  /** The program's simplification helper (also run inline while drawing, with 0.5). */
  method SimplifyStroke(points: seq<Point>, tolerance: real := DefaultSimplifyTolerance)
    returns (simplified: seq<Point>)
    ensures simplified == Simplify(points, tolerance)
  {
    if |points| <= 2 {
      return points;
    }
    simplified := [points[0]];
    var i := 1;
    while i < |points| - 1
      invariant 1 <= i <= |points| - 1
      invariant simplified == Kept(points, i, tolerance)
    {
      var prev := simplified[|simplified| - 1];
      var current := points[i];
      if AtLeastApart(prev, current, tolerance) {
        simplified := simplified + [current];
      }
      i := i + 1;
    }
    simplified := simplified + [points[|points| - 1]];
  }

  // ---------------------------------------------------------------------
  // Catmull-Rom interpolation

  /** One coordinate of the uniform Catmull-Rom cubic through c1 (t = 0) and c2 (t = 1). */
  function CatmullRomCoord(c0: real, c1: real, c2: real, c3: real, t: real): real
  {
    var t2 := t * t;
    var t3 := t2 * t;
    0.5 * ((2.0 * c1) +
           (-c0 + c2) * t +
           (2.0 * c0 - 5.0 * c1 + 4.0 * c2 - c3) * t2 +
           (-c0 + 3.0 * c1 - 3.0 * c2 + c3) * t3)
  }

  /** The point at parameter t of the segment from p1 to p2, with neighbours p0 and p3. */
  function CatmullRomPoint(p0: Point, p1: Point, p2: Point, p3: Point, t: real): (r: Point)
    ensures t == 0.0 ==> r == p1
    ensures t == 1.0 ==> r == p2
  {
    Point(CatmullRomCoord(p0.x, p1.x, p2.x, p3.x, t), CatmullRomCoord(p0.y, p1.y, p2.y, p3.y, t))
  }

  /** The basis is an affine combination: control values on one line
      a + s * d give a curve value on that same line, at the parameter the
      same basis gives for s0 .. s3. Each coordinate of a point is one such
      value, so collinear control points give a point on their line. */
  lemma CatmullRomKeepsLines(a: real, d: real, s0: real, s1: real, s2: real, s3: real, t: real)
    ensures CatmullRomCoord(a + s0 * d, a + s1 * d, a + s2 * d, a + s3 * d, t)
         == a + CatmullRomCoord(s0, s1, s2, s3, t) * d
  {
    var t2 := t * t;
    var t3 := t2 * t;
    var w0, w1, w2, w3 := 0.5 * (-t + 2.0 * t2 - t3), 0.5 * (2.0 - 5.0 * t2 + 3.0 * t3),
                          0.5 * (t + 4.0 * t2 - 3.0 * t3), 0.5 * (-t2 + t3);
    CoordWeights(a + s0 * d, a + s1 * d, a + s2 * d, a + s3 * d, t);
    CoordWeights(s0, s1, s2, s3, t);
    Distribute(w0, a, s0, d);
    Distribute(w1, a, s1, d);
    Distribute(w2, a, s2, d);
    Distribute(w3, a, s3, d);
    assert w0 * a + w1 * a + w2 * a + w3 * a == (w0 + w1 + w2 + w3) * a;
    assert (w0 * s0) * d + (w1 * s1) * d + (w2 * s2) * d + (w3 * s3) * d
        == (w0 * s0 + w1 * s1 + w2 * s2 + w3 * s3) * d;
  }

  /** The Catmull-Rom coordinate as a weighted sum of the four control values. */
  lemma CoordWeights(c0: real, c1: real, c2: real, c3: real, t: real)
    ensures var t2 := t * t; var t3 := t2 * t;
      CatmullRomCoord(c0, c1, c2, c3, t)
      == 0.5 * (-t + 2.0 * t2 - t3) * c0 + 0.5 * (2.0 - 5.0 * t2 + 3.0 * t3) * c1
       + 0.5 * (t + 4.0 * t2 - 3.0 * t3) * c2 + 0.5 * (-t2 + t3) * c3
  {
  }

  lemma Distribute(w: real, a: real, s: real, d: real)
    ensures w * (a + s * d) == w * a + (w * s) * d
  {
  }

  /** Number of points emitted per segment for a requested count (a loop
      `for j in 1..=n` runs no time for n <= 0). */
  function SegmentCount(segs: int): nat
  {
    if segs > 0 then segs else 0
  }

  /** The neighbour before pts[i], clamped to pts[i] at the start. */
  function Before(pts: seq<Point>, i: nat): Point
    requires i < |pts|
  {
    if i > 0 then pts[i - 1] else pts[i]
  }

  /** The neighbour after pts[i + 1], clamped to pts[i + 1] at the end. */
  function After(pts: seq<Point>, i: nat): Point
    requires i + 1 < |pts|
  {
    if i + 2 < |pts| then pts[i + 2] else pts[i + 1]
  }

  /** The points emitted for the segment from pts[i] to pts[i + 1]: parameters j / segs for j = 1 .. segs. */
  function Segment(pts: seq<Point>, i: nat, segs: int): (r: seq<Point>)
    requires i + 1 < |pts|
    ensures |r| == SegmentCount(segs)
  {
    seq(SegmentCount(segs), j requires 0 <= j < SegmentCount(segs) =>
      CatmullRomPoint(Before(pts, i), pts[i], pts[i + 1], After(pts, i), (j + 1) as real / segs as real))
  }

  /** The first point followed by the points of the first i segments. */
  function SplinePrefix(pts: seq<Point>, segs: int, i: nat): (r: seq<Point>)
    requires i < |pts|
    ensures |r| == 1 + SegmentCount(segs) * i
    ensures r[0] == pts[0]
    decreases i
  {
    if i == 0 then [pts[0]]
    else
      var prev := SplinePrefix(pts, segs, i - 1);
      assert |prev| + SegmentCount(segs) == 1 + SegmentCount(segs) * i;
      prev + Segment(pts, i - 1, segs)
  }

  /** The interpolated sequence: fewer than three points as they are,
      otherwise every segment expanded. */
  function Interpolate(pts: seq<Point>, segs: int): (r: seq<Point>)
    ensures |pts| <= 2 ==> r == pts
    ensures |pts| > 2 ==> |r| == 1 + SegmentCount(segs) * (|pts| - 1) && r[0] == pts[0]
    ensures |pts| > 2 && segs >= 1 ==> r[|r| - 1] == pts[|pts| - 1]
  {
    if |pts| <= 2 then pts
    else if segs < 1 then SplinePrefix(pts, segs, |pts| - 1)
    else SplinePassesThrough(pts, segs, |pts| - 1, |pts| - 1); SplinePrefix(pts, segs, |pts| - 1)
  }

  /** The curve passes through every control point: position segs * k of
      the expansion is pts[k]. */
  lemma {:induction false} SplinePassesThrough(pts: seq<Point>, segs: int, i: nat, k: nat)
    requires segs >= 1
    requires k <= i < |pts|
    ensures SplinePrefix(pts, segs, i)[segs * k] == pts[k]
    decreases i
  {
    if i > 0 {
      var prev := SplinePrefix(pts, segs, i - 1);
      var seg := Segment(pts, i - 1, segs);
      assert SplinePrefix(pts, segs, i) == prev + seg;
      assert |prev| == 1 + segs * (i - 1);
      if k < i {
        MulMonotone(segs, k, i - 1);
        SplinePassesThrough(pts, segs, i - 1, k);
      } else {
        assert segs * i == segs * (i - 1) + segs;
        assert (prev + seg)[segs * i] == seg[segs - 1];
        SegmentEndsAtNext(pts, i - 1, segs);
      }
    }
  }

  /** The last point emitted for a segment is its end point pts[i + 1]. */
  lemma SegmentEndsAtNext(pts: seq<Point>, i: nat, segs: int)
    requires segs >= 1 && i + 1 < |pts|
    ensures Segment(pts, i, segs)[segs - 1] == pts[i + 1]
  {
    var t := (segs - 1 + 1) as real / segs as real;
    DivideBySelf(segs as real);
    assert Segment(pts, i, segs)[segs - 1] == CatmullRomPoint(Before(pts, i), pts[i], pts[i + 1], After(pts, i), t);
  }

  lemma DivideBySelf(r: real)
    requires r != 0.0
    ensures r / r == 1.0
  {
  }

  lemma MulMonotone(a: nat, b: nat, c: nat)
    requires b <= c
    ensures a * b <= a * c
  {
  }

  /** The program's interpolation helper (also run inline while drawing, with 12).
      With three or more points a negative count makes the buffer reservation
      fail, so callers pass a count of at least zero there. */
  method InterpolateCatmullRom(points: seq<Point>, segmentsPerCurve: int := DefaultSegmentsPerCurve)
    returns (interpolated: seq<Point>)
    requires |points| <= 2 || segmentsPerCurve >= 0
    ensures interpolated == Interpolate(points, segmentsPerCurve)
  {
    if |points| < 2 {
      return points;
    }
    if |points| == 2 {
      return points;
    }
    interpolated := [points[0]];
    var i := 0;
    while i < |points| - 1
      invariant 0 <= i <= |points| - 1
      invariant interpolated == SplinePrefix(points, segmentsPerCurve, i)
    {
      var p0 := if i > 0 then points[i - 1] else points[i];
      var p1 := points[i];
      var p2 := points[i + 1];
      var p3 := if i + 2 < |points| then points[i + 2] else points[i + 1];
      ghost var segment := Segment(points, i, segmentsPerCurve);
      var j := 1;
      while j <= segmentsPerCurve
        invariant 1 <= j <= SegmentCount(segmentsPerCurve) + 1
        invariant interpolated == SplinePrefix(points, segmentsPerCurve, i) + segment[..j - 1]
      {
        var t := j as real / segmentsPerCurve as real;
        interpolated := interpolated + [CatmullRomPoint(p0, p1, p2, p3, t)];
        assert segment[..j] == segment[..j - 1] + [segment[j - 1]];
        j := j + 1;
      }
      assert segment[..SegmentCount(segmentsPerCurve)] == segment;
      i := i + 1;
    }
  }

  // ---------------------------------------------------------------------
  // The whole pipeline

  /** What the in-progress stroke renders for its raw samples: fewer than two
      samples as they are, otherwise the jitter filter at 0.5 followed by a
      12-point-per-segment expansion. */
  function Smooth(raw: seq<Point>): (r: seq<Point>)
    ensures |raw| < 2 ==> r == raw
    ensures |raw| >= 1 ==> |r| >= 1 && r[0] == raw[0] && r[|r| - 1] == raw[|raw| - 1]
  {
    if |raw| < 2 then raw
    else Interpolate(Simplify(raw, JitterThreshold), PenSegments)
  }

  /** The smoothing helper that chains the two stages. */
  method UltraSmoothStroke(points: seq<Point>) returns (smooth: seq<Point>)
    ensures smooth == Smooth(points)
  {
    if |points| < 2 {
      return points;
    }
    var simplified := SimplifyStroke(points, JitterThreshold);
    smooth := InterpolateCatmullRom(simplified, PenSegments);
  }

  /** What the rendered points look like: short inputs and two-point
      simplifications are copied; otherwise there are exactly
      1 + 12 * (n - 1) points for n simplified points, the curve starts at
      the first sample, passes through every simplified point at every
      twelfth position and ends at the last sample. */
  lemma SmoothShape(raw: seq<Point>)
    ensures |raw| < 2 ==> Smooth(raw) == raw
    ensures |raw| == 2 ==> Smooth(raw) == raw
    ensures |raw| >= 2 && |Simplify(raw, JitterThreshold)| == 2 ==>
      Smooth(raw) == [raw[0], raw[|raw| - 1]]
    ensures |raw| >= 2 && |Simplify(raw, JitterThreshold)| >= 3 ==>
      var s, r := Simplify(raw, JitterThreshold), Smooth(raw);
      && |r| == 1 + 12 * (|s| - 1)
      && r[0] == raw[0]
      && r[|r| - 1] == raw[|raw| - 1]
      && (forall k :: 0 <= k < |s| ==> r[12 * k] == s[k])
  {
    if |raw| >= 2 {
      var s := Simplify(raw, JitterThreshold);
      SimplifyProperties(raw, JitterThreshold);
      if |s| >= 3 {
        forall k | 0 <= k < |s|
          ensures Smooth(raw)[12 * k] == s[k]
        {
          SplinePassesThrough(s, PenSegments, |s| - 1, k);
        }
        SplinePassesThrough(s, PenSegments, |s| - 1, |s| - 1);
      }
    }
  }

  // ---------------------------------------------------------------------
  // Straight strokes stay straight

  /** The point at parameter s on the line through a with direction d. */
  function LinePoint(a: Point, d: Point, s: real): Point
  {
    Point(a.x + s * d.x, a.y + s * d.y)
  }

  /** Every point of pts lies on the line through a with direction d. */
  ghost predicate AllOnLine(pts: seq<Point>, a: Point, d: Point)
  {
    forall k :: 0 <= k < |pts| ==> exists s :: pts[k] == LinePoint(a, d, s)
  }

  /** CatmullRomKeepsLines for control values already known to be a + s * d. */
  lemma CoordOnLine(c0: real, c1: real, c2: real, c3: real, a: real, d: real,
                    s0: real, s1: real, s2: real, s3: real, t: real)
    requires c0 == a + s0 * d && c1 == a + s1 * d && c2 == a + s2 * d && c3 == a + s3 * d
    ensures CatmullRomCoord(c0, c1, c2, c3, t) == a + CatmullRomCoord(s0, s1, s2, s3, t) * d
  {
    CatmullRomKeepsLines(a, d, s0, s1, s2, s3, t);
  }

  /** The x coordinate of the Catmull-Rom point of four points on a line. */
  lemma CatmullRomXOnLine(p0: Point, p1: Point, p2: Point, p3: Point, a: Point, d: Point,
                          s0: real, s1: real, s2: real, s3: real, t: real)
    requires p0 == LinePoint(a, d, s0) && p1 == LinePoint(a, d, s1)
    requires p2 == LinePoint(a, d, s2) && p3 == LinePoint(a, d, s3)
    ensures CatmullRomPoint(p0, p1, p2, p3, t).x == a.x + CatmullRomCoord(s0, s1, s2, s3, t) * d.x
  {
    CoordOnLine(p0.x, p1.x, p2.x, p3.x, a.x, d.x, s0, s1, s2, s3, t);
  }

  /** The y coordinate of the Catmull-Rom point of four points on a line. */
  lemma CatmullRomYOnLine(p0: Point, p1: Point, p2: Point, p3: Point, a: Point, d: Point,
                          s0: real, s1: real, s2: real, s3: real, t: real)
    requires p0 == LinePoint(a, d, s0) && p1 == LinePoint(a, d, s1)
    requires p2 == LinePoint(a, d, s2) && p3 == LinePoint(a, d, s3)
    ensures CatmullRomPoint(p0, p1, p2, p3, t).y == a.y + CatmullRomCoord(s0, s1, s2, s3, t) * d.y
  {
    CoordOnLine(p0.y, p1.y, p2.y, p3.y, a.y, d.y, s0, s1, s2, s3, t);
  }

  /** A point whose two coordinates are those of the line at parameter c is
      that point of the line. */
  lemma LinePointByCoordinates(r: Point, a: Point, d: Point, c: real)
    requires r.x == a.x + c * d.x && r.y == a.y + c * d.y
    ensures r == LinePoint(a, d, c)
  {
  }

  /** The Catmull-Rom point of four points on a line is the point of that
      line at the parameter the same basis gives for their parameters. */
  lemma CatmullRomPointOnLine(p0: Point, p1: Point, p2: Point, p3: Point, a: Point, d: Point,
                              s0: real, s1: real, s2: real, s3: real, t: real)
    requires p0 == LinePoint(a, d, s0) && p1 == LinePoint(a, d, s1)
    requires p2 == LinePoint(a, d, s2) && p3 == LinePoint(a, d, s3)
    ensures CatmullRomPoint(p0, p1, p2, p3, t) == LinePoint(a, d, CatmullRomCoord(s0, s1, s2, s3, t))
  {
    CatmullRomXOnLine(p0, p1, p2, p3, a, d, s0, s1, s2, s3, t);
    CatmullRomYOnLine(p0, p1, p2, p3, a, d, s0, s1, s2, s3, t);
    LinePointByCoordinates(CatmullRomPoint(p0, p1, p2, p3, t), a, d, CatmullRomCoord(s0, s1, s2, s3, t));
  }

  /** A segment between points of a line, with clamped neighbours from the
      same line, stays on the line. */
  lemma SegmentOnLine(pts: seq<Point>, i: nat, segs: int, a: Point, d: Point)
    requires i + 1 < |pts| && AllOnLine(pts, a, d)
    ensures AllOnLine(Segment(pts, i, segs), a, d)
  {
    var b := if i > 0 then i - 1 else i;
    var c := if i + 2 < |pts| then i + 2 else i + 1;
    assert Before(pts, i) == pts[b] && After(pts, i) == pts[c];
    var s0 :| pts[b] == LinePoint(a, d, s0);
    var s1 :| pts[i] == LinePoint(a, d, s1);
    var s2 :| pts[i + 1] == LinePoint(a, d, s2);
    var s3 :| pts[c] == LinePoint(a, d, s3);
    var seg := Segment(pts, i, segs);
    forall k | 0 <= k < |seg|
      ensures exists s :: seg[k] == LinePoint(a, d, s)
    {
      var t := (k + 1) as real / segs as real;
      CatmullRomPointOnLine(pts[b], pts[i], pts[i + 1], pts[c], a, d, s0, s1, s2, s3, t);
      assert seg[k] == LinePoint(a, d, CatmullRomCoord(s0, s1, s2, s3, t));
    }
  }

  lemma {:induction false} SplinePrefixOnLine(pts: seq<Point>, segs: int, i: nat, a: Point, d: Point)
    requires i < |pts| && AllOnLine(pts, a, d)
    ensures AllOnLine(SplinePrefix(pts, segs, i), a, d)
    decreases i
  {
    var r := SplinePrefix(pts, segs, i);
    if i == 0 {
      assert r[0] == pts[0];
      assert exists s :: pts[0] == LinePoint(a, d, s);
    } else {
      var prev := SplinePrefix(pts, segs, i - 1);
      var seg := Segment(pts, i - 1, segs);
      SplinePrefixOnLine(pts, segs, i - 1, a, d);
      SegmentOnLine(pts, i - 1, segs, a, d);
      assert r == prev + seg;
      forall k | 0 <= k < |r|
        ensures exists s :: r[k] == LinePoint(a, d, s)
      {
        if k < |prev| {
          assert r[k] == prev[k];
        } else {
          assert r[k] == seg[k - |prev|];
        }
      }
    }
  }

  /** Interpolating points of a line gives only points of that line. */
  lemma InterpolateOnLine(pts: seq<Point>, segs: int, a: Point, d: Point)
    requires AllOnLine(pts, a, d)
    ensures AllOnLine(Interpolate(pts, segs), a, d)
  {
    if |pts| > 2 {
      SplinePrefixOnLine(pts, segs, |pts| - 1, a, d);
    }
  }

  /** A stroke drawn along a straight line is rendered on that line: every
      rendered point of the smoothed stroke lies on the line of the samples. */
  lemma SmoothKeepsLines(raw: seq<Point>, a: Point, d: Point)
    requires AllOnLine(raw, a, d)
    ensures AllOnLine(Smooth(raw), a, d)
  {
    if |raw| >= 2 {
      var simplified := Simplify(raw, JitterThreshold);
      SimplifyProperties(raw, JitterThreshold);
      if |raw| > 2 {
        var idx := KeptIndices(raw, |raw| - 1, JitterThreshold) + [|raw| - 1];
        assert TakenInOrder(simplified, idx, raw, |raw|);
        forall k | 0 <= k < |simplified|
          ensures exists s :: simplified[k] == LinePoint(a, d, s)
        {
          assert simplified[k] == raw[idx[k]];
        }
      }
      InterpolateOnLine(simplified, PenSegments, a, d);
    }
  }
}
