/** The values behind the canvas's legacy, index-based store: the eraser's
    per-item collision tests, the flattening of shape groups into the
    eraser's preview lists, the drag-rectangle selection tests and the
    per-item translation used when moving a selection. */
module LegacyStore {
  import opened Geometry
  import opened Seqs
  import opened Strokes
  import opened Collision
  import opened Objects

  /** Radius of the disc that erases on contact while dragging. */
  const EraserRadius: real := 10.0

  /** Radius of the disc that previews what the eraser would take. */
  const EraserPreviewRadius: real := 20.0

  // ---------------------------------------------------------------------
  // Eraser collision, item by item

  /** A rectangle group collides when any of its rectangles does. */
  predicate RectangleInEraserRadius(g: Rectangle, ex: real, ey: real, radius: real)
  {
    exists i :: 0 <= i < |g.rects| && IsRectInEraserRadius(g.rects[i], ex, ey, radius)
  }

  /** A circle group collides when any of its circles does. */
  predicate CircleGroupInEraserRadius(g: Circle, ex: real, ey: real, radius: real)
  {
    exists i :: 0 <= i < |g.circles| && IsCircleInEraserRadius(g.circles[i], ex, ey, radius)
  }

  function StrokeHit(ex: real, ey: real, radius: real): StrokeData -> bool
  {
    s => IsStrokeInEraserRadius(s, ex, ey, radius)
  }

  function RectangleHit(ex: real, ey: real, radius: real): Rectangle -> bool
  {
    g => RectangleInEraserRadius(g, ex, ey, radius)
  }

  function RectHit(ex: real, ey: real, radius: real): Rect -> bool
  {
    r => IsRectInEraserRadius(r, ex, ey, radius)
  }

  function CircleGroupHit(ex: real, ey: real, radius: real): Circle -> bool
  {
    g => CircleGroupInEraserRadius(g, ex, ey, radius)
  }

  function CircleHit(ex: real, ey: real, radius: real): CircleData -> bool
  {
    c => IsCircleInEraserRadius(c, ex, ey, radius)
  }

  /** All rectangles of a list of groups, group after group. */
  function RectsOf(groups: seq<Rectangle>): seq<Rect>
    decreases |groups|
  {
    if |groups| == 0 then []
    else RectsOf(groups[..|groups| - 1]) + groups[|groups| - 1].rects
  }

  /** All circles of a list of groups, group after group. */
  function CirclesOf(groups: seq<Circle>): seq<CircleData>
    decreases |groups|
  {
    if |groups| == 0 then []
    else CirclesOf(groups[..|groups| - 1]) + groups[|groups| - 1].circles
  }

  /** Flattening a concatenation flattens each part. */
  lemma {:induction false} RectsOfAppend(a: seq<Rectangle>, b: seq<Rectangle>)
    ensures RectsOf(a + b) == RectsOf(a) + RectsOf(b)
    decreases |b|
  {
    if |b| == 0 {
      assert a + b == a;
    } else {
      var n := |b| - 1;
      assert (a + b)[..|a + b| - 1] == a + b[..n];
      RectsOfAppend(a, b[..n]);
    }
  }

  /** Flattening a concatenation flattens each part. */
  lemma {:induction false} CirclesOfAppend(a: seq<Circle>, b: seq<Circle>)
    ensures CirclesOf(a + b) == CirclesOf(a) + CirclesOf(b)
    decreases |b|
  {
    if |b| == 0 {
      assert a + b == a;
    } else {
      var n := |b| - 1;
      assert (a + b)[..|a + b| - 1] == a + b[..n];
      CirclesOfAppend(a, b[..n]);
    }
  }

  /** Erasing whole groups moves exactly the rectangles of the groups hit:
      every rectangle ends up either still committed or in the preview. */
  lemma RectangleEraseConserves(groups: seq<Rectangle>, ex: real, ey: real, radius: real)
    ensures var f := RectangleHit(ex, ey, radius);
      multiset(RectsOf(Filter(groups, f))) + multiset(RectsOf(Reject(groups, f))) == multiset(RectsOf(groups))
  {
    SplitConserves(groups, RectangleHit(ex, ey, radius));
  }

  /** Every rectangle of `groups` is, as often as there, in the groups that
      match `f` or in those that do not. */
  ghost predicate RectsSplitBy(groups: seq<Rectangle>, f: Rectangle -> bool)
  {
    multiset(RectsOf(Filter(groups, f))) + multiset(RectsOf(Reject(groups, f))) == multiset(RectsOf(groups))
  }

  lemma {:induction false} SplitConserves(groups: seq<Rectangle>, f: Rectangle -> bool)
    ensures RectsSplitBy(groups, f)
    decreases |groups|
  {
    if |groups| > 0 {
      var n := |groups| - 1;
      SplitConserves(groups[..n], f);
      FlattenSplitStep(groups, f);
      SplitAppend(RectsOf(Filter(groups[..n], f)), RectsOf(Reject(groups[..n], f)), RectsOf(groups[..n]), groups[n].rects, f(groups[n]));
    }
  }

  /** Adding one group to the end adds its rectangles to exactly one side of the split. */
  lemma FlattenSplitStep(groups: seq<Rectangle>, f: Rectangle -> bool)
    requires |groups| > 0
    ensures var n := |groups| - 1;
      && RectsOf(groups) == RectsOf(groups[..n]) + groups[n].rects
      && RectsOf(Filter(groups, f)) == RectsOf(Filter(groups[..n], f)) + (if f(groups[n]) then groups[n].rects else [])
      && RectsOf(Reject(groups, f)) == RectsOf(Reject(groups[..n], f)) + (if f(groups[n]) then [] else groups[n].rects)
  {
    var n := |groups| - 1;
    var g := groups[n];
    var hit, kept := Filter(groups[..n], f), Reject(groups[..n], f);
    if f(g) {
      assert Filter(groups, f) == hit + [g];
      assert (hit + [g])[..|hit|] == hit;
      assert Reject(groups, f) == kept;
    } else {
      assert Reject(groups, f) == kept + [g];
      assert (kept + [g])[..|kept|] == kept;
      assert Filter(groups, f) == hit;
    }
  }

  // ---------------------------------------------------------------------
  // Selection by drag rectangle

  /** A selection region with its edges in order. */
  datatype Region = Region(minX: real, maxX: real, minY: real, maxY: real)

  /** The region spanned by two drag corners, whichever way round they are given. */
  function DragRegion(x1: real, y1: real, x2: real, y2: real): (r: Region)
    ensures r.minX <= r.maxX && r.minY <= r.maxY
  {
    Region(Min(x1, x2), Max(x1, x2), Min(y1, y2), Max(y1, y2))
  }

  /** Inclusive containment in the region. */
  predicate InRegion(r: Region, px: real, py: real)
  {
    px >= r.minX && px <= r.maxX && py >= r.minY && py <= r.maxY
  }

  /** A stroke is selected when one of its points lies in the region. */
  predicate StrokeInRegion(st: StrokeData, r: Region)
    ensures StrokeInRegion(st, r) ==> |st.points| > 0 && r.minX <= r.maxX && r.minY <= r.maxY
    ensures |st.points| > 0 && InRegion(r, st.points[0].x, st.points[0].y) ==> StrokeInRegion(st, r)
  {
    exists i :: 0 <= i < |st.points| && InRegion(r, st.points[i].x, st.points[i].y)
  }

  /** The rectangle is not entirely to one side of the region. A rectangle
      with non-negative extents and a corner in the region overlaps it. */
  predicate RectOverlapsRegion(rect: Rect, r: Region)
    ensures rect.width >= 0.0 && rect.height >= 0.0 ==>
      (InRegion(r, rect.x, rect.y) || InRegion(r, rect.x + rect.width, rect.y + rect.height)) ==>
        RectOverlapsRegion(rect, r)
  {
    !(rect.x + rect.width < r.minX || rect.x > r.maxX || rect.y + rect.height < r.minY || rect.y > r.maxY)
  }

  /** The circle's enclosing square is not entirely to one side of the
      region: the rectangle test applied to that square, which a circle with
      its centre in the region passes. */
  predicate CircleOverlapsRegion(c: CircleData, r: Region)
    ensures CircleOverlapsRegion(c, r) <==> RectOverlapsRegion(Rect(c.x - c.r, c.y - c.r, 2.0 * c.r, 2.0 * c.r, c.color), r)
    ensures c.r >= 0.0 && InRegion(r, c.x, c.y) ==> CircleOverlapsRegion(c, r)
  {
    !(c.x + c.r < r.minX || c.x - c.r > r.maxX || c.y + c.r < r.minY || c.y - c.r > r.maxY)
  }

  predicate RectangleOverlapsRegion(g: Rectangle, r: Region)
  {
    exists i :: 0 <= i < |g.rects| && RectOverlapsRegion(g.rects[i], r)
  }

  predicate CircleGroupOverlapsRegion(g: Circle, r: Region)
  {
    exists i :: 0 <= i < |g.circles| && CircleOverlapsRegion(g.circles[i], r)
  }

  function StrokeSelect(r: Region): StrokeData -> bool
  {
    st => StrokeInRegion(st, r)
  }

  function RectangleSelect(r: Region): Rectangle -> bool
  {
    g => RectangleOverlapsRegion(g, r)
  }

  function CircleGroupSelect(r: Region): Circle -> bool
  {
    g => CircleGroupOverlapsRegion(g, r)
  }

  /** Dragging from either corner to the opposite one, or along the other
      diagonal, gives the same region, and a point is in it exactly when it
      lies between the two corners on each axis. */
  lemma DragRegionSymmetric(x1: real, y1: real, x2: real, y2: real, px: real, py: real)
    ensures DragRegion(x1, y1, x2, y2) == DragRegion(x2, y2, x1, y1) == DragRegion(x1, y2, x2, y1)
    ensures InRegion(DragRegion(x1, y1, x2, y2), px, py) <==>
      (x1 <= px <= x2 || x2 <= px <= x1) && (y1 <= py <= y2 || y2 <= py <= y1)
  {
  }

  /** For a rectangle with non-negative extents, the overlap test holds
      exactly when the rectangle and the region share a point. */
  lemma RectOverlapIsIntersection(rect: Rect, r: Region)
    requires rect.width >= 0.0 && rect.height >= 0.0 && r.minX <= r.maxX && r.minY <= r.maxY
    ensures RectOverlapsRegion(rect, r) <==>
      exists px, py :: InRegion(r, px, py) &&
        rect.x <= px <= rect.x + rect.width && rect.y <= py <= rect.y + rect.height
  {
    if RectOverlapsRegion(rect, r) {
      var px, py := Max(rect.x, r.minX), Max(rect.y, r.minY);
      assert InRegion(r, px, py) && rect.x <= px <= rect.x + rect.width && rect.y <= py <= rect.y + rect.height;
    }
  }

  /** The overlap test on the area the rectangle covers on screen. */
  predicate DrawnRectOverlapsRegion(rect: Rect, r: Region)
  {
    RectOverlapsRegion(DrawnRect(rect), r)
  }

  /** The corrected overlap test holds exactly when the region and the drawn
      area share a point, whichever way the rectangle was dragged, and agrees
      with the program's test on rectangles with non-negative extents. */
  lemma DrawnRectOverlapIsIntersection(rect: Rect, r: Region)
    requires r.minX <= r.maxX && r.minY <= r.maxY
    ensures DrawnRectOverlapsRegion(rect, r) <==>
      exists px, py :: InRegion(r, px, py) && IsPointInDrawnRectangle(rect, px, py)
    ensures rect.width >= 0.0 && rect.height >= 0.0 ==>
      (DrawnRectOverlapsRegion(rect, r) <==> RectOverlapsRegion(rect, r))
  {
    RectOverlapIsIntersection(DrawnRect(rect), r);
  }

  /** A rectangle dragged from (10, 0) to (0, 10) covers [0, 10] x [0, 10] on
      screen, and a selection dragged from (2, 2) to (8, 8) lies inside it;
      the program's overlap test still reports no overlap, the corrected one
      reports it. */
  lemma LeftwardRectangleEscapesSelection()
    ensures var rect := Rect(10.0, 0.0, -10.0, 10.0, Color());
      var r := DragRegion(2.0, 2.0, 8.0, 8.0);
      && InRegion(r, 5.0, 5.0) && IsPointInDrawnRectangle(rect, 5.0, 5.0)
      && !RectOverlapsRegion(rect, r) && DrawnRectOverlapsRegion(rect, r)
  {
  }

  // ---------------------------------------------------------------------
  // Moving items of the legacy store

  /** A stroke with every point moved by (dx, dy). */
  function ShiftStroke(st: StrokeData, dx: real, dy: real): (r: StrokeData)
    ensures r.color == st.color && r.width == st.width && |r.points| == |st.points|
    ensures forall i :: 0 <= i < |st.points| ==> r.points[i] == Point(st.points[i].x + dx, st.points[i].y + dy)
  {
    st.(points := TranslatePoints(st.points, dx, dy))
  }

  /** A rectangle group with every rectangle moved by (dx, dy). */
  function ShiftRectangle(g: Rectangle, dx: real, dy: real): (r: Rectangle)
    ensures |r.rects| == |g.rects|
    ensures forall i :: 0 <= i < |g.rects| ==> r.rects[i] == g.rects[i].(x := g.rects[i].x + dx, y := g.rects[i].y + dy)
  {
    Rectangle(seq(|g.rects|, i requires 0 <= i < |g.rects| => g.rects[i].(x := g.rects[i].x + dx, y := g.rects[i].y + dy)))
  }

  /** A circle group with every centre moved by (dx, dy). */
  function ShiftCircleGroup(g: Circle, dx: real, dy: real): (r: Circle)
    ensures |r.circles| == |g.circles|
    ensures forall i :: 0 <= i < |g.circles| ==> r.circles[i] == g.circles[i].(x := g.circles[i].x + dx, y := g.circles[i].y + dy)
  {
    Circle(seq(|g.circles|, i requires 0 <= i < |g.circles| => g.circles[i].(x := g.circles[i].x + dx, y := g.circles[i].y + dy)))
  }

  /** Two moves of a stroke add up, and a zero move changes nothing. */
  lemma StrokeShiftsCompose(st: StrokeData, a: real, b: real, dx: real, dy: real)
    ensures ShiftStroke(ShiftStroke(st, a, b), dx, dy) == ShiftStroke(st, a + dx, b + dy)
    ensures ShiftStroke(st, 0.0, 0.0) == st
  {
    assert ShiftStroke(ShiftStroke(st, a, b), dx, dy).points == ShiftStroke(st, a + dx, b + dy).points;
    assert ShiftStroke(st, 0.0, 0.0).points == st.points;
  }

  /** Two moves of a rectangle group add up, and a zero move changes nothing. */
  lemma RectangleShiftsCompose(g: Rectangle, a: real, b: real, dx: real, dy: real)
    ensures ShiftRectangle(ShiftRectangle(g, a, b), dx, dy) == ShiftRectangle(g, a + dx, b + dy)
    ensures ShiftRectangle(g, 0.0, 0.0) == g
  {
    assert ShiftRectangle(ShiftRectangle(g, a, b), dx, dy).rects == ShiftRectangle(g, a + dx, b + dy).rects;
    assert ShiftRectangle(g, 0.0, 0.0).rects == g.rects;
  }

  /** Two moves of a circle group add up, and a zero move changes nothing. */
  lemma CircleShiftsCompose(c: Circle, a: real, b: real, dx: real, dy: real)
    ensures ShiftCircleGroup(ShiftCircleGroup(c, a, b), dx, dy) == ShiftCircleGroup(c, a + dx, b + dy)
    ensures ShiftCircleGroup(c, 0.0, 0.0) == c
  {
    assert ShiftCircleGroup(ShiftCircleGroup(c, a, b), dx, dy).circles == ShiftCircleGroup(c, a + dx, b + dy).circles;
    assert ShiftCircleGroup(c, 0.0, 0.0).circles == c.circles;
  }

  /** Flattening after appending one group appends its rectangles. */
  lemma RectsOfSnoc(a: seq<Rectangle>, g: Rectangle)
    ensures RectsOf(a + [g]) == RectsOf(a) + g.rects
  {
    assert (a + [g])[..|a|] == a;
  }

  /** Flattening after appending one group appends its circles. */
  lemma CirclesOfSnoc(a: seq<Circle>, c: Circle)
    ensures CirclesOf(a + [c]) == CirclesOf(a) + c.circles
  {
    assert (a + [c])[..|a|] == a;
  }

  /** One step of a filtering pass over groups, seen through the flattening. */
  lemma RectsOfFilterStep(s: seq<Rectangle>, j: nat, f: Rectangle -> bool)
    requires j < |s|
    ensures RectsOf(Filter(s[..j + 1], f)) == RectsOf(Filter(s[..j], f)) + (if f(s[j]) then s[j].rects else [])
  {
    PrefixStep(s, j, f);
    if f(s[j]) {
      RectsOfSnoc(Filter(s[..j], f), s[j]);
    } else {
      assert Filter(s[..j + 1], f) == Filter(s[..j], f);
    }
  }

  /** Flattening one more group of a prefix appends that group's members. */
  lemma RectsOfPrefixStep(s: seq<Rectangle>, j: nat)
    requires j < |s|
    ensures RectsOf(s[..j + 1]) == RectsOf(s[..j]) + s[j].rects
  {
    assert s[..j + 1] == s[..j] + [s[j]];
    RectsOfSnoc(s[..j], s[j]);
  }

  /** One step of a filtering pass over circle groups, seen through the flattening. */
  lemma CirclesOfFilterStep(s: seq<Circle>, j: nat, f: Circle -> bool)
    requires j < |s|
    ensures CirclesOf(Filter(s[..j + 1], f)) == CirclesOf(Filter(s[..j], f)) + (if f(s[j]) then s[j].circles else [])
  {
    PrefixStep(s, j, f);
    if f(s[j]) {
      CirclesOfSnoc(Filter(s[..j], f), s[j]);
    } else {
      assert Filter(s[..j + 1], f) == Filter(s[..j], f);
    }
  }

  /** Flattening one more group of a prefix appends that group's members. */
  lemma CirclesOfPrefixStep(s: seq<Circle>, j: nat)
    requires j < |s|
    ensures CirclesOf(s[..j + 1]) == CirclesOf(s[..j]) + s[j].circles
  {
    assert s[..j + 1] == s[..j] + [s[j]];
    CirclesOfSnoc(s[..j], s[j]);
  }

  /** Moving an item m times and once more is moving it n = m + 1 times. */
  lemma StrokeMovedOnceMore(g: StrokeData, m: nat, n: nat, dx: real, dy: real)
    requires n == m + 1
    ensures ShiftStroke(ShiftStroke(g, m as real * dx, m as real * dy), dx, dy) == ShiftStroke(g, n as real * dx, n as real * dy)
  {
    var a, b := m as real * dx, m as real * dy;
    assert n as real * dx == a + dx && n as real * dy == b + dy;
    StrokeShiftsCompose(g, a, b, dx, dy);
  }

  /** Moving an item m times and once more is moving it n = m + 1 times. */
  lemma RectangleMovedOnceMore(g: Rectangle, m: nat, n: nat, dx: real, dy: real)
    requires n == m + 1
    ensures ShiftRectangle(ShiftRectangle(g, m as real * dx, m as real * dy), dx, dy) == ShiftRectangle(g, n as real * dx, n as real * dy)
  {
    var a, b := m as real * dx, m as real * dy;
    assert n as real * dx == a + dx && n as real * dy == b + dy;
    RectangleShiftsCompose(g, a, b, dx, dy);
  }

  /** Moving an item m times and once more is moving it n = m + 1 times. */
  lemma CircleGroupMovedOnceMore(g: Circle, m: nat, n: nat, dx: real, dy: real)
    requires n == m + 1
    ensures ShiftCircleGroup(ShiftCircleGroup(g, m as real * dx, m as real * dy), dx, dy) == ShiftCircleGroup(g, n as real * dx, n as real * dy)
  {
    var a, b := m as real * dx, m as real * dy;
    assert n as real * dx == a + dx && n as real * dy == b + dy;
    CircleShiftsCompose(g, a, b, dx, dy);
  }

  /** How many times index k is listed. */
  function Occurrences(indices: seq<int>, k: int): (n: nat)
    ensures n == 0 <==> k !in indices
  {
    multiset(indices)[k]
  }

  /** `f` applied n times to x. */
  function Repeat<T>(f: T -> T, x: T, n: nat): T
    decreases n
  {
    if n == 0 then x else f(Repeat(f, x, n - 1))
  }

  /** One move of a stroke by (dx, dy), as a function value. */
  function StrokeMove(dx: real, dy: real): StrokeData -> StrokeData
  {
    st => ShiftStroke(st, dx, dy)
  }

  /** One move of a rectangle group by (dx, dy), as a function value. */
  function RectangleMove(dx: real, dy: real): Rectangle -> Rectangle
  {
    g => ShiftRectangle(g, dx, dy)
  }

  /** One move of a circle group by (dx, dy), as a function value. */
  function CircleGroupMove(dx: real, dy: real): Circle -> Circle
  {
    g => ShiftCircleGroup(g, dx, dy)
  }

  /** Moving a stroke n times by (dx, dy) is moving it once by (n dx, n dy). */
  lemma {:induction false} RepeatedStrokeMove(st: StrokeData, n: nat, dx: real, dy: real)
    ensures Repeat(StrokeMove(dx, dy), st, n) == ShiftStroke(st, n as real * dx, n as real * dy)
    decreases n
  {
    if n == 0 {
      StrokeShiftsCompose(st, 0.0, 0.0, 0.0, 0.0);
      assert n as real * dx == 0.0 && n as real * dy == 0.0;
    } else {
      var m: nat := n - 1;
      calc {
        Repeat(StrokeMove(dx, dy), st, n);
        ShiftStroke(Repeat(StrokeMove(dx, dy), st, m), dx, dy);
        { RepeatedStrokeMove(st, m, dx, dy); }
        ShiftStroke(ShiftStroke(st, m as real * dx, m as real * dy), dx, dy);
        { StrokeMovedOnceMore(st, m, n, dx, dy); }
        ShiftStroke(st, n as real * dx, n as real * dy);
      }
    }
  }

  /** Moving a rectangle group n times by (dx, dy) is moving it once by (n dx, n dy). */
  lemma {:induction false} RepeatedRectangleMove(g: Rectangle, n: nat, dx: real, dy: real)
    ensures Repeat(RectangleMove(dx, dy), g, n) == ShiftRectangle(g, n as real * dx, n as real * dy)
    decreases n
  {
    if n == 0 {
      RectangleShiftsCompose(g, 0.0, 0.0, 0.0, 0.0);
      assert n as real * dx == 0.0 && n as real * dy == 0.0;
    } else {
      var m: nat := n - 1;
      calc {
        Repeat(RectangleMove(dx, dy), g, n);
        ShiftRectangle(Repeat(RectangleMove(dx, dy), g, m), dx, dy);
        { RepeatedRectangleMove(g, m, dx, dy); }
        ShiftRectangle(ShiftRectangle(g, m as real * dx, m as real * dy), dx, dy);
        { RectangleMovedOnceMore(g, m, n, dx, dy); }
        ShiftRectangle(g, n as real * dx, n as real * dy);
      }
    }
  }

  /** Moving a circle group n times by (dx, dy) is moving it once by (n dx, n dy). */
  lemma {:induction false} RepeatedCircleGroupMove(g: Circle, n: nat, dx: real, dy: real)
    ensures Repeat(CircleGroupMove(dx, dy), g, n) == ShiftCircleGroup(g, n as real * dx, n as real * dy)
    decreases n
  {
    if n == 0 {
      CircleShiftsCompose(g, 0.0, 0.0, 0.0, 0.0);
      assert n as real * dx == 0.0 && n as real * dy == 0.0;
    } else {
      var m: nat := n - 1;
      calc {
        Repeat(CircleGroupMove(dx, dy), g, n);
        ShiftCircleGroup(Repeat(CircleGroupMove(dx, dy), g, m), dx, dy);
        { RepeatedCircleGroupMove(g, m, dx, dy); }
        ShiftCircleGroup(ShiftCircleGroup(g, m as real * dx, m as real * dy), dx, dy);
        { CircleGroupMovedOnceMore(g, m, n, dx, dy); }
        ShiftCircleGroup(g, n as real * dx, n as real * dy);
      }
    }
  }

  /** Applying `f` once more to item `idx` (when it lies inside the store)
      turns a store where each item had `f` applied once per listing in
      `prefix` into one where it is applied once per listing in prefix + [idx]. */
  lemma ApplyOncePerListingStep<T>(f: T -> T, store: seq<T>, moved: seq<T>, prefix: seq<int>, idx: int)
    requires |moved| == |store|
    requires forall k :: 0 <= k < |store| ==> moved[k] == Repeat(f, store[k], Occurrences(prefix, k))
    ensures var next := if 0 <= idx < |store| then moved[idx := f(moved[idx])] else moved;
      forall k :: 0 <= k < |store| ==> next[k] == Repeat(f, store[k], Occurrences(prefix + [idx], k))
  {
    assert multiset(prefix + [idx]) == multiset(prefix) + multiset{idx};
  }
}
