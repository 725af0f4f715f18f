/** The resize controller's arithmetic: from the selection's box, the handle
    being dragged and the mouse's displacement, the two scale factors and
    the origin about which the selection is scaled. */
module Resize {
  import opened Geometry
  import opened Objects

  /** A scale is applied only when both factors exceed this. */
  const MinResizeScale: real := 0.1

  /** The factors and origin of one resize step. */
  datatype ResizePlan = ResizePlan(scaleX: real, scaleY: real, originX: real, originY: real)

  /** The handle moves the box's left edge. */
  predicate DragsLeft(h: HandlePosition)
  {
    h == TopLeft || h == BottomLeft || h == Left
  }

  /** The handle moves the box's right edge. */
  predicate DragsRight(h: HandlePosition)
  {
    h == TopRight || h == BottomRight || h == Right
  }

  /** The handle moves the box's top edge. */
  predicate DragsTop(h: HandlePosition)
  {
    h == TopLeft || h == TopRight || h == Top
  }

  /** The handle moves the box's bottom edge. */
  predicate DragsBottom(h: HandlePosition)
  {
    h == BottomLeft || h == BottomRight || h == Bottom
  }

  /** The factors are finite: every axis the handle scales has a non-zero extent. */
  predicate CanPlan(b: BoundingBox, h: HandlePosition)
  {
    && (DragsLeft(h) || DragsRight(h) ==> b.width != 0.0)
    && (DragsTop(h) || DragsBottom(h) ==> b.height != 0.0)
  }

  /** The program's per-handle factors: the dragged edge's displacement over
      the extent, about the opposite edge; an axis the handle does not drag
      keeps factor 1 and the box's centre. */
  function PlanResize(b: BoundingBox, h: HandlePosition, dx: real, dy: real): (p: ResizePlan)
    requires CanPlan(b, h)
    ensures DragsRight(h) ==> p.originX == b.x
    ensures DragsLeft(h) ==> p.originX == b.x + b.width
    ensures DragsBottom(h) ==> p.originY == b.y
    ensures DragsTop(h) ==> p.originY == b.y + b.height
    ensures !DragsLeft(h) && !DragsRight(h) ==> p.scaleX == 1.0 && p.originX == b.x + b.width / 2.0
    ensures !DragsTop(h) && !DragsBottom(h) ==> p.scaleY == 1.0 && p.originY == b.y + b.height / 2.0
  {
    var centreX := b.x + b.width / 2.0;
    var centreY := b.y + b.height / 2.0;
    match h
    case TopLeft =>
      ResizePlan((b.width - dx) / b.width, (b.height - dy) / b.height, b.x + b.width, b.y + b.height)
    case TopRight =>
      ResizePlan((b.width + dx) / b.width, (b.height - dy) / b.height, b.x, b.y + b.height)
    case BottomLeft =>
      ResizePlan((b.width - dx) / b.width, (b.height + dy) / b.height, b.x + b.width, b.y)
    case BottomRight =>
      ResizePlan((b.width + dx) / b.width, (b.height + dy) / b.height, b.x, b.y)
    case Left => ResizePlan((b.width - dx) / b.width, 1.0, b.x + b.width, centreY)
    case Right => ResizePlan((b.width + dx) / b.width, 1.0, b.x, centreY)
    case Top => ResizePlan(1.0, (b.height - dy) / b.height, centreX, b.y + b.height)
    case Bottom => ResizePlan(1.0, (b.height + dy) / b.height, centreX, b.y)
    case NoHandle => ResizePlan(1.0, 1.0, centreX, centreY)
  }

  /** Whether the program applies the step: both factors above the minimum. */
  predicate Applies(p: ResizePlan)
  {
    p.scaleX > MinResizeScale && p.scaleY > MinResizeScale
  }

  /** Whether a drag by (dx, dy) on handle h of box b rescales the selection. */
  predicate TakesStep(b: BoundingBox, h: HandlePosition, dx: real, dy: real)
  {
    h != NoHandle && CanPlan(b, h) && Applies(PlanResize(b, h, dx, dy))
  }

  /** Scaling about the low edge by (extent + d) / extent keeps the low edge
      and moves the high edge by d. */
  lemma HighEdgeFollows(lo: real, extent: real, d: real)
    requires extent != 0.0
    ensures ScaleAbout(lo, lo, (extent + d) / extent) == lo
    ensures ScaleAbout(lo + extent, lo, (extent + d) / extent) == lo + extent + d
  {
    var f := (extent + d) / extent;
    assert extent * f == extent + d;
    calc {
      ScaleAbout(lo + extent, lo, f);
      lo + (lo + extent - lo) * f;
      lo + extent * f;
    }
  }

  /** Scaling about the high edge by (extent - d) / extent keeps the high edge
      and moves the low edge by d. */
  lemma LowEdgeFollows(lo: real, extent: real, d: real)
    requires extent != 0.0
    ensures ScaleAbout(lo + extent, lo + extent, (extent - d) / extent) == lo + extent
    ensures ScaleAbout(lo, lo + extent, (extent - d) / extent) == lo + d
  {
    var f := (extent - d) / extent;
    assert extent * f == extent - d;
    calc {
      ScaleAbout(lo, lo + extent, f);
      lo + extent + (lo - (lo + extent)) * f;
      lo + extent - extent * f;
    }
  }

  /** Resizing makes the dragged edges follow the mouse exactly while the
      opposite edges stay put; an axis the handle does not drag is not scaled. */
  lemma ResizeFollowsMouse(b: BoundingBox, h: HandlePosition, dx: real, dy: real)
    requires CanPlan(b, h)
    ensures var p := PlanResize(b, h, dx, dy);
      && (DragsRight(h) ==>
            ScaleAbout(b.x, p.originX, p.scaleX) == b.x &&
            ScaleAbout(b.x + b.width, p.originX, p.scaleX) == b.x + b.width + dx)
      && (DragsLeft(h) ==>
            ScaleAbout(b.x + b.width, p.originX, p.scaleX) == b.x + b.width &&
            ScaleAbout(b.x, p.originX, p.scaleX) == b.x + dx)
      && (!DragsLeft(h) && !DragsRight(h) ==> p.scaleX == 1.0)
      && (DragsBottom(h) ==>
            ScaleAbout(b.y, p.originY, p.scaleY) == b.y &&
            ScaleAbout(b.y + b.height, p.originY, p.scaleY) == b.y + b.height + dy)
      && (DragsTop(h) ==>
            ScaleAbout(b.y + b.height, p.originY, p.scaleY) == b.y + b.height &&
            ScaleAbout(b.y, p.originY, p.scaleY) == b.y + dy)
      && (!DragsTop(h) && !DragsBottom(h) ==> p.scaleY == 1.0)
  {
    if DragsRight(h) {
      HighEdgeFollows(b.x, b.width, dx);
    }
    if DragsLeft(h) {
      LowEdgeFollows(b.x, b.width, dx);
    }
    if DragsBottom(h) {
      HighEdgeFollows(b.y, b.height, dy);
    }
    if DragsTop(h) {
      LowEdgeFollows(b.y, b.height, dy);
    }
  }

  /** Every handle other than NoHandle drags exactly one vertical edge or
      none, and exactly one horizontal edge or none; corners drag one of each. */
  lemma HandlesDragOneSidePerAxis(h: HandlePosition)
    ensures !(DragsLeft(h) && DragsRight(h)) && !(DragsTop(h) && DragsBottom(h))
    ensures h == NoHandle <==> !DragsLeft(h) && !DragsRight(h) && !DragsTop(h) && !DragsBottom(h)
    ensures (h == TopLeft || h == TopRight || h == BottomLeft || h == BottomRight) <==>
      (DragsLeft(h) || DragsRight(h)) && (DragsTop(h) || DragsBottom(h))
  {
  }
}
