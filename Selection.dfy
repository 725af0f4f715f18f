/** The selection manager of the unified object system: the ordered list of
    selected objects, kept in step with each object's own selection flag,
    and the group operations on it. */
module Selection {
  import opened Geometry
  import opened Objects

  // ---------------------------------------------------------------------
  // The union of a group of boxes

  function Lefts(boxes: seq<BoundingBox>): (r: seq<real>)
    ensures |r| == |boxes| && forall i :: 0 <= i < |boxes| ==> r[i] == boxes[i].x
  {
    seq(|boxes|, i requires 0 <= i < |boxes| => boxes[i].x)
  }

  function Rights(boxes: seq<BoundingBox>): (r: seq<real>)
    ensures |r| == |boxes| && forall i :: 0 <= i < |boxes| ==> r[i] == boxes[i].x + boxes[i].width
  {
    seq(|boxes|, i requires 0 <= i < |boxes| => boxes[i].x + boxes[i].width)
  }

  function Tops(boxes: seq<BoundingBox>): (r: seq<real>)
    ensures |r| == |boxes| && forall i :: 0 <= i < |boxes| ==> r[i] == boxes[i].y
  {
    seq(|boxes|, i requires 0 <= i < |boxes| => boxes[i].y)
  }

  function Bottoms(boxes: seq<BoundingBox>): (r: seq<real>)
    ensures |r| == |boxes| && forall i :: 0 <= i < |boxes| ==> r[i] == boxes[i].y + boxes[i].height
  {
    seq(|boxes|, i requires 0 <= i < |boxes| => boxes[i].y + boxes[i].height)
  }

  /** The four extreme edges of a non-empty group of boxes. */
  datatype Extent = Extent(minX: real, maxX: real, minY: real, maxY: real)

  function ExtentOf(boxes: seq<BoundingBox>): Extent
    requires |boxes| > 0
  {
    Extent(SeqMin(Lefts(boxes)), SeqMax(Rights(boxes)), SeqMin(Tops(boxes)), SeqMax(Bottoms(boxes)))
  }

  /** The edges of a single box. */
  function BoxEdges(b: BoundingBox): Extent
  {
    Extent(b.x, b.x + b.width, b.y, b.y + b.height)
  }

  /** One step of the program's fold: the extent grown to take in one more box. */
  function Widen(e: Extent, b: BoundingBox): Extent
  {
    Extent(Min(e.minX, b.x), Max(e.maxX, b.x + b.width), Min(e.minY, b.y), Max(e.maxY, b.y + b.height))
  }

  /** The union of a group of boxes: the box spanned by their extreme edges;
      all zeros for no boxes. */
  function UnionBounds(boxes: seq<BoundingBox>): (u: BoundingBox)
    ensures |boxes| == 0 ==> u == EmptyBox()
    ensures |boxes| == 1 ==> u == boxes[0]
    ensures forall k :: 0 <= k < |boxes| ==> u.width >= boxes[k].width && u.height >= boxes[k].height
  {
    if |boxes| == 0 then BoundingBox()
    else
      SeqExtremes(Lefts(boxes));
      SeqExtremes(Rights(boxes));
      SeqExtremes(Tops(boxes));
      SeqExtremes(Bottoms(boxes));
      var e := ExtentOf(boxes);
      BoundingBox(e.minX, e.minY, e.maxX - e.minX, e.maxY - e.minY)
  }

  /** The union is the smallest cover of the group: every edge of every box
      lies within it, and each of its four edges is the edge of some box. */
  lemma UnionBoundsIsSmallestCover(boxes: seq<BoundingBox>)
    ensures |boxes| == 0 ==> UnionBounds(boxes) == BoundingBox()
    ensures var u := UnionBounds(boxes);
      forall k :: 0 <= k < |boxes| ==>
        u.x <= boxes[k].x && boxes[k].x + boxes[k].width <= u.x + u.width &&
        u.y <= boxes[k].y && boxes[k].y + boxes[k].height <= u.y + u.height
    ensures var u := UnionBounds(boxes);
      |boxes| > 0 ==>
        (exists k :: 0 <= k < |boxes| && u.x == boxes[k].x) &&
        (exists k :: 0 <= k < |boxes| && u.x + u.width == boxes[k].x + boxes[k].width) &&
        (exists k :: 0 <= k < |boxes| && u.y == boxes[k].y) &&
        (exists k :: 0 <= k < |boxes| && u.y + u.height == boxes[k].y + boxes[k].height)
  {
    if |boxes| > 0 {
      var u := UnionBounds(boxes);
      SeqExtremes(Lefts(boxes));
      SeqExtremes(Rights(boxes));
      SeqExtremes(Tops(boxes));
      SeqExtremes(Bottoms(boxes));
      var a :| 0 <= a < |boxes| && u.x == Lefts(boxes)[a];
      var b :| 0 <= b < |boxes| && u.x + u.width == Rights(boxes)[b];
      var c :| 0 <= c < |boxes| && u.y == Tops(boxes)[c];
      var d :| 0 <= d < |boxes| && u.y + u.height == Bottoms(boxes)[d];
    }
  }

  /** Shifting every box by (dx, dy) shifts their union by (dx, dy) and keeps its size. */
  lemma UnionBoundsTranslates(boxes: seq<BoundingBox>, moved: seq<BoundingBox>, dx: real, dy: real)
    requires |moved| == |boxes|
    requires forall k :: 0 <= k < |boxes| ==>
      moved[k] == BoundingBox(boxes[k].x + dx, boxes[k].y + dy, boxes[k].width, boxes[k].height)
    ensures |boxes| > 0 ==>
      var u, u' := UnionBounds(boxes), UnionBounds(moved);
      u'.x == u.x + dx && u'.y == u.y + dy && u'.width == u.width && u'.height == u.height
  {
    if |boxes| > 0 {
      EdgesShift(boxes, moved, dx, dy);
    }
  }

  lemma EdgesShift(boxes: seq<BoundingBox>, moved: seq<BoundingBox>, dx: real, dy: real)
    requires |boxes| > 0 && |moved| == |boxes|
    requires forall k :: 0 <= k < |boxes| ==>
      moved[k] == BoundingBox(boxes[k].x + dx, boxes[k].y + dy, boxes[k].width, boxes[k].height)
    ensures ExtentOf(moved).minX == ExtentOf(boxes).minX + dx
    ensures ExtentOf(moved).maxX == ExtentOf(boxes).maxX + dx
    ensures ExtentOf(moved).minY == ExtentOf(boxes).minY + dy
    ensures ExtentOf(moved).maxY == ExtentOf(boxes).maxY + dy
  {
    ShiftedExtremes(Lefts(boxes), Lefts(moved), dx);
    ShiftedExtremes(Rights(boxes), Rights(moved), dx);
    ShiftedExtremes(Tops(boxes), Tops(moved), dy);
    ShiftedExtremes(Bottoms(boxes), Bottoms(moved), dy);
  }

  /** The boxes of a list of objects, in list order. */
  function Boxes(objs: seq<DrawableObject>): seq<BoundingBox>
    reads objs
    decreases |objs|
  {
    if |objs| == 0 then []
    else Boxes(objs[..|objs| - 1]) + [Bounds(objs[|objs| - 1].shape)]
  }

  // ---------------------------------------------------------------------
  // The selection manager

  class SelectionManager {
    var selectedObjects: seq<DrawableObject>

    /** Each object is listed at most once, and every listed object has its
        selection flag set. */
    ghost predicate Valid()
      reads this, selectedObjects
    {
      && (forall i, j :: 0 <= i < j < |selectedObjects| ==> selectedObjects[i] != selectedObjects[j])
      && (forall i :: 0 <= i < |selectedObjects| ==> selectedObjects[i].isSelected)
    }

    constructor ()
      ensures selectedObjects == [] && Valid()
    {
      selectedObjects := [];
    }

    /** Whether the object is in the list. */
    predicate IsSelected(obj: DrawableObject)
      reads this
      ensures IsSelected(obj) ==> HasSelection()
      ensures IsSelected(obj) <==> exists i :: 0 <= i < |selectedObjects| && selectedObjects[i] == obj
    {
      obj in selectedObjects
    }

    predicate HasSelection()
      reads this
      ensures HasSelection() <==> exists obj :: obj in selectedObjects
    {
      assert |selectedObjects| > 0 ==> selectedObjects[0] in selectedObjects;
      |selectedObjects| > 0
    }

    /** Unflags every listed object, then empties the list. */
    method ClearSelection()
      modifies this, selectedObjects
      ensures selectedObjects == [] && Valid()
      ensures forall o :: o in old(selectedObjects) ==> !o.isSelected && o.shape == old(o.shape)
    {
      var i := 0;
      while i < |selectedObjects|
        invariant 0 <= i <= |selectedObjects|
        invariant selectedObjects == old(selectedObjects)
        invariant forall j :: 0 <= j < i ==> !selectedObjects[j].isSelected
        invariant forall o :: o in selectedObjects ==> o.shape == old(o.shape)
      {
        selectedObjects[i].isSelected := false;
        i := i + 1;
      }
      selectedObjects := [];
    }

    /** Appends and flags an object that is not yet listed; a listed object
        changes nothing. */
    method AddToSelection(obj: DrawableObject)
      requires Valid()
      modifies this, obj
      ensures Valid()
      ensures old(obj in selectedObjects) ==> selectedObjects == old(selectedObjects)
      ensures old(obj !in selectedObjects) ==> selectedObjects == old(selectedObjects) + [obj]
      ensures obj.isSelected && obj.shape == old(obj.shape)
    {
      if !IsSelected(obj) {
        selectedObjects := selectedObjects + [obj];
        obj.isSelected := true;
      }
    }

    /** Finds the object in the list; if it is there, unflags it and erases
        that entry, keeping the others in order. */
    method RemoveFromSelection(obj: DrawableObject)
      requires Valid()
      modifies this, obj
      ensures Valid()
      ensures obj !in selectedObjects
      ensures old(obj !in selectedObjects) ==> selectedObjects == old(selectedObjects) && obj.isSelected == old(obj.isSelected)
      ensures old(obj in selectedObjects) ==>
        !obj.isSelected &&
        exists i :: 0 <= i < |old(selectedObjects)| && old(selectedObjects)[i] == obj &&
          selectedObjects == old(selectedObjects)[..i] + old(selectedObjects)[i + 1..]
      ensures obj.shape == old(obj.shape)
    {
      var i := 0;
      while i < |selectedObjects| && selectedObjects[i] != obj
        invariant 0 <= i <= |selectedObjects|
        invariant forall j :: 0 <= j < i ==> selectedObjects[j] != obj
      {
        i := i + 1;
      }
      if i < |selectedObjects| {
        var before := selectedObjects;
        selectedObjects[i].isSelected := false;
        selectedObjects := selectedObjects[..i] + selectedObjects[i + 1..];
        assert forall j :: 0 <= j < |selectedObjects| ==>
          selectedObjects[j] == if j < i then before[j] else before[j + 1];
      }
    }

    /** The union of the boxes of the selected objects; all zeros when
        nothing is selected. */
    method GetSelectionBounds() returns (u: BoundingBox)
      ensures u == UnionBounds(Boxes(selectedObjects))
    {
      u := FoldUnion(Boxes(selectedObjects));
    }

    /** Translates every selected object once. */
    method MoveSelection(dx: real, dy: real)
      requires Valid()
      modifies selectedObjects
      ensures Valid()
      ensures forall i :: 0 <= i < |selectedObjects| ==>
        selectedObjects[i].shape == Translated(old(selectedObjects[i].shape), dx, dy)
    {
      var i := 0;
      while i < |selectedObjects|
        invariant 0 <= i <= |selectedObjects|
        invariant Valid()
        invariant forall j :: 0 <= j < i ==>
          selectedObjects[j].shape == Translated(old(selectedObjects[j].shape), dx, dy)
        invariant forall j :: i <= j < |selectedObjects| ==> selectedObjects[j].shape == old(selectedObjects[j].shape)
      {
        selectedObjects[i].Translate(dx, dy);
        i := i + 1;
      }
    }

    /** Scales every selected object once about the same origin. */
    method ScaleSelection(sx: real, sy: real, ox: real, oy: real)
      requires Valid()
      modifies selectedObjects
      ensures Valid()
      ensures forall i :: 0 <= i < |selectedObjects| ==>
        selectedObjects[i].shape == Scaled(old(selectedObjects[i].shape), sx, sy, ox, oy)
    {
      var i := 0;
      while i < |selectedObjects|
        invariant 0 <= i <= |selectedObjects|
        invariant Valid()
        invariant forall j :: 0 <= j < i ==>
          selectedObjects[j].shape == Scaled(old(selectedObjects[j].shape), sx, sy, ox, oy)
        invariant forall j :: i <= j < |selectedObjects| ==> selectedObjects[j].shape == old(selectedObjects[j].shape)
      {
        selectedObjects[i].Scale(sx, sy, ox, oy);
        i := i + 1;
      }
    }
  }

  /** The union of a group of boxes, folded from the first box as the
      program does: every box, the first one included, widens the running extent. */
  method FoldUnion(boxes: seq<BoundingBox>) returns (u: BoundingBox)
    ensures u == UnionBounds(boxes)
  {
    if |boxes| == 0 {
      return BoundingBox();
    }
    var first := boxes[0];
    var minX, maxX := first.x, first.x + first.width;
    var minY, maxY := first.y, first.y + first.height;
    var i := 0;
    while i < |boxes|
      invariant 0 <= i <= |boxes|
      invariant i == 0 ==> minX == first.x && maxX == first.x + first.width && minY == first.y && maxY == first.y + first.height
      invariant i > 0 ==> var e := ExtentOf(boxes[..i]);
        minX == e.minX && maxX == e.maxX && minY == e.minY && maxY == e.maxY
    {
      var b := boxes[i];
      minX := Min(minX, b.x);
      maxX := Max(maxX, b.x + b.width);
      minY := Min(minY, b.y);
      maxY := Max(maxY, b.y + b.height);
      FoldStep(boxes, i);
      i := i + 1;
    }
    assert boxes[..i] == boxes;
    u := BoundingBox(minX, minY, maxX - minX, maxY - minY);
    UnionFromExtent(boxes, u);
  }

  lemma UnionFromExtent(boxes: seq<BoundingBox>, u: BoundingBox)
    requires |boxes| > 0
    requires var e := ExtentOf(boxes);
      u.x == e.minX && u.y == e.minY && u.width == e.maxX - e.minX && u.height == e.maxY - e.minY
    ensures u == UnionBounds(boxes)
  {
  }

  /** One step of the union fold: the extent of the first i + 1 boxes is the
      extent so far (the first box's own edges when i is 0) widened by box i. */
  lemma FoldStep(boxes: seq<BoundingBox>, i: nat)
    requires i < |boxes|
    ensures var e, w := ExtentOf(boxes[..i + 1]), Widen(if i == 0 then BoxEdges(boxes[0]) else ExtentOf(boxes[..i]), boxes[i]);
      e.minX == w.minX && e.maxX == w.maxX && e.minY == w.minY && e.maxY == w.maxY
  {
    var pre, cur := boxes[..i], boxes[..i + 1];
    assert Lefts(cur)[..i] == Lefts(pre);
    assert Rights(cur)[..i] == Rights(pre);
    assert Tops(cur)[..i] == Tops(pre);
    assert Bottoms(cur)[..i] == Bottoms(pre);
  }
}
