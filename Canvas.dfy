/** The drawing area: the committed legacy store (strokes, rectangle groups,
    circle groups), the eraser's preview lists, the legacy index selection,
    and the unified object list with its selection manager and the
    move/resize controller. */
module Canvas {
  import opened Geometry
  import opened Seqs
  import opened Strokes
  import opened Collision
  import opened Objects
  import opened Selection
  import opened LegacyStore
  import opened Resize

  datatype Option<T> = None | Some(value: T)

  /** The topmost object under (x, y): the last one in drawing order that is hit. */
  function TopmostHit(objs: seq<DrawableObject>, x: real, y: real): (r: Option<DrawableObject>)
    reads objs
    ensures r.Some? ==> r.value in objs && Hits(r.value.shape, x, y)
    decreases |objs|
  {
    if |objs| == 0 then None
    else if Hits(objs[|objs| - 1].shape, x, y) then Some(objs[|objs| - 1])
    else TopmostHit(objs[..|objs| - 1], x, y)
  }

  /** TopmostHit finds nothing exactly when no object is hit, and otherwise
      the hit object that no later object covers. */
  lemma {:induction false} TopmostHitIsTopmost(objs: seq<DrawableObject>, x: real, y: real)
    ensures var r := TopmostHit(objs, x, y);
      && (r.None? <==> forall k :: 0 <= k < |objs| ==> !Hits(objs[k].shape, x, y))
      && (r.Some? ==>
            exists k :: 0 <= k < |objs| && objs[k] == r.value && Hits(objs[k].shape, x, y) &&
              forall j :: k < j < |objs| ==> !Hits(objs[j].shape, x, y))
    decreases |objs|
  {
    if |objs| > 0 && !Hits(objs[|objs| - 1].shape, x, y) {
      var below := objs[..|objs| - 1];
      TopmostHitIsTopmost(below, x, y);
      assert forall k :: 0 <= k < |below| ==> below[k] == objs[k];
    }
  }

  /** For each object, the handle of its box under (x, y) when it is
      selected, NoHandle when it is not. */
  function SelectedHandles(objs: seq<DrawableObject>, x: real, y: real): (hs: seq<HandlePosition>)
    reads objs
    ensures |hs| == |objs|
  {
    seq(|objs|, i reads objs requires 0 <= i < |objs| =>
      if objs[i].isSelected then HandleAt(Bounds(objs[i].shape), x, y) else NoHandle)
  }

  /** The first entry of `hs`, from position k on, that is a handle; NoHandle
      when there is none. */
  function FirstHandleFrom(hs: seq<HandlePosition>, k: nat): HandlePosition
    requires k <= |hs|
    decreases |hs| - k
  {
    if k == |hs| then NoHandle
    else if hs[k] != NoHandle then hs[k]
    else FirstHandleFrom(hs, k + 1)
  }

  /** The handle under (x, y) of the first selected object, from position k
      on, that has one there; NoHandle when none does. */
  function FirstSelectedHandle(objs: seq<DrawableObject>, x: real, y: real, k: nat): HandlePosition
    reads objs
    requires k <= |objs|
  {
    FirstHandleFrom(SelectedHandles(objs, x, y), k)
  }

  /** FirstHandleFrom is NoHandle exactly when no entry from position k on is
      a handle, and otherwise the entry at the first position that is. */
  lemma {:induction false} FirstHandleFromIsFirst(hs: seq<HandlePosition>, k: nat)
    requires k <= |hs|
    ensures var h := FirstHandleFrom(hs, k);
      && (h == NoHandle <==> forall j :: k <= j < |hs| ==> hs[j] == NoHandle)
      && (h != NoHandle ==>
            exists j :: k <= j < |hs| && hs[j] == h && forall i :: k <= i < j ==> hs[i] == NoHandle)
    decreases |hs| - k
  {
    if k < |hs| && hs[k] == NoHandle {
      FirstHandleFromIsFirst(hs, k + 1);
    }
  }

  /** The eraser's preview lists: what the current gesture has taken or would take. */
  class Eraser {
    var strokeToErase: seq<StrokeData>
    var rectangleToErase: seq<Rect>
    var circleToErase: seq<CircleData>

    constructor ()
      ensures strokeToErase == [] && rectangleToErase == [] && circleToErase == []
    {
      strokeToErase := [];
      rectangleToErase := [];
      circleToErase := [];
    }
  }

  class DrawingArea {
    // The unified object system
    var drawableObjects: seq<DrawableObject>
    var selectionManager: SelectionManager

    // The legacy store
    var completedStrokes: seq<StrokeData>
    var currentStroke: Stroke
    var completedRectangles: seq<Rectangle>
    var completedCircles: seq<Circle>
    var currentEraser: Eraser

    // Tool state
    var isDrawing: bool
    var isMoving: bool
    var isResizing: bool
    var currentPenWidth: real
    var currentPenColor: Color
    var defaultRectangleColor: Color

    // Legacy selection and the move/resize controller
    var selectedStrokeIndices: seq<int>
    var selectedRectangleIndices: seq<int>
    var selectedCircleIndices: seq<int>
    var selectionStart: Point
    var currentHandle: HandlePosition

    /** Every flag agrees with the manager's list: an object of the canvas is
        flagged exactly when it is listed as selected. */
    ghost predicate SelectionAgrees()
      reads this, drawableObjects, selectionManager
    {
      forall k :: 0 <= k < |drawableObjects| ==>
        (drawableObjects[k].isSelected <==> drawableObjects[k] in selectionManager.selectedObjects)
    }

    /** An empty canvas: no objects, nothing committed, nothing selected, no
        gesture under way, the controller at the origin with no handle. The
        stroke in progress is default-constructed (width 3.0, dark blue), not
        taken from the pen; the first press or pen setting replaces it. */
    constructor (penWidth: real, penColor: Color)
      ensures drawableObjects == [] && fresh(selectionManager) && selectionManager.selectedObjects == []
      ensures selectionManager.Valid() && SelectionAgrees()
      ensures completedStrokes == [] && completedRectangles == [] && completedCircles == []
      ensures fresh(currentEraser) && currentEraser.strokeToErase == [] &&
        currentEraser.rectangleToErase == [] && currentEraser.circleToErase == []
      ensures selectedStrokeIndices == [] && selectedRectangleIndices == [] && selectedCircleIndices == []
      ensures !isDrawing && !isMoving && !isResizing
      ensures selectionStart == Point(0.0, 0.0) && currentHandle == NoHandle
      ensures currentPenWidth == penWidth && currentPenColor == penColor
      ensures defaultRectangleColor == Color(0.0, 0.0, 0.0)
      ensures fresh(currentStroke) && currentStroke.width == DefaultStrokeWidth && currentStroke.color == DefaultStrokeColor()
      ensures currentStroke.rawPoints == [] && currentStroke.points == []
    {
      drawableObjects := [];
      selectionManager := new SelectionManager();
      completedStrokes := [];
      currentStroke := new Stroke();
      completedRectangles := [];
      completedCircles := [];
      currentEraser := new Eraser();
      isDrawing, isMoving, isResizing := false, false, false;
      currentPenWidth, currentPenColor := penWidth, penColor;
      defaultRectangleColor := Color(0.0, 0.0, 0.0);
      selectedStrokeIndices, selectedRectangleIndices, selectedCircleIndices := [], [], [];
      selectionStart := Point(0.0, 0.0);
      currentHandle := NoHandle;
    }

    // -------------------------------------------------------------------
    // Pen settings

    /** The width of the stroke being drawn and of every later stroke. */
    method SetStrokeWidth(w: real)
      modifies this`currentPenWidth, currentStroke`width
      ensures currentPenWidth == w && currentStroke.width == w
    {
      currentPenWidth := w;
      currentStroke.width := w;
    }

    /** The colour of the stroke being drawn and of every later stroke. */
    method SetStrokeColor(c: Color)
      modifies this`currentPenColor, currentStroke`color
      ensures currentPenColor == c && currentStroke.color == c
    {
      currentPenColor := c;
      currentStroke.color := c;
    }

    /** The colour given to rectangles drawn from now on. */
    method SetRectangleColor(c: Color)
      modifies this`defaultRectangleColor
      ensures defaultRectangleColor == c
    {
      defaultRectangleColor := c;
    }

    // -------------------------------------------------------------------
    // The object list

    /** Puts an object on top of the drawing order. */
    method AddDrawableObject(obj: DrawableObject)
      modifies this`drawableObjects
      ensures drawableObjects == old(drawableObjects) + [obj]
    {
      drawableObjects := drawableObjects + [obj];
    }

    /** Finds the object in the drawing order and erases that entry; the
        selection manager's list is left as it is. */
    method RemoveDrawableObject(obj: DrawableObject)
      modifies this`drawableObjects
      ensures drawableObjects == RemoveFirst(old(drawableObjects), obj)
    {
      var i := 0;
      while i < |drawableObjects| && drawableObjects[i] != obj
        invariant 0 <= i <= |drawableObjects|
        invariant obj !in drawableObjects[..i]
      {
        i := i + 1;
      }
      RemoveFirstSkips(drawableObjects, obj, i);
      if i < |drawableObjects| {
        assert drawableObjects[i..][1..] == drawableObjects[i + 1..];
        drawableObjects := drawableObjects[..i] + drawableObjects[i + 1..];
      }
    }

    // -------------------------------------------------------------------
    // Committed strokes

    /** Drops every committed stroke and starts a fresh stroke with the
        current pen; rectangles and circles stay. */
    method ClearCanvas()
      modifies this`completedStrokes, this`currentStroke, this`isDrawing
      ensures completedStrokes == [] && !isDrawing
      ensures fresh(currentStroke) && currentStroke.rawPoints == [] && currentStroke.points == []
      ensures currentStroke.width == currentPenWidth && currentStroke.color == currentPenColor
    {
      completedStrokes := [];
      currentStroke := new Stroke(currentPenWidth, currentPenColor);
      isDrawing := false;
    }

    /** Removes the most recently committed stroke, if there is one. */
    method Undo()
      modifies this`completedStrokes
      ensures |old(completedStrokes)| == 0 ==> completedStrokes == []
      ensures |old(completedStrokes)| > 0 ==>
        |completedStrokes| == |old(completedStrokes)| - 1 &&
        old(completedStrokes) == completedStrokes + [old(completedStrokes)[|completedStrokes|]]
    {
      if |completedStrokes| > 0 {
        completedStrokes := completedStrokes[..|completedStrokes| - 1];
      }
    }

    // -------------------------------------------------------------------
    // The eraser

    /** Erase on contact: every committed stroke, rectangle group and circle
        group the radius-10 disc at (x, y) touches is removed from the store
        and appended (a group as its members) to the preview lists; what is
        left keeps its order. */
    method UpdateEraserCollision(x: real, y: real)
      modifies this`completedStrokes, this`completedRectangles, this`completedCircles, currentEraser
      ensures completedStrokes == Reject(old(completedStrokes), StrokeHit(x, y, EraserRadius))
      ensures currentEraser.strokeToErase ==
        old(currentEraser.strokeToErase) + Filter(old(completedStrokes), StrokeHit(x, y, EraserRadius))
      ensures completedRectangles == Reject(old(completedRectangles), RectangleHit(x, y, EraserRadius))
      ensures currentEraser.rectangleToErase ==
        old(currentEraser.rectangleToErase) + RectsOf(Filter(old(completedRectangles), RectangleHit(x, y, EraserRadius)))
      ensures completedCircles == Reject(old(completedCircles), CircleGroupHit(x, y, EraserRadius))
      ensures currentEraser.circleToErase ==
        old(currentEraser.circleToErase) + CirclesOf(Filter(old(completedCircles), CircleGroupHit(x, y, EraserRadius)))
    {
      var strokes, strokePreview := EraseStrokes(completedStrokes, currentEraser.strokeToErase, x, y);
      completedStrokes := strokes;
      currentEraser.strokeToErase := strokePreview;
      var groups, rectPreview := EraseRectangles(completedRectangles, currentEraser.rectangleToErase, x, y);
      completedRectangles := groups;
      currentEraser.rectangleToErase := rectPreview;
      var circles, circlePreview := EraseCircles(completedCircles, currentEraser.circleToErase, x, y);
      completedCircles := circles;
      currentEraser.circleToErase := circlePreview;
    }

    /** Hover preview: recomputes the preview lists as the members within the
        radius-20 disc at (x, y), in store order, without touching the store. */
    method UpdateEraserPreview(x: real, y: real)
      modifies currentEraser
      ensures currentEraser.strokeToErase == Filter(completedStrokes, StrokeHit(x, y, EraserPreviewRadius))
      ensures currentEraser.rectangleToErase == Filter(RectsOf(completedRectangles), RectHit(x, y, EraserPreviewRadius))
      ensures currentEraser.circleToErase == Filter(CirclesOf(completedCircles), CircleHit(x, y, EraserPreviewRadius))
    {
      currentEraser.strokeToErase := [];
      currentEraser.rectangleToErase := [];
      currentEraser.circleToErase := [];

      var f := StrokeHit(x, y, EraserPreviewRadius);
      var i := 0;
      while i < |completedStrokes|
        invariant 0 <= i <= |completedStrokes|
        invariant currentEraser.strokeToErase == Filter(completedStrokes[..i], f)
      {
        PrefixStep(completedStrokes, i, f);
        if IsStrokeInEraserRadius(completedStrokes[i], x, y, EraserPreviewRadius) {
          currentEraser.strokeToErase := currentEraser.strokeToErase + [completedStrokes[i]];
        }
        i := i + 1;
      }
      assert completedStrokes[..i] == completedStrokes;

      var rects := PreviewRects(completedRectangles, x, y);
      currentEraser.rectangleToErase := rects;
      var circles := PreviewCircles(completedCircles, x, y);
      currentEraser.circleToErase := circles;
    }

    // -------------------------------------------------------------------
    // Legacy index-based selection

    /** Empties the three index lists. */
    method ClearAllSelections()
      modifies this`selectedStrokeIndices, this`selectedRectangleIndices, this`selectedCircleIndices
      ensures selectedStrokeIndices == [] && selectedRectangleIndices == [] && selectedCircleIndices == []
    {
      selectedStrokeIndices := [];
      selectedRectangleIndices := [];
      selectedCircleIndices := [];
    }

    /** The canvas's "clear selection" command: clears the legacy index lists only. */
    method ClearSelection()
      modifies this`selectedStrokeIndices, this`selectedRectangleIndices, this`selectedCircleIndices
      ensures selectedStrokeIndices == [] && selectedRectangleIndices == [] && selectedCircleIndices == []
    {
      ClearAllSelections();
    }

    /** Appends, in increasing order, the index of every stroke with a point in
        the dragged region and of every group with a member overlapping it. */
    method SelectObjectsInRectangle(x1: real, y1: real, x2: real, y2: real)
      modifies this`selectedStrokeIndices, this`selectedRectangleIndices, this`selectedCircleIndices
      ensures selectedStrokeIndices ==
        old(selectedStrokeIndices) + IndicesWhere(completedStrokes, StrokeSelect(DragRegion(x1, y1, x2, y2)))
      ensures selectedRectangleIndices ==
        old(selectedRectangleIndices) + IndicesWhere(completedRectangles, RectangleSelect(DragRegion(x1, y1, x2, y2)))
      ensures selectedCircleIndices ==
        old(selectedCircleIndices) + IndicesWhere(completedCircles, CircleGroupSelect(DragRegion(x1, y1, x2, y2)))
    {
      var minX, maxX := Min(x1, x2), Max(x1, x2);
      var minY, maxY := Min(y1, y2), Max(y1, y2);
      var region := Region(minX, maxX, minY, maxY);
      selectedStrokeIndices := SelectStrokes(completedStrokes, region, selectedStrokeIndices);
      selectedRectangleIndices := SelectRectangles(completedRectangles, region, selectedRectangleIndices);
      selectedCircleIndices := SelectCircles(completedCircles, region, selectedCircleIndices);
    }

    /** Moves every item whose index is listed by (dx, dy), once per listing;
        indices outside the store are skipped and unlisted items stay put. */
    method MoveSelectedObjects(dx: real, dy: real)
      modifies this`completedStrokes, this`completedRectangles, this`completedCircles
      ensures |completedStrokes| == |old(completedStrokes)|
      ensures forall k :: 0 <= k < |completedStrokes| ==>
        completedStrokes[k] == Repeat(StrokeMove(dx, dy), old(completedStrokes)[k], Occurrences(selectedStrokeIndices, k))
      ensures |completedRectangles| == |old(completedRectangles)|
      ensures forall k :: 0 <= k < |completedRectangles| ==>
        completedRectangles[k] == Repeat(RectangleMove(dx, dy), old(completedRectangles)[k], Occurrences(selectedRectangleIndices, k))
      ensures |completedCircles| == |old(completedCircles)|
      ensures forall k :: 0 <= k < |completedCircles| ==>
        completedCircles[k] == Repeat(CircleGroupMove(dx, dy), old(completedCircles)[k], Occurrences(selectedCircleIndices, k))
    {
      var strokes := MoveStrokes(completedStrokes, selectedStrokeIndices, dx, dy);
      completedStrokes := strokes;
      var groups := MoveRectangles(completedRectangles, selectedRectangleIndices, dx, dy);
      completedRectangles := groups;
      var circles := MoveCircles(completedCircles, selectedCircleIndices, dx, dy);
      completedCircles := circles;
    }

    // -------------------------------------------------------------------
    // The unified object system

    /** The topmost object hit at (x, y), scanning from the last drawn. */
    method FindObjectAtPoint(x: real, y: real) returns (found: Option<DrawableObject>)
      ensures found == TopmostHit(drawableObjects, x, y)
    {
      var i := |drawableObjects|;
      assert drawableObjects[..i] == drawableObjects;
      while i > 0
        invariant 0 <= i <= |drawableObjects|
        invariant TopmostHit(drawableObjects, x, y) == TopmostHit(drawableObjects[..i], x, y)
      {
        assert drawableObjects[..i][..i - 1] == drawableObjects[..i - 1];
        if drawableObjects[i - 1].HitTest(x, y) {
          return Some(drawableObjects[i - 1]);
        }
        i := i - 1;
      }
      return None;
    }

    /** The handle under (x, y) of the first selected object that has one there. */
    method FindHandleAtPoint(x: real, y: real) returns (h: HandlePosition)
      ensures h == FirstSelectedHandle(drawableObjects, x, y, 0)
    {
      var i := 0;
      while i < |drawableObjects|
        invariant 0 <= i <= |drawableObjects|
        invariant FirstSelectedHandle(drawableObjects, x, y, 0) == FirstSelectedHandle(drawableObjects, x, y, i)
      {
        var obj := drawableObjects[i];
        if obj.isSelected {
          var handle := obj.GetHandleAtPoint(x, y);
          if handle != NoHandle {
            return handle;
          }
        }
        i := i + 1;
      }
      return NoHandle;
    }

    /** A click in select mode: empty space clears the selection unless
        extending it; with the modifier the clicked object is toggled;
        without it the clicked object becomes the only selection. Every
        object dropped from the list is unflagged, on the canvas or not. */
    method UpdateSelection(x: real, y: real, multiSelect: bool)
      requires selectionManager.Valid() && SelectionAgrees()
      modifies selectionManager, selectionManager.selectedObjects, drawableObjects
      ensures selectionManager.Valid() && SelectionAgrees()
      ensures var clicked := old(TopmostHit(drawableObjects, x, y));
        && (clicked.None? && !multiSelect ==> selectionManager.selectedObjects == [])
        && (clicked.None? && multiSelect ==> selectionManager.selectedObjects == old(selectionManager.selectedObjects))
        && (clicked.Some? && !multiSelect ==> selectionManager.selectedObjects == [clicked.value])
        && (clicked.Some? && multiSelect && clicked.value in old(selectionManager.selectedObjects) ==>
              !clicked.value.isSelected &&
              exists i :: 0 <= i < |old(selectionManager.selectedObjects)| &&
                old(selectionManager.selectedObjects)[i] == clicked.value &&
                selectionManager.selectedObjects ==
                  old(selectionManager.selectedObjects)[..i] + old(selectionManager.selectedObjects)[i + 1..])
        && (clicked.Some? && multiSelect && clicked.value !in old(selectionManager.selectedObjects) ==>
              selectionManager.selectedObjects == old(selectionManager.selectedObjects) + [clicked.value])
      ensures forall k :: 0 <= k < |drawableObjects| ==> drawableObjects[k].shape == old(drawableObjects[k].shape)
      ensures forall o :: o in old(selectionManager.selectedObjects) && o !in selectionManager.selectedObjects ==>
        !o.isSelected && o.shape == old(o.shape)
    {
      var clicked := FindObjectAtPoint(x, y);
      TopmostHitIsTopmost(drawableObjects, x, y);
      if !multiSelect && clicked.None? {
        DeselectAll();
      } else if clicked.Some? {
        if multiSelect {
          ToggleSelected(clicked.value);
        } else {
          SelectOnly(clicked.value);
        }
      }
    }

    /** Empties the selection and unflags everything that was in it. */
    method DeselectAll()
      requires selectionManager.Valid() && SelectionAgrees()
      modifies selectionManager, selectionManager.selectedObjects
      ensures selectionManager.Valid() && SelectionAgrees()
      ensures selectionManager.selectedObjects == []
      ensures forall o :: o in old(selectionManager.selectedObjects) ==> !o.isSelected && o.shape == old(o.shape)
    {
      selectionManager.ClearSelection();
    }

    /** Extends the selection by `obj`, or drops it when it is already listed. */
    method ToggleSelected(obj: DrawableObject)
      requires selectionManager.Valid() && SelectionAgrees()
      modifies selectionManager, obj
      ensures selectionManager.Valid() && SelectionAgrees()
      ensures obj.shape == old(obj.shape)
      ensures old(obj in selectionManager.selectedObjects) ==>
        !obj.isSelected &&
        exists i :: 0 <= i < |old(selectionManager.selectedObjects)| &&
          old(selectionManager.selectedObjects)[i] == obj &&
          selectionManager.selectedObjects ==
            old(selectionManager.selectedObjects)[..i] + old(selectionManager.selectedObjects)[i + 1..]
      ensures old(obj !in selectionManager.selectedObjects) ==>
        selectionManager.selectedObjects == old(selectionManager.selectedObjects) + [obj]
      ensures forall o :: o in old(selectionManager.selectedObjects) && o !in selectionManager.selectedObjects ==>
        o == obj && !o.isSelected
    {
      if selectionManager.IsSelected(obj) {
        selectionManager.RemoveFromSelection(obj);
      } else {
        selectionManager.AddToSelection(obj);
      }
    }

    /** Makes `obj` the only selected object. */
    method SelectOnly(obj: DrawableObject)
      requires selectionManager.Valid() && SelectionAgrees()
      modifies selectionManager, selectionManager.selectedObjects, obj
      ensures selectionManager.Valid() && SelectionAgrees()
      ensures selectionManager.selectedObjects == [obj]
      ensures obj.shape == old(obj.shape)
      ensures forall o :: o in old(selectionManager.selectedObjects) && o != obj ==> !o.isSelected && o.shape == old(o.shape)
    {
      DeselectAll();
      selectionManager.AddToSelection(obj);
    }

    /** Starts a move from (x, y) when something is selected. */
    method StartMoveOperation(x: real, y: real)
      modifies this`isMoving, this`selectionStart
      ensures |selectionManager.selectedObjects| > 0 ==> isMoving && selectionStart == Point(x, y)
      ensures |selectionManager.selectedObjects| == 0 ==>
        isMoving == old(isMoving) && selectionStart == old(selectionStart)
    {
      if selectionManager.HasSelection() {
        isMoving := true;
        selectionStart := Point(x, y);
      }
    }

    /** Starts a resize from (x, y) by `handle` when something is selected and
        the handle is a real one. */
    method StartResizeOperation(x: real, y: real, handle: HandlePosition)
      modifies this`isResizing, this`currentHandle, this`selectionStart
      ensures |selectionManager.selectedObjects| > 0 && handle != NoHandle ==>
        isResizing && currentHandle == handle && selectionStart == Point(x, y)
      ensures |selectionManager.selectedObjects| == 0 || handle == NoHandle ==>
        isResizing == old(isResizing) && currentHandle == old(currentHandle) && selectionStart == old(selectionStart)
    {
      if selectionManager.HasSelection() && handle != NoHandle {
        isResizing := true;
        currentHandle := handle;
        selectionStart := Point(x, y);
      }
    }

    /** While moving, translates the selection by the mouse's displacement
        since the last step and makes (x, y) the new reference point. */
    method PerformMove(x: real, y: real)
      requires selectionManager.Valid()
      modifies this`selectionStart, selectionManager.selectedObjects
      ensures selectionManager.Valid()
      ensures isMoving ==>
        selectionStart == Point(x, y) &&
        forall i :: 0 <= i < |selectionManager.selectedObjects| ==>
          selectionManager.selectedObjects[i].shape ==
            Translated(old(selectionManager.selectedObjects[i].shape), x - old(selectionStart).x, y - old(selectionStart).y)
      ensures !isMoving ==>
        selectionStart == old(selectionStart) &&
        forall i :: 0 <= i < |selectionManager.selectedObjects| ==>
          selectionManager.selectedObjects[i].shape == old(selectionManager.selectedObjects[i].shape)
    {
      if isMoving {
        var dx := x - selectionStart.x;
        var dy := y - selectionStart.y;
        selectionManager.MoveSelection(dx, dy);
        selectionStart := Point(x, y);
      }
    }

    /** While resizing by a handle, scales the selection by the handle's
        factors about the opposite side of the selection's box, but only when
        both factors exceed 0.1; only then does (x, y) become the new
        reference point. */
    method PerformResize(x: real, y: real)
      requires selectionManager.Valid()
      modifies this`selectionStart, selectionManager.selectedObjects
      ensures selectionManager.Valid()
      ensures var b := old(UnionBounds(Boxes(selectionManager.selectedObjects)));
        var dx, dy := x - old(selectionStart).x, y - old(selectionStart).y;
        isResizing && TakesStep(b, currentHandle, dx, dy) ==>
          var p := PlanResize(b, currentHandle, dx, dy);
          && selectionStart == Point(x, y)
          && forall i :: 0 <= i < |selectionManager.selectedObjects| ==>
               selectionManager.selectedObjects[i].shape ==
                 Scaled(old(selectionManager.selectedObjects[i].shape), p.scaleX, p.scaleY, p.originX, p.originY)
      ensures var b := old(UnionBounds(Boxes(selectionManager.selectedObjects)));
        var dx, dy := x - old(selectionStart).x, y - old(selectionStart).y;
        !(isResizing && TakesStep(b, currentHandle, dx, dy)) ==>
          && selectionStart == old(selectionStart)
          && forall i :: 0 <= i < |selectionManager.selectedObjects| ==>
               selectionManager.selectedObjects[i].shape == old(selectionManager.selectedObjects[i].shape)
    {
      if isResizing && currentHandle != NoHandle {
        // the selection's box, as SelectionManager.GetSelectionBounds computes it
        var bounds := UnionBounds(Boxes(selectionManager.selectedObjects));
        ResizeFrom(bounds, x, y);
      }
    }

    /** One resize step by the current handle from the selection's box `b`. */
    method ResizeFrom(b: BoundingBox, x: real, y: real)
      requires selectionManager.Valid() && currentHandle != NoHandle
      modifies this`selectionStart, selectionManager.selectedObjects
      ensures selectionManager.Valid()
      ensures var dx, dy := x - old(selectionStart).x, y - old(selectionStart).y;
        TakesStep(b, currentHandle, dx, dy) ==>
          var p := PlanResize(b, currentHandle, dx, dy);
          && selectionStart == Point(x, y)
          && forall i :: 0 <= i < |selectionManager.selectedObjects| ==>
               selectionManager.selectedObjects[i].shape ==
                 Scaled(old(selectionManager.selectedObjects[i].shape), p.scaleX, p.scaleY, p.originX, p.originY)
      ensures var dx, dy := x - old(selectionStart).x, y - old(selectionStart).y;
        !TakesStep(b, currentHandle, dx, dy) ==>
          && selectionStart == old(selectionStart)
          && forall i :: 0 <= i < |selectionManager.selectedObjects| ==>
               selectionManager.selectedObjects[i].shape == old(selectionManager.selectedObjects[i].shape)
    {
      var dx := x - selectionStart.x;
      var dy := y - selectionStart.y;
      if CanPlan(b, currentHandle) {
        var plan := PlanResize(b, currentHandle, dx, dy);
        if plan.scaleX > MinResizeScale && plan.scaleY > MinResizeScale {
          selectionManager.ScaleSelection(plan.scaleX, plan.scaleY, plan.originX, plan.originY);
          selectionStart := Point(x, y);
        }
      }
    }
  }

  // ---------------------------------------------------------------------
  // The loops behind the store operations, on the store's values

  /** The stroke pass of drag selection: appends to `selected` the index of
      every stroke with a point in the region, in order. */
  method SelectStrokes(store: seq<StrokeData>, region: Region, selected: seq<int>) returns (r: seq<int>)
    ensures r == selected + IndicesWhere(store, StrokeSelect(region))
  {
    r := selected;
    var i := 0;
    while i < |store|
      invariant 0 <= i <= |store|
      invariant r == selected + IndicesWhere(store[..i], StrokeSelect(region))
    {
      PrefixStep(store, i, StrokeSelect(region));
      if StrokeInRegion(store[i], region) {
        r := r + [i];
      }
      i := i + 1;
    }
    assert store[..i] == store;
  }

  /** The rectangle pass of drag selection: appends the index of every group
      with a rectangle overlapping the region, in order. */
  method SelectRectangles(store: seq<Rectangle>, region: Region, selected: seq<int>) returns (r: seq<int>)
    ensures r == selected + IndicesWhere(store, RectangleSelect(region))
  {
    r := selected;
    var i := 0;
    while i < |store|
      invariant 0 <= i <= |store|
      invariant r == selected + IndicesWhere(store[..i], RectangleSelect(region))
    {
      PrefixStep(store, i, RectangleSelect(region));
      if RectangleOverlapsRegion(store[i], region) {
        r := r + [i];
      }
      i := i + 1;
    }
    assert store[..i] == store;
  }

  /** The circle pass of drag selection: appends the index of every group
      with a circle whose square overlaps the region, in order. */
  method SelectCircles(store: seq<Circle>, region: Region, selected: seq<int>) returns (r: seq<int>)
    ensures r == selected + IndicesWhere(store, CircleGroupSelect(region))
  {
    r := selected;
    var i := 0;
    while i < |store|
      invariant 0 <= i <= |store|
      invariant r == selected + IndicesWhere(store[..i], CircleGroupSelect(region))
    {
      PrefixStep(store, i, CircleGroupSelect(region));
      if CircleGroupOverlapsRegion(store[i], region) {
        r := r + [i];
      }
      i := i + 1;
    }
    assert store[..i] == store;
  }

  /** The stroke pass of erase-on-contact: erases hit strokes in place and
      appends them to the preview. */
  method EraseStrokes(store: seq<StrokeData>, preview: seq<StrokeData>, x: real, y: real)
    returns (kept: seq<StrokeData>, taken: seq<StrokeData>)
    ensures kept == Reject(store, StrokeHit(x, y, EraserRadius))
    ensures taken == preview + Filter(store, StrokeHit(x, y, EraserRadius))
  {
    var f := StrokeHit(x, y, EraserRadius);
    kept, taken := store, preview;
    var i := 0;
    ghost var j := 0;
    while i < |kept|
      invariant 0 <= j <= |store| && i == |Reject(store[..j], f)|
      invariant kept == Reject(store[..j], f) + store[j..]
      invariant taken == preview + Filter(store[..j], f)
      decreases |store| - j
    {
      EraseInPlaceStep(store, kept, i, j, f);
      PrefixStep(store, j, f);
      if IsStrokeInEraserRadius(kept[i], x, y, EraserRadius) {
        taken := taken + [kept[i]];
        kept := kept[..i] + kept[i + 1..];
      } else {
        i := i + 1;
      }
      j := j + 1;
    }
    assert store[..j] == store;
  }

  /** The rectangle pass of erase-on-contact: erases hit groups in place and
      appends their rectangles to the preview. */
  method EraseRectangles(store: seq<Rectangle>, preview: seq<Rect>, x: real, y: real)
    returns (kept: seq<Rectangle>, taken: seq<Rect>)
    ensures kept == Reject(store, RectangleHit(x, y, EraserRadius))
    ensures taken == preview + RectsOf(Filter(store, RectangleHit(x, y, EraserRadius)))
  {
    var f := RectangleHit(x, y, EraserRadius);
    kept, taken := store, preview;
    var i := 0;
    ghost var j := 0;
    while i < |kept|
      invariant 0 <= j <= |store| && i == |Reject(store[..j], f)|
      invariant kept == Reject(store[..j], f) + store[j..]
      invariant taken == preview + RectsOf(Filter(store[..j], f))
      decreases |store| - j
    {
      RectangleEraseStep(store, kept, taken, preview, i, j, f);
      var hit := RectangleHitByEraser(kept[i], x, y, EraserRadius);
      if hit {
        taken := taken + kept[i].rects;
        kept := kept[..i] + kept[i + 1..];
      } else {
        i := i + 1;
      }
      j := j + 1;
    }
    assert store[..j] == store;
  }

  /** The circle pass of erase-on-contact: erases hit groups in place and
      appends their circles to the preview. */
  method EraseCircles(store: seq<Circle>, preview: seq<CircleData>, x: real, y: real)
    returns (kept: seq<Circle>, taken: seq<CircleData>)
    ensures kept == Reject(store, CircleGroupHit(x, y, EraserRadius))
    ensures taken == preview + CirclesOf(Filter(store, CircleGroupHit(x, y, EraserRadius)))
  {
    var f := CircleGroupHit(x, y, EraserRadius);
    kept, taken := store, preview;
    var i := 0;
    ghost var j := 0;
    while i < |kept|
      invariant 0 <= j <= |store| && i == |Reject(store[..j], f)|
      invariant kept == Reject(store[..j], f) + store[j..]
      invariant taken == preview + CirclesOf(Filter(store[..j], f))
      decreases |store| - j
    {
      CircleGroupEraseStep(store, kept, taken, preview, i, j, f);
      var hit := CircleGroupHitByEraser(kept[i], x, y, EraserRadius);
      if hit {
        taken := taken + kept[i].circles;
        kept := kept[..i] + kept[i + 1..];
      } else {
        i := i + 1;
      }
      j := j + 1;
    }
    assert store[..j] == store;
  }

  /** One step of an erase-on-contact pass over groups: erasing a hit group
      and appending its members, or stepping past a missed one, keeps the
      loop's invariant for one more group. */
  lemma RectangleEraseStep(store: seq<Rectangle>, kept: seq<Rectangle>, taken: seq<Rect>, preview: seq<Rect>, i: nat, j: nat, f: Rectangle -> bool)
    requires j < |store| && i == |Reject(store[..j], f)|
    requires kept == Reject(store[..j], f) + store[j..]
    requires taken == preview + RectsOf(Filter(store[..j], f))
    ensures i < |kept| && kept[i] == store[j]
    ensures f(store[j]) ==>
      && i == |Reject(store[..j + 1], f)|
      && kept[..i] + kept[i + 1..] == Reject(store[..j + 1], f) + store[j + 1..]
      && taken + store[j].rects == preview + RectsOf(Filter(store[..j + 1], f))
    ensures !f(store[j]) ==>
      && i + 1 == |Reject(store[..j + 1], f)|
      && kept == Reject(store[..j + 1], f) + store[j + 1..]
      && taken == preview + RectsOf(Filter(store[..j + 1], f))
  {
    EraseInPlaceStep(store, kept, i, j, f);
    RectsOfFilterStep(store, j, f);
    if f(store[j]) {
      ConcatAssociates(preview, RectsOf(Filter(store[..j], f)), store[j].rects);
    }
  }

  /** One step of an erase-on-contact pass over groups: erasing a hit group
      and appending its members, or stepping past a missed one, keeps the
      loop's invariant for one more group. */
  lemma CircleGroupEraseStep(store: seq<Circle>, kept: seq<Circle>, taken: seq<CircleData>, preview: seq<CircleData>, i: nat, j: nat, f: Circle -> bool)
    requires j < |store| && i == |Reject(store[..j], f)|
    requires kept == Reject(store[..j], f) + store[j..]
    requires taken == preview + CirclesOf(Filter(store[..j], f))
    ensures i < |kept| && kept[i] == store[j]
    ensures f(store[j]) ==>
      && i == |Reject(store[..j + 1], f)|
      && kept[..i] + kept[i + 1..] == Reject(store[..j + 1], f) + store[j + 1..]
      && taken + store[j].circles == preview + CirclesOf(Filter(store[..j + 1], f))
    ensures !f(store[j]) ==>
      && i + 1 == |Reject(store[..j + 1], f)|
      && kept == Reject(store[..j + 1], f) + store[j + 1..]
      && taken == preview + CirclesOf(Filter(store[..j + 1], f))
  {
    EraseInPlaceStep(store, kept, i, j, f);
    CirclesOfFilterStep(store, j, f);
    if f(store[j]) {
      ConcatAssociates(preview, CirclesOf(Filter(store[..j], f)), store[j].circles);
    }
  }

  /** The inner scan of erase-on-contact: whether any member of the group
      lies within the disc, stopping at the first that does. */
  method RectangleHitByEraser(g: Rectangle, x: real, y: real, radius: real) returns (hit: bool)
    ensures hit == RectangleInEraserRadius(g, x, y, radius)
  {
    var k := 0;
    while k < |g.rects|
      invariant 0 <= k <= |g.rects|
      invariant forall m :: 0 <= m < k ==> !IsRectInEraserRadius(g.rects[m], x, y, radius)
    {
      if IsRectInEraserRadius(g.rects[k], x, y, radius) {
        return true;
      }
      k := k + 1;
    }
    return false;
  }

  /** The inner scan of erase-on-contact: whether any member of the group
      lies within the disc, stopping at the first that does. */
  method CircleGroupHitByEraser(g: Circle, x: real, y: real, radius: real) returns (hit: bool)
    ensures hit == CircleGroupInEraserRadius(g, x, y, radius)
  {
    var k := 0;
    while k < |g.circles|
      invariant 0 <= k <= |g.circles|
      invariant forall m :: 0 <= m < k ==> !IsCircleInEraserRadius(g.circles[m], x, y, radius)
    {
      if IsCircleInEraserRadius(g.circles[k], x, y, radius) {
        return true;
      }
      k := k + 1;
    }
    return false;
  }

  /** The rectangle pass of the hover preview: every rectangle of every group
      within the preview disc, in store order. */
  method PreviewRects(store: seq<Rectangle>, x: real, y: real) returns (taken: seq<Rect>)
    ensures taken == Filter(RectsOf(store), RectHit(x, y, EraserPreviewRadius))
  {
    var f := RectHit(x, y, EraserPreviewRadius);
    taken := [];
    var i := 0;
    while i < |store|
      invariant 0 <= i <= |store|
      invariant taken == Filter(RectsOf(store[..i]), f)
    {
      var rects := store[i].rects;
      var k := 0;
      while k < |rects|
        invariant 0 <= k <= |rects|
        invariant taken == Filter(RectsOf(store[..i]), f) + Filter(rects[..k], f)
      {
        PrefixStep(rects, k, f);
        if IsRectInEraserRadius(rects[k], x, y, EraserPreviewRadius) {
          taken := taken + [rects[k]];
        }
        k := k + 1;
      }
      assert rects[..k] == rects;
      FilterAppend(RectsOf(store[..i]), rects, f);
      RectsOfPrefixStep(store, i);
      i := i + 1;
    }
    assert store[..i] == store;
  }

  /** The circle pass of the hover preview: every circle of every group
      within the preview disc, in store order. */
  method PreviewCircles(store: seq<Circle>, x: real, y: real) returns (taken: seq<CircleData>)
    ensures taken == Filter(CirclesOf(store), CircleHit(x, y, EraserPreviewRadius))
  {
    var f := CircleHit(x, y, EraserPreviewRadius);
    taken := [];
    var i := 0;
    while i < |store|
      invariant 0 <= i <= |store|
      invariant taken == Filter(CirclesOf(store[..i]), f)
    {
      var circles := store[i].circles;
      var k := 0;
      while k < |circles|
        invariant 0 <= k <= |circles|
        invariant taken == Filter(CirclesOf(store[..i]), f) + Filter(circles[..k], f)
      {
        PrefixStep(circles, k, f);
        if IsCircleInEraserRadius(circles[k], x, y, EraserPreviewRadius) {
          taken := taken + [circles[k]];
        }
        k := k + 1;
      }
      assert circles[..k] == circles;
      FilterAppend(CirclesOf(store[..i]), circles, f);
      CirclesOfPrefixStep(store, i);
      i := i + 1;
    }
    assert store[..i] == store;
  }

  /** The stroke pass of moving the legacy selection: one translation per
      listed index that lies inside the store. */
  method MoveStrokes(store: seq<StrokeData>, indices: seq<int>, dx: real, dy: real) returns (moved: seq<StrokeData>)
    ensures |moved| == |store|
    ensures forall k :: 0 <= k < |store| ==> moved[k] == Repeat(StrokeMove(dx, dy), store[k], Occurrences(indices, k))
  {
    moved := store;
    var i := 0;
    while i < |indices|
      invariant 0 <= i <= |indices| && |moved| == |store|
      invariant forall k :: 0 <= k < |store| ==> moved[k] == Repeat(StrokeMove(dx, dy), store[k], Occurrences(indices[..i], k))
    {
      var idx := indices[i];
      assert indices[..i + 1] == indices[..i] + [idx];
      ApplyOncePerListingStep(StrokeMove(dx, dy), store, moved, indices[..i], idx);
      if 0 <= idx < |moved| {
        moved := moved[idx := ShiftStroke(moved[idx], dx, dy)];
      }
      i := i + 1;
    }
    assert indices[..i] == indices;
  }

  /** The rectangle pass of moving the legacy selection. */
  method MoveRectangles(store: seq<Rectangle>, indices: seq<int>, dx: real, dy: real) returns (moved: seq<Rectangle>)
    ensures |moved| == |store|
    ensures forall k :: 0 <= k < |store| ==> moved[k] == Repeat(RectangleMove(dx, dy), store[k], Occurrences(indices, k))
  {
    moved := store;
    var i := 0;
    while i < |indices|
      invariant 0 <= i <= |indices| && |moved| == |store|
      invariant forall k :: 0 <= k < |store| ==> moved[k] == Repeat(RectangleMove(dx, dy), store[k], Occurrences(indices[..i], k))
    {
      var idx := indices[i];
      assert indices[..i + 1] == indices[..i] + [idx];
      ApplyOncePerListingStep(RectangleMove(dx, dy), store, moved, indices[..i], idx);
      if 0 <= idx < |moved| {
        moved := moved[idx := ShiftRectangle(moved[idx], dx, dy)];
      }
      i := i + 1;
    }
    assert indices[..i] == indices;
  }

  /** The circle pass of moving the legacy selection. */
  method MoveCircles(store: seq<Circle>, indices: seq<int>, dx: real, dy: real) returns (moved: seq<Circle>)
    ensures |moved| == |store|
    ensures forall k :: 0 <= k < |store| ==> moved[k] == Repeat(CircleGroupMove(dx, dy), store[k], Occurrences(indices, k))
  {
    moved := store;
    var i := 0;
    while i < |indices|
      invariant 0 <= i <= |indices| && |moved| == |store|
      invariant forall k :: 0 <= k < |store| ==> moved[k] == Repeat(CircleGroupMove(dx, dy), store[k], Occurrences(indices[..i], k))
    {
      var idx := indices[i];
      assert indices[..i + 1] == indices[..i] + [idx];
      ApplyOncePerListingStep(CircleGroupMove(dx, dy), store, moved, indices[..i], idx);
      if 0 <= idx < |moved| {
        moved := moved[idx := ShiftCircleGroup(moved[idx], dx, dy)];
      }
      i := i + 1;
    }
    assert indices[..i] == indices;
  }
}
