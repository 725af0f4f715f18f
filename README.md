# Drawing engine model

A Dafny model of the drawing engine of a small GTK drawing program
(`src/drawingLogic.cpp` and `src/drawingLogic.hpp`). The engine keeps two
object stores side by side.

* **Legacy store.** Committed pen strokes, rectangle groups and circle groups
  sit in three vectors. An eraser erases on contact with a radius-10 disc and
  previews with a radius-20 disc. Drag selection records item indices, and
  moving the selection translates the items those indices name.
* **Unified object system.** Drawable objects (stroke, rectangle, circle)
  each have a bounding box, a hit test, translation, scaling and eight
  resize handles. A selection manager keeps the ordered list of selected
  objects in step with each object's own flag. A move/resize controller
  turns mouse displacement into translation or per-handle scaling.

The pen stroke being drawn is smoothed on every sample:
* a greedy jitter filter drops interior samples closer than 0.5 to the last
  kept point;
* a uniform Catmull-Rom spline then emits 12 points per segment.

Modules, in dependency order:

| module | file | contents |
|---|---|---|
| `Geometry` | Geometry.dfy | value types `Point`, `Color`, `Rect`, `CircleData`, `BoundingBox` (inclusive `ContainsPoint`), `HandlePosition`; squared-distance predicates |
| `Seqs` | Seqs.dfy | order-preserving `Filter`/`Reject`/`IndicesWhere` and `RemoveFirst`, with their laws |
| `Smoothing` | Smoothing.dfy | jitter filter, Catmull-Rom point and expansion, the two helper methods and the combined `Smooth` |
| `Strokes` | Strokes.dfy | the in-progress `Stroke` class, committed `StrokeData`, `Rectangle` and `Circle` groups |
| `Collision` | Collision.dfy | eraser disc tests and the legacy point tests |
| `Objects` | Objects.dfy | the unified `Shape`, its box, hit test, translation, scaling, handle lookup and the `DrawableObject` class |
| `Selection` | Selection.dfy | union of boxes and the `SelectionManager` class |
| `LegacyStore` | LegacyStore.dfy | per-item eraser, selection and move functions over the legacy store |
| `Resize` | Resize.dfy | per-handle scale factors and origin of one resize step |
| `Canvas` | Canvas.dfy | the `DrawingArea` class and the loops of its store operations |

Modelling choices:
* `double` is `real`.
* `sqrt(d) <= r` is `r >= 0 && d <= r*r`, and `sqrt(d) >= t` is
  `t <= 0 || d >= t*t`. Both are exact over reals.
* Vectors the program mutates are `seq` fields that the methods reassign.
* Shared handles (`std::shared_ptr`) to drawable objects are references to `DrawableObject`
  objects.
* The loops over the stores, the object list and the selection list, and
  the loops of the smoothing pipeline, are methods proved equal to a
  specification function. The properties the program relies on are proved
  about that function.
* Loops over the points of a single shape are functions instead:
  * the point scans of the stroke eraser test, the legacy stroke hit test
    and the object hit test (`Collision.AnyPointWithin`, used by
    `IsStrokeInEraserRadius`, `IsPointInStroke` and `Objects.Hits`);
  * the min/max loop of a stroke's box (`Objects.SeqMin`, `Objects.SeqMax`);
  * the point loops of translate and scale (`Objects.TranslatePoints`,
    `Objects.ScalePoints`);
  * the point test of the drag selection (`LegacyStore.StrokeInRegion`).

## Model

| member | source | states |
|---|---|---|
| Geometry.EmptyBox | src/drawingLogic.hpp:43-44 | the default box is all zeros and contains the origin and no other point |
| Geometry.ContainsPointInclusive | src/drawingLogic.hpp:46-48 | containment holds exactly on the closed intervals [x, x+width] × [y, y+height]; with non-negative extents all four corners are inside |
| Geometry.DrawnRect | src/drawingLogic.cpp:265-271 | the area a dragged rectangle covers: its two corners put in order on each axis, with non-negative extents and the same colour; a rectangle with non-negative extents is its own drawn area |
| Geometry.AllHandles | src/drawingLogic.hpp:52-55 | the enumeration lists nine distinct values, the eight handles first and NONE last |
| Geometry.AllHandlesComplete | src/drawingLogic.hpp:52-55 | every handle value is one of those nine |
| Strokes.DefaultStrokeColor | src/drawingLogic.hpp:86-87 | a default stroke is dark blue (0, 0, 0.8) |
| Strokes.Stroke.constructor | src/drawingLogic.hpp:80-90 | a new stroke has the given (default 3.0, dark blue) width and colour and no raw or rendered points |
| Strokes.Stroke.AddPoint | src/drawingLogic.cpp:18-93 | the sample is appended to the raw points, and the rendered points become `Smooth` of the whole raw history; colour and width stay |
| Strokes.Stroke.CompleteStroke | src/drawingLogic.cpp:1387-1391 | the raw samples are discarded; rendered points, colour and width stay |
| Strokes.Stroke.Data | src/drawingLogic.hpp:80-84 | the committed value carries exactly the stroke's rendered points, colour and width |
| Strokes.Rectangle.AddRect | src/drawingLogic.cpp:96-98 | the group grows by one rectangle with the given geometry and colour; earlier rectangles stay in place |
| Strokes.Circle.AddCircle | src/drawingLogic.cpp:101-103 | the group grows by one circle with the given centre, radius and colour; earlier circles stay in place |
| Smoothing.Kept | src/drawingLogic.cpp:32-47 | after visiting any prefix the kept list is non-empty, no longer than the prefix, and starts with raw point 0 |
| Smoothing.KeptIsSubsequence | src/drawingLogic.cpp:32-47 | the kept points are raw points read at strictly increasing positions |
| Smoothing.KeptIsSpaced | src/drawingLogic.cpp:35-46 | each kept point is at least the tolerance away from the point kept before it |
| Smoothing.SimplifyProperties | src/drawingLogic.cpp:27-50 | the simplified list keeps raw point 0 and the last raw point, has between 2 and n points, takes its points from the raw list in order, and its interior points are spaced by the tolerance |
| Smoothing.Simplify | src/drawingLogic.cpp:27-50 | two or fewer points are kept as they are; longer inputs keep the first and the last sample and shrink to between 2 and n points |
| Smoothing.SimplifyStroke | src/drawingLogic.cpp:485-507 | the helper's loop computes exactly `Simplify` (short inputs copied, greedy filter otherwise) |
| Smoothing.CatmullRomPoint | src/drawingLogic.cpp:550-566 | the segment point is p1 at t = 0 and exactly p2 at t = 1 |
| Smoothing.CatmullRomKeepsLines | src/drawingLogic.cpp:550-566 | the basis is affine: control values on one line give a curve value on that line, so collinear control points keep the curve on their line |
| Smoothing.Segment | src/drawingLogic.cpp:65-91 | each segment emits `segs` points (none for a zero count) |
| Smoothing.SplinePrefix | src/drawingLogic.cpp:61-91 | after i segments the output has 1 + segs·i points and starts with the first control point |
| Smoothing.SplinePassesThrough | src/drawingLogic.cpp:73-89 | position segs·k of the expansion is control point k: the curve passes through every control point |
| Smoothing.SegmentEndsAtNext | src/drawingLogic.cpp:73-89 | the last point emitted for a segment is that segment's end point |
| Smoothing.Interpolate | src/drawingLogic.cpp:521-548 | fewer than three points are copied; otherwise 1 + segs·(n−1) points (no segment points for a non-positive count), starting at the first control point and, for a positive count, ending at the last |
| Smoothing.InterpolateCatmullRom | src/drawingLogic.cpp:521-548 | for every input the helper accepts, its nested loops compute `Interpolate` (fewer than three points copied, each segment expanded with clamped neighbours); a negative count with three or more points is the error path listed under Left out |
| Smoothing.UltraSmoothStroke | src/drawingLogic.cpp:509-519 | the chained helper computes exactly `Smooth` |
| Smoothing.Smooth | src/drawingLogic.cpp:22-91 | fewer than two samples are rendered as they are; otherwise the rendered points start at the first sample and end at the last one |
| Smoothing.SmoothShape | src/drawingLogic.cpp:22-91 | fewer than three raw points, or two simplified points, are copied as they are; otherwise the result has 1 + 12·(n−1) points for n simplified points, starts at the first sample, ends at the last one and hits every simplified point at every twelfth position |
| Smoothing.CatmullRomPointOnLine | src/drawingLogic.cpp:550-566 | four control points on one line give a segment point on that line, at the parameter the basis gives for their parameters |
| Smoothing.SegmentOnLine | src/drawingLogic.cpp:65-91 | when all control points lie on a line, every point emitted for a segment, with its clamped neighbours, lies on that line |
| Smoothing.SplinePrefixOnLine | src/drawingLogic.cpp:61-91 | the expansion of control points on a line stays on that line after any number of segments |
| Smoothing.InterpolateOnLine | src/drawingLogic.cpp:521-548 | interpolating points of a line gives only points of that line, for every segment count |
| Smoothing.SmoothKeepsLines | src/drawingLogic.cpp:22-91 | a stroke whose raw samples all lie on one line is rendered entirely on that line: smoothing never bends a straight stroke |
| Collision.AnyPointWithin | src/drawingLogic.cpp:626-636 | the early-exit scan answers true exactly when some point lies within the radius |
| Collision.IsStrokeInEraserRadius | src/drawingLogic.cpp:626-636 | the eraser hits a stroke exactly when some rendered point lies within the radius; a negative radius hits nothing |
| Collision.RectEraserTestIsIntersection | src/drawingLogic.cpp:638-646 | for a rectangle with non-negative extents, the clamped-closest-point test holds exactly when the disc contains some point of the rectangle |
| Collision.IsRectInEraserRadius | src/drawingLogic.cpp:638-646 | a negative radius reaches nothing; a disc centred inside a rectangle with non-negative extents always reaches it |
| Collision.IsCircleInEraserRadius | src/drawingLogic.cpp:648-655 | a hit needs radius + r ≥ 0; a disc that reaches the circle's centre, or whose centre lies inside the circle, overlaps it |
| Collision.NegativeExtentContainsNothing | src/drawingLogic.cpp:1376-1379 | a rectangle stored with a negative width or height contains no point at all under the program's test |
| Collision.DrawnRectanglePointTest | src/drawingLogic.cpp:1376-1379 | the test on the drawn area holds exactly between the two corners on each axis, in either order, and agrees with the program's test for non-negative extents |
| Collision.DrawnRectEraserTestIsIntersection | src/drawingLogic.cpp:638-646 | on the drawn area the clamped-closest-point test holds exactly when the disc meets that area, and agrees with the program's test for non-negative extents |
| Collision.LeftwardRectangleIsMissed | src/drawingLogic.cpp:638-646 | the rectangle dragged leftward and stored as (10, 0, −10, 10) is missed by the point test at (5, 5) and by the radius-10 eraser at (−5, 5), although its drawn area holds (5, 5) and lies 5 from that eraser |
| Collision.EraserRadiusMonotone | src/drawingLogic.cpp:626-655 | a wider disc catches everything a narrower one does, for strokes, rectangles and circles alike; so the radius-20 preview shows whatever radius-10 contact erases |
| Collision.IsPointInRectangle | src/drawingLogic.cpp:1376-1379 | the legacy rectangle test is the inclusive box containment |
| Collision.IsPointInStroke | src/drawingLogic.cpp:1366-1374 | the stroke is hit exactly when some rendered point lies within the tolerance, which is the eraser test with the tolerance as radius |
| Collision.IsPointInCircle | src/drawingLogic.cpp:1381-1384 | a hit needs a non-negative radius; the test is the circle eraser test with radius zero |
| Collision.PointTestsHitOwnPoints | src/drawingLogic.cpp:1366-1384 | every rendered point of a stroke hits the stroke at any non-negative tolerance; a circle is hit at its own centre exactly when its radius is non-negative |
| Seqs.FilterMembership | src/drawingLogic.cpp:657-792 | the filter keeps exactly the matching elements and the complement exactly the others, neither growing |
| Seqs.FilterRejectPartition | src/drawingLogic.cpp:657-758 | matching and non-matching elements together are the input as a multiset, with their lengths summing to its length: nothing is lost or duplicated |
| Seqs.FilterAppend | src/drawingLogic.cpp:657-792 | filtering distributes over concatenation, so order is kept |
| Seqs.RejectAppend | src/drawingLogic.cpp:657-758 | the complement distributes over concatenation, so survivors keep their relative order |
| Seqs.FilterExtremes | src/drawingLogic.cpp:657-792 | when everything matches the filter is the identity and the complement empty, and vice versa |
| Seqs.IndicesWhereExact | src/drawingLogic.cpp:1215-1274 | the index list is strictly increasing and holds exactly the positions of matching items |
| Seqs.RemoveFirstErasesFirst | src/drawingLogic.cpp:1201-1206 | erasing by identity removes exactly the entry at the first position holding the object, keeping the others in order |
| Seqs.RemoveFirstWithout | src/drawingLogic.cpp:1201-1206 | a list without the object is unchanged |
| Seqs.RemoveFirstUndoesAppend | src/drawingLogic.cpp:1197-1206 | removing an object just added to a list that did not hold it restores the list |
| Objects.SeqExtremes | src/drawingLogic.cpp:903-920 | the folded minimum and maximum bound every value and are each attained |
| Objects.Bounds | src/drawingLogic.cpp:903-987 | a stroke without points reports the zero box; a stroke with non-negative width has non-negative extents; a circle reports the square of side 2r centred on it |
| Objects.Hits | src/drawingLogic.cpp:922-992 | a stroke is hit exactly when one of its points lies within half its width plus 2; a circle is hit only when its radius is non-negative |
| Objects.Translated | src/drawingLogic.cpp:932-997 | a moved shape keeps its kind, colour and size: stroke width and point count, rectangle extents, circle radius |
| Objects.Scaled | src/drawingLogic.cpp:939-1003 | a scaled shape keeps its kind and colour; a stroke's points and a circle's centre map about the origin by the factors, and its width and radius scale by the smaller factor, keeping circles round; non-negative factors keep a rectangle's extents and a circle's radius non-negative |
| Objects.StrokeBoundsContainPoints | src/drawingLogic.cpp:903-920 | every rendered point of a stroke with non-negative width lies in its box |
| Objects.HitsWithinBounds | src/drawingLogic.cpp:955-962 | a rectangle is hit exactly where its box contains the point; a circle is hit only inside its enclosing square |
| Objects.TranslateRoundTrip | src/drawingLogic.cpp:932-997 | translating by (dx, dy) and back by (−dx, −dy) restores every kind of shape exactly |
| Objects.TranslateMovesBounds | src/drawingLogic.cpp:903-997 | translation moves the box by (dx, dy) and keeps its size; a stroke without points keeps the zero box |
| Objects.TranslatePreservesHits | src/drawingLogic.cpp:922-997 | the moved shape is hit at the moved point exactly when the original is hit at the original point |
| Objects.ShiftedExtremes | src/drawingLogic.cpp:903-937 | adding a constant to every coordinate moves the minimum and maximum by that constant |
| Objects.ScaleIdentityAndOrigin | src/drawingLogic.cpp:939-1003 | scaling by 1 on both axes changes no shape, and the origin never moves |
| Objects.ScaleMapsRectEdges | src/drawingLogic.cpp:969-974 | a scaled rectangle's edges are the old edges mapped about the origin |
| Objects.FirstNearFromIsFirst | src/drawingLogic.cpp:825-854 | the ordered handle search returns NONE exactly when no handle square holds the point, and otherwise the first handle in order whose square does |
| Objects.HandleAtIsFirstNear | src/drawingLogic.cpp:825-876 | the chain of eight tests picks the first handle, in drawing order, within half a handle size of the point on both axes |
| Objects.HandleAt | src/drawingLogic.cpp:825-854 | a returned handle's square holds the point, and NONE comes back only when no handle's square does |
| Objects.DrawableObject.constructor | src/drawingLogic.hpp:73 | a new object holds its shape and is not selected |
| Objects.DrawableObject.GetBoundingBox | src/drawingLogic.cpp:903-987 | the object's box is its shape's box |
| Objects.DrawableObject.HitTest | src/drawingLogic.cpp:955-992 | a rectangle object is hit exactly inside the box it reports, a circle object only inside it |
| Objects.DrawableObject.GetHandleAtPoint | src/drawingLogic.cpp:825-854 | the handle is the first one, in order, near the point on the object's box |
| Objects.DrawableObject.Translate | src/drawingLogic.cpp:932-997 | the shape becomes its translate; the selection flag stays |
| Objects.DrawableObject.Scale | src/drawingLogic.cpp:939-1003 | the shape becomes its scaled version; the selection flag stays |
| Selection.UnionBoundsIsSmallestCover | src/drawingLogic.cpp:1032-1048 | the union of no boxes is the zero box; otherwise it covers every box and each of its four edges is an edge of some box |
| Selection.UnionBounds | src/drawingLogic.cpp:1032-1048 | no boxes give the zero box, one box is its own union, and the union is at least as wide and as tall as every box |
| Selection.UnionBoundsTranslates | src/drawingLogic.cpp:1032-1054 | shifting every box by (dx, dy) shifts the union by (dx, dy) and keeps its size |
| Selection.FoldUnion | src/drawingLogic.cpp:1032-1048 | the program's fold over the boxes computes exactly the union |
| Selection.SelectionManager.constructor | src/drawingLogic.hpp:151-167 | a new manager holds no objects and its invariant holds |
| Selection.SelectionManager.IsSelected | src/drawingLogic.cpp:1028-1030 | an object is selected exactly when some position of the list holds it, and then there is a selection |
| Selection.SelectionManager.HasSelection | src/drawingLogic.hpp:162 | there is a selection exactly when some object is listed |
| Selection.SelectionManager.ClearSelection | src/drawingLogic.cpp:1006-1011 | every previously listed object is unflagged, and the list becomes empty |
| Selection.SelectionManager.AddToSelection | src/drawingLogic.cpp:1013-1018 | an unlisted object is appended and flagged; a listed one leaves the list unchanged, so there are never duplicates |
| Selection.SelectionManager.RemoveFromSelection | src/drawingLogic.cpp:1020-1026 | a listed object is unflagged and its one entry erased, the others keeping their order; an unlisted one changes nothing |
| Selection.SelectionManager.GetSelectionBounds | src/drawingLogic.cpp:1032-1048 | the result is the union of the selected objects' boxes (zero box when none is selected) |
| Selection.SelectionManager.MoveSelection | src/drawingLogic.cpp:1050-1054 | every selected object is translated exactly once and the invariant is kept |
| Selection.SelectionManager.ScaleSelection | src/drawingLogic.cpp:1056-1060 | every selected object is scaled about the same origin exactly once and the invariant is kept |
| LegacyStore.RectangleEraseConserves | src/drawingLogic.cpp:688-721 | erasing whole groups moves exactly the rectangles of the groups hit: kept and moved rectangles together are the original rectangles as a multiset |
| LegacyStore.RectsOfAppend | src/drawingLogic.cpp:704-707 | flattening groups into the preview list distributes over concatenation |
| LegacyStore.CirclesOfAppend | src/drawingLogic.cpp:740-743 | flattening circle groups distributes over concatenation |
| LegacyStore.DragRegion | src/drawingLogic.cpp:1216-1220 | the normalised drag region has its edges in order |
| LegacyStore.DragRegionSymmetric | src/drawingLogic.cpp:1216-1220 | the region is the same whichever corners are given and in whichever order; a point is in it exactly when it lies between the corners on each axis |
| LegacyStore.StrokeInRegion | src/drawingLogic.cpp:1227-1232 | a selected stroke has points and the region is not empty; a stroke whose first point lies in the region is selected |
| LegacyStore.RectOverlapsRegion | src/drawingLogic.cpp:1244-1248 | a rectangle with non-negative extents that has its corner or its opposite corner in the region overlaps it |
| LegacyStore.CircleOverlapsRegion | src/drawingLogic.cpp:1262-1266 | the circle test is the rectangle test on the circle's enclosing square, and a circle with non-negative radius whose centre lies in the region passes it |
| LegacyStore.RectOverlapIsIntersection | src/drawingLogic.cpp:1244-1248 | for a rectangle with non-negative extents, the "not entirely to one side" test holds exactly when it shares a point with the region |
| LegacyStore.DrawnRectOverlapIsIntersection | src/drawingLogic.cpp:1244-1248 | on the drawn area the overlap test holds exactly when that area shares a point with the region, and agrees with the program's test for non-negative extents |
| LegacyStore.LeftwardRectangleEscapesSelection | src/drawingLogic.cpp:1244-1248 | the rectangle stored as (10, 0, −10, 10) is not selected by the drag region (2, 2)–(8, 8), although its drawn area holds the region's point (5, 5) |
| LegacyStore.ShiftStroke | src/drawingLogic.cpp:1278-1285 | a moved stroke has each point shifted by (dx, dy) and keeps its colour and width |
| LegacyStore.ShiftRectangle | src/drawingLogic.cpp:1288-1295 | a moved group has each rectangle's corner shifted, size and colour unchanged |
| LegacyStore.ShiftCircleGroup | src/drawingLogic.cpp:1298-1305 | a moved group has each centre shifted, radius and colour unchanged |
| LegacyStore.StrokeShiftsCompose | src/drawingLogic.cpp:1278-1285 | two stroke moves add up, and a zero move changes nothing |
| LegacyStore.RectangleShiftsCompose | src/drawingLogic.cpp:1288-1295 | two group moves add up, and a zero move changes nothing |
| LegacyStore.CircleShiftsCompose | src/drawingLogic.cpp:1298-1305 | two group moves add up, and a zero move changes nothing |
| LegacyStore.Occurrences | src/drawingLogic.cpp:1276-1305 | an index is listed zero times exactly when it is not in the list |
| LegacyStore.RepeatedStrokeMove | src/drawingLogic.cpp:1278-1285 | moving a stroke n times by (dx, dy) is moving it once by (n·dx, n·dy) |
| LegacyStore.RepeatedRectangleMove | src/drawingLogic.cpp:1288-1295 | moving a rectangle group n times is one move by n times the offset |
| LegacyStore.RepeatedCircleGroupMove | src/drawingLogic.cpp:1298-1305 | moving a circle group n times is one move by n times the offset |
| Resize.ResizeFollowsMouse | src/drawingLogic.cpp:1132-1195 | for every handle, the dragged edge lands on the mouse-displaced position and the opposite edge (the origin) stays put; an axis the handle does not drag keeps factor 1 |
| Resize.HandlesDragOneSidePerAxis | src/drawingLogic.cpp:1145-1187 | each handle drags at most one side per axis; corners drag one side on each axis, edge handles exactly one side, NONE nothing |
| Resize.PlanResize | src/drawingLogic.cpp:1137-1187 | the origin is the edge opposite each edge the handle drags, and an axis the handle does not drag keeps factor 1 about the box's centre; how the factors move the edges is `ResizeFollowsMouse` |
| Resize.HighEdgeFollows | src/drawingLogic.cpp:1145-1185 | with factor (extent+d)/extent about the low edge, the low edge stays and the high edge moves by d |
| Resize.LowEdgeFollows | src/drawingLogic.cpp:1145-1181 | with factor (extent−d)/extent about the high edge, the high edge stays and the low edge moves by d |
| Canvas.TopmostHitIsTopmost | src/drawingLogic.cpp:1063-1071 | the reverse scan finds nothing exactly when no object is hit, and otherwise a hit object that no later-drawn object covers |
| Canvas.TopmostHit | src/drawingLogic.cpp:1063-1071 | an object found is one of the objects and is hit at the point; the full characterisation is `TopmostHitIsTopmost` |
| Canvas.FirstHandleFromIsFirst | src/drawingLogic.cpp:1073-1083 | the handle search returns NONE exactly when no selected object has a handle at the point, and otherwise the handle of the first one that does |
| Canvas.Eraser.constructor | src/drawingLogic.hpp:185-195 | a new eraser's three preview lists are empty |
| Canvas.DrawingArea.constructor | src/drawingLogic.cpp:106-120 | the new canvas has no objects, nothing committed, no selection, no gesture, the controller at the origin with no handle, and the rectangle colour black; the stroke in progress is a default stroke (width 3.0, dark blue, no points), whatever the pen |
| Canvas.DrawingArea.SetStrokeWidth | src/drawingLogic.cpp:589-592 | the pen width and the in-progress stroke's width become the new width |
| Canvas.DrawingArea.SetStrokeColor | src/drawingLogic.cpp:594-597 | the pen colour and the in-progress stroke's colour become the new colour |
| Canvas.DrawingArea.SetRectangleColor | src/drawingLogic.cpp:604-606 | the rectangle colour becomes the new colour |
| Canvas.DrawingArea.AddDrawableObject | src/drawingLogic.cpp:1197-1199 | the object is put on top of the drawing order |
| Canvas.DrawingArea.RemoveDrawableObject | src/drawingLogic.cpp:1201-1206 | the first entry holding the object is erased (see `Seqs.RemoveFirstErasesFirst`) |
| Canvas.DrawingArea.ClearCanvas | src/drawingLogic.cpp:575-580 | all committed strokes are dropped and a fresh empty stroke with the current pen starts; rectangles and circles stay |
| Canvas.DrawingArea.Undo | src/drawingLogic.cpp:582-587 | the last committed stroke is removed when there is one; an empty store stays empty |
| Canvas.DrawingArea.UpdateEraserCollision | src/drawingLogic.cpp:657-758 | each store keeps exactly its items missed by the radius-10 disc, in order; the hit items (groups as their members) are appended to the preview lists in store order |
| Canvas.DrawingArea.UpdateEraserPreview | src/drawingLogic.cpp:760-792 | the preview lists become exactly the members within the radius-20 disc, in store order; the stores are not touched |
| Canvas.DrawingArea.ClearAllSelections | src/drawingLogic.cpp:1209-1213 | the three index lists are empty |
| Canvas.DrawingArea.ClearSelection | src/drawingLogic.cpp:817-820 | the canvas command empties the three legacy index lists |
| Canvas.DrawingArea.SelectObjectsInRectangle | src/drawingLogic.cpp:1215-1274 | each index list gains, in increasing order, exactly the indices of items with a point in, or an extent overlapping, the normalised drag region |
| Canvas.DrawingArea.MoveSelectedObjects | src/drawingLogic.cpp:1276-1309 | store sizes stay; each item is moved once per listing of its index, out-of-range indices are skipped, unlisted items stay put |
| Canvas.DrawingArea.FindObjectAtPoint | src/drawingLogic.cpp:1063-1071 | the result is the topmost hit object, or none |
| Canvas.DrawingArea.FindHandleAtPoint | src/drawingLogic.cpp:1073-1083 | the result is the handle at the point of the first selected object that has one there, or NONE |
| Canvas.DrawingArea.UpdateSelection | src/drawingLogic.cpp:1085-1105 | empty space clears the selection unless extending; a modifier click on a listed object erases exactly that entry, keeping the rest in order, and unflags it; a modifier click on an unlisted object appends it; a plain click makes it the only selection; flags and list keep agreeing and no shape changes; every object dropped from the list is unflagged and keeps its shape, whether or not it is still on the canvas |
| Canvas.DrawingArea.StartMoveOperation | src/drawingLogic.cpp:1107-1112 | with a selection, moving starts from the point; without one nothing changes |
| Canvas.DrawingArea.StartResizeOperation | src/drawingLogic.cpp:1114-1120 | with a selection and a real handle, resizing starts from the point with that handle; otherwise nothing changes |
| Canvas.DrawingArea.PerformMove | src/drawingLogic.cpp:1122-1130 | while moving, every selected object is translated by the displacement since the reference point, which becomes the new point; otherwise nothing changes |
| Canvas.DrawingArea.PerformResize | src/drawingLogic.cpp:1132-1195 | while resizing, the selection is scaled by the handle's factors about the opposite side only when both factors exceed 0.1, and only then the reference point moves; otherwise shapes and reference stay |
| Canvas.DrawingArea.ResizeFrom | src/drawingLogic.cpp:1134-1193 | one resize step from a given box scales every selected object by the planned factors exactly when the step is taken |
| Canvas.SelectStrokes | src/drawingLogic.cpp:1222-1237 | the stroke pass appends exactly the indices of strokes with a point in the region, in order |
| Canvas.SelectRectangles | src/drawingLogic.cpp:1239-1255 | the rectangle pass appends exactly the indices of groups with an overlapping rectangle, in order |
| Canvas.SelectCircles | src/drawingLogic.cpp:1257-1273 | the circle pass appends exactly the indices of groups with an overlapping circle square, in order |
| Canvas.EraseStrokes | src/drawingLogic.cpp:660-685 | the in-place erase loop keeps exactly the missed strokes in order and appends the hit ones to the preview |
| Canvas.EraseRectangles | src/drawingLogic.cpp:687-721 | the in-place loop keeps exactly the missed groups in order and appends the rectangles of the hit groups to the preview |
| Canvas.EraseCircles | src/drawingLogic.cpp:723-757 | the in-place loop keeps exactly the missed groups in order and appends the circles of the hit groups to the preview |
| Canvas.RectangleHitByEraser | src/drawingLogic.cpp:691-716 | the inner scan reports a hit exactly when some rectangle of the group is within the disc |
| Canvas.CircleGroupHitByEraser | src/drawingLogic.cpp:727-752 | the inner scan reports a hit exactly when some circle of the group is within the disc |
| Canvas.PreviewRects | src/drawingLogic.cpp:775-782 | the preview holds exactly the rectangles of all groups within the preview disc, in store order |
| Canvas.PreviewCircles | src/drawingLogic.cpp:784-791 | the preview holds exactly the circles of all groups within the preview disc, in store order |
| Canvas.MoveStrokes | src/drawingLogic.cpp:1277-1285 | each stroke is moved once per listing of its index; other strokes stay |
| Canvas.MoveRectangles | src/drawingLogic.cpp:1287-1295 | each rectangle group is moved once per listing of its index; other groups stay |
| Canvas.MoveCircles | src/drawingLogic.cpp:1297-1305 | each circle group is moved once per listing of its index; other groups stay |


## Left out

- Rendering: `on_draw`, every `draw_*` and `render_*` function, and the background surface (`initialize_background_surface`, `rebuild_background_surface`, `erase_from_background`). These are raster output with no checkable result. The calls to `rebuild_background_surface` and `queue_draw` inside the modelled operations are dropped too.
- Event wiring: `setup_input_handling` (src/drawingLogic.cpp:128-318) is left out. It holds the GTK gesture lambdas, the 16 ms redraw throttle on the wall clock, cursors (`set_current_cursor`), `set_drawing_state` and `on_tool_changed`. Committing a finished stroke, rectangle or circle happens in these lambdas, so the model has the pieces (`CompleteStroke`, `AddRect`, `AddCircle`) but not the gesture sequence.
- `Point`'s timestamp: it is set from the clock and never read.
- Floating point: doubles are reals. There is no rounding, and the Catmull-Rom pass-through equalities hold only over reals. `point_distance` is not a member; the square root is replaced by exact squared comparisons inside `WithinRadius` and `AtLeastApart`.
- Colour alpha: `set_stroke_opacity` writes an alpha channel that the header's `Color` does not have.
- `Stroke` fields: the header's `Stroke` (src/drawingLogic.hpp:80-90) declares neither `raw_points` nor `complete_stroke`, while src/drawingLogic.cpp uses both (src/drawingLogic.cpp:18-93, 1387-1391). The model follows the .cpp: `Strokes.Stroke.rawPoints` and `Strokes.Stroke.CompleteStroke`.
- Pen defaults: the header does not declare `current_pen_width` and `current_pen_color`, so their initial values are not visible. `Canvas.DrawingArea.constructor` takes them as parameters; the stroke in progress does not start from them, since `current_stroke` is default-constructed.
- `Smoothing.InterpolateCatmullRom` requires a count of at least zero when there are three or more points. With a negative count, `reserve(points.size() * segments_per_curve)` (src/drawingLogic.cpp:526) converts the count to an unsigned size, asks for more than the maximum size and throws `std::length_error`. Exceptions are not modelled. The program's own callers always pass 12 or the default 8.
- `Eraser::eraser_while_erasing` and `eraser_ended_erasing` are declared in the header without a definition in the source.
- `Canvas.DrawingArea.UpdateEraserCollision`: the "already in preview" test is not modelled. It compares the address of a committed element with the addresses of the preview copies, so it never fires.
- `Canvas.DrawingArea.PerformResize` and `Canvas.DrawingArea.ResizeFrom`: a selection box with zero width (or height) under a handle that scales that axis is modelled as a step that is not taken; the gate is `Resize.CanPlan`. The program divides by zero there (src/drawingLogic.cpp:1146-1185). An outward drag gives an infinite factor that passes the 0.1 guard (src/drawingLogic.cpp:1190) and turns the selection's coordinates into NaN, since every coordinate on that axis equals the origin and 0 · ∞ is NaN. An inward or zero drag gives a −∞ or NaN factor that the guard rejects, as the model does.
- `Selection.SelectionManager.Valid` states one direction only: every listed object is flagged and listed once. The converse, that every flagged object is listed, depends on every object the canvas owns, so it is `Canvas.DrawingArea.SelectionAgrees`, kept by `UpdateSelection`. `AddToSelection`, `RemoveFromSelection` and `ClearSelection` state each flag they change.
- `Canvas.DrawingArea.MoveSelectedObjects` states each item's new value as the one-step move applied once per listing. `RepeatedStrokeMove`, `RepeatedRectangleMove` and `RepeatedCircleGroupMove` turn that into a single move by the multiplied offset.
- The legacy index checks compare a signed index with an unsigned size, so a negative index becomes a huge unsigned value and is skipped. The model skips every index outside `0 <= i < |store|`, which has the same effect.
- `draw_selection_handles` is left out as drawing. Only its eight handle positions (src/drawingLogic.cpp:867-876) are modelled, as `Objects.HandlePoint`; `Objects.HandleAt` tests the point against them in the program's order.
- UI files (`src/ui.cpp`, `src/settingPanel.*`, `src/penSettingsPanel.*`, `src/main.cpp`, `src/canvas.*`) are not part of this model.

## Findings

The rectangle tool stores the drag as corner plus signed extents (src/drawingLogic.cpp:265-271), so a rectangle dragged leftward or upward has a negative width or height. The three rectangle tests assume non-negative extents.

| source | as written | input that shows it | evidently intended | confidence | as-written member | corrected member |
|---|---|---|---|---|---|---|
| src/drawingLogic.cpp:1376-1379 | `is_point_in_rectangle` tests `rect.x <= x <= rect.x + rect.width`, which nothing satisfies when the width is negative | rectangle stored as (10, 0, −10, 10), drawn over [0, 10] × [0, 10], and the point (5, 5) | a point on the drawn area hits the rectangle | high; not executed | Collision.LeftwardRectangleIsMissed | Collision.DrawnRectanglePointTest |
| src/drawingLogic.cpp:638-646 | the eraser clamps the centre into [rect.x, rect.x + rect.width], which for a negative width always gives rect.x | the same rectangle, eraser at (−5, 5) with radius 10 | the eraser hits a rectangle whose drawn area its disc meets | high; not executed | Collision.LeftwardRectangleIsMissed | Collision.DrawnRectEraserTestIsIntersection |
| src/drawingLogic.cpp:1244-1248 | the selection overlap compares `rect.x + rect.width` with the region's left edge and `rect.x` with its right edge | the same rectangle, drag region (2, 2)–(8, 8) | a drag region over a rectangle's drawn area selects it | high; not executed | LegacyStore.LeftwardRectangleEscapesSelection | LegacyStore.DrawnRectOverlapIsIntersection |

`Collision.NegativeExtentContainsNothing` states the first row for every input. The corrected tests are the program's tests applied to `Geometry.DrawnRect`. The store operations (`Canvas.DrawingArea.UpdateEraserCollision`, `UpdateEraserPreview`, `SelectObjectsInRectangle`) keep the tests as written, because they model what the program does.
