# Add-feature geometry editor — a Dafny model

This project models the vertex/mid-point editing state machine inside the
add-feature dialog of the SquadLeader Android app (`AddFeatureDialogFragment`).
While the user draws a point, polyline or polygon, each map tap does one of three things:

- it moves the current selection, which is a vertex or a mid-point "insertion handle";
- it selects the mid-point or vertex nearest the tap, within 40 pixels;
- it appends a new vertex.

After the tap, the dialog recomputes its mid-point handles. It then decides whether
Save, Delete and Undo are offered.

The model is functional. A `Session` value holds the following:

- the edit mode;
- the current editing state, which is the vertex list, a mid-point flag, a vertex
  flag and the inserting index;
- the history stack of saved editing states;
- the mid-point list stored at the last refresh.

Each operation is a pure function. Coordinates are `real`. The two projections are
passed in as function values. They are `toMap`, from rounded screen pixels to a map
point, and `toScreen`, from a map point to screen pixels. Java's `Math.round` on the
tap coordinates is written out with its saturation at the `int` range.

Modules:

- `Geometry`: points, the midpoint, the squared screen distance and `Math.round`.
- `EditingStates`: the edit mode, the editing state, and the replace and insert list
  edits used by a move.
- `MidPointDerivation`: the mid-point handle list.
- `HitTest`: the nearest-point-within-tolerance search. It exists both as a function
  and as the loop the dialog runs.
- `AddFeature`: the session, the tap dispatch, the move, save validity, the action bar
  and the session invariant.
- `Scenarios`: concrete editing scenarios.

Points about the code as written that the model keeps:

- A tap hit-tests the mid-point list stored at the previous refresh, not one derived
  from the current vertices. The hit test runs after the POINT-mode clear, but the
  stored list was computed before it.
- Mid-points are tested before vertices, so a handle within tolerance wins even when
  a vertex is closer.
- The closest-point scan starts from `Double.MAX_VALUE`. It replaces its candidate
  only on a strictly smaller distance, so the lowest index wins ties.
- The tolerance test is strict (`< 40 * 40`).
- Outside an editing mode, the refresh ends by discarding the session. `discard`
  clears the vertices, the history, the mode and the mid-point flag. It leaves the
  vertex flag and the stored mid-point list alone.
- Moving a vertex rebuilds the list front to back. An inserting index outside the
  list therefore replaces nothing.
- Promoting a mid-point inserts the new vertex at `insertingIndex + 1`.
- Opening a session only sets the mode from the layer's geometry type and updates the
  action bar. It resets nothing else. A session opened after a save that reaches
  `completeSaveAction` starts clean, because that save ends in `exitEditMode` and
  `clear`. Every other save ends in `discard` alone, through `actionMode.finish()` and
  `onDestroyActionMode`. This happens when there is no geometry, when the save throws a
  `TableException`, or when no activity is attached. A session opened after such a save,
  or after a cancel, starts from what `discard` left behind (see "## Findings").
- Outside an editing mode, updating the action bar sets no item's visibility. The
  model's `NoneSet` means exactly that: the menu is left as it was, not hidden.

## Model

| member | source | states |
|---|---|---|
| Geometry.Mid | source/SquadLeader/app/src/main/java/com/esri/squadleader/view/AddFeatureDialogFragment.java:378-386 | a mid-point lies halfway between its two vertices on each axis |
| Geometry.RoundToInt | source/SquadLeader/app/src/main/java/com/esri/squadleader/view/AddFeatureDialogFragment.java:116 | the tap's screen coordinate rounds to the nearest int, ties upward, and saturates at the 32-bit int bounds |
| Geometry.DistSq | source/SquadLeader/app/src/main/java/com/esri/squadleader/view/AddFeatureDialogFragment.java:477-479 | the squared screen distance is never negative, is zero at the tap itself, and is at least the squared offset along either axis |
| EditingStates.ReplaceAt | source/SquadLeader/app/src/main/java/com/esri/squadleader/view/AddFeatureDialogFragment.java:436-446 | rebuilding the list for a vertex move keeps its length, puts the new point at the index, and leaves every other vertex unchanged |
| EditingStates.ReplaceAtRoundTrip | source/SquadLeader/app/src/main/java/com/esri/squadleader/view/AddFeatureDialogFragment.java:436-446 | moving a vertex away and then back to its old place restores the vertex list |
| EditingStates.ReplaceAtOutOfRange | source/SquadLeader/app/src/main/java/com/esri/squadleader/view/AddFeatureDialogFragment.java:438-444 | an inserting index outside the list leaves the vertex list unchanged |
| EditingStates.InsertAt | source/SquadLeader/app/src/main/java/com/esri/squadleader/view/AddFeatureDialogFragment.java:432-434 | inserting a vertex grows the list by one, places the point at the index, and shifts the suffix by one |
| EditingStates.InsertAtRoundTrip | source/SquadLeader/app/src/main/java/com/esri/squadleader/view/AddFeatureDialogFragment.java:432-434 | removing the inserted vertex again gives back the original list |
| MidPointDerivation.Consecutive | source/SquadLeader/app/src/main/java/com/esri/squadleader/view/AddFeatureDialogFragment.java:377-381 | the loop yields n-1 handles for n > 1 vertices, and none otherwise; handle i is the midpoint of vertices i and i+1 |
| MidPointDerivation.MidPoints | source/SquadLeader/app/src/main/java/com/esri/squadleader/view/AddFeatureDialogFragment.java:373-387 | the handle list is empty for at most 1 vertex; otherwise it has n-1 entries plus a closing one for a polygon with more than 2 vertices; it is never longer than the vertex list; the closing entry is the midpoint of the first and last vertex |
| MidPointDerivation.PromotionSplitsEdge | source/SquadLeader/app/src/main/java/com/esri/squadleader/view/AddFeatureDialogFragment.java:432-434 | promoting handle k puts the new vertex at position k+1 at most n; the handle was the midpoint of the new vertex's two neighbours, wrapping to vertex 0 for the closing handle |
| HitTest.Distances | source/SquadLeader/app/src/main/java/com/esri/squadleader/view/AddFeatureDialogFragment.java:473-479 | there is one distance per point, in list order, each the squared distance of that point's screen position from the tap |
| HitTest.Closest | source/SquadLeader/app/src/main/java/com/esri/squadleader/view/AddFeatureDialogFragment.java:470-484 | the scan ends on the lowest index of a minimal distance; it ends on -1 only if every distance reaches Double.MAX_VALUE |
| HitTest.SelectedIndex | source/SquadLeader/app/src/main/java/com/esri/squadleader/view/AddFeatureDialogFragment.java:463-491 | the result is -1 or a valid index; a hit is a nearest point, strictly nearer than every lower index, and strictly within 40 px; -1 exactly when no point is within 40 px, which includes the empty list |
| HitTest.GetSelectedIndex | source/SquadLeader/app/src/main/java/com/esri/squadleader/view/AddFeatureDialogFragment.java:463-491 | the imperative single-pass scan with its sentinel computes exactly that selection |
| AddFeature.IsSaveValid | source/SquadLeader/app/src/main/java/com/esri/squadleader/view/AddFeatureDialogFragment.java:315-331 | save is valid exactly at 1 or more vertices in POINT, 2 or more in POLYLINE and 3 or more in POLYGON; it is never valid in NONE or SAVING |
| AddFeature.SaveValidMeansShape | source/SquadLeader/app/src/main/java/com/esri/squadleader/view/AddFeatureDialogFragment.java:315-331 | a polyline can be saved exactly when it has a handle; a polygon exactly when its handle list closes the ring |
| AddFeature.ActionsShown | source/SquadLeader/app/src/main/java/com/esri/squadleader/view/AddFeatureDialogFragment.java:291-302 | the update sets item visibility exactly in the three editing modes; Save is offered iff save is valid; Delete iff not POINT, at least one vertex and no mid-point selected; Undo iff the history is non-empty |
| AddFeature.Discard | source/SquadLeader/app/src/main/java/com/esri/squadleader/view/AddFeatureDialogFragment.java:281-289 | discarding empties the vertices and history, resets the mode to NONE and clears the mid-point flag; it keeps the vertex flag and stored handles |
| AddFeature.DiscardEndsEditing | source/SquadLeader/app/src/main/java/com/esri/squadleader/view/AddFeatureDialogFragment.java:281-295 | for a discarded session the action-bar update sets no item's visibility, and discarding twice is the same as once |
| AddFeature.DiscardAll | source/SquadLeader/app/src/main/java/com/esri/squadleader/view/AddFeatureDialogFragment.java:569-579 | the reset that ends a save reaching `completeSaveAction` also empties the stored handles and clears the vertex flag, so no selection and no handle survive into the next session |
| AddFeature.UpdateActionBar | source/SquadLeader/app/src/main/java/com/esri/squadleader/view/AddFeatureDialogFragment.java:291-295 | an editing session passes through unchanged; any other session is discarded, and the update then sets no item's visibility |
| AddFeature.ModeFor | source/SquadLeader/app/src/main/java/com/esri/squadleader/view/AddFeatureDialogFragment.java:209-222 | MULTIPOINT and POINT give POINT, LINE and POLYLINE give POLYLINE, ENVELOPE and POLYGON give POLYGON, and every other geometry type gives NONE |
| AddFeature.OpenLayer | source/SquadLeader/app/src/main/java/com/esri/squadleader/view/AddFeatureDialogFragment.java:209-227 | opening a drawable layer only sets the mode and keeps every other field as it was; any other layer ends with an empty session, for which the update sets no item's visibility |
| AddFeature.Refresh | source/SquadLeader/app/src/main/java/com/esri/squadleader/view/AddFeatureDialogFragment.java:304-313 | in an editing mode a refresh only brings the handle list into step with the vertices; otherwise it leaves an empty NONE session |
| AddFeature.Push | source/SquadLeader/app/src/main/java/com/esri/squadleader/view/AddFeatureDialogFragment.java:449-451 | the saved copy becomes the top of the history, the states below stay, and the current state, mode and handles are untouched |
| AddFeature.MovePoint | source/SquadLeader/app/src/main/java/com/esri/squadleader/view/AddFeatureDialogFragment.java:431-452 | a selected handle becomes a vertex at insertingIndex+1, keeping prefix and suffix; otherwise the vertex at insertingIndex is replaced and all others kept; both flags are cleared and the new state is pushed |
| AddFeature.AddPoint | source/SquadLeader/app/src/main/java/com/esri/squadleader/view/AddFeatureDialogFragment.java:136-137 | the tapped point becomes the new last vertex with the earlier vertices, flags and index kept, and the new state is pushed |
| AddFeature.Cleared | source/SquadLeader/app/src/main/java/com/esri/squadleader/view/AddFeatureDialogFragment.java:117-119 | in POINT mode the tap starts from an empty vertex list; in other modes the list is kept; the flags and index are never touched |
| AddFeature.TapPoint | source/SquadLeader/app/src/main/java/com/esri/squadleader/view/AddFeatureDialogFragment.java:116 | a tap exactly on a pixel inside the int range projects that pixel's map point |
| AddFeature.Dispatch | source/SquadLeader/app/src/main/java/com/esri/squadleader/view/AddFeatureDialogFragment.java:115-140 | the tap's dispatch never changes the edit mode |
| AddFeature.Tap | source/SquadLeader/app/src/main/java/com/esri/squadleader/view/AddFeatureDialogFragment.java:113-143 | after any tap the two flags are never both set, a POINT session has at most one vertex, at most one state is pushed, and an editing session's handles match its vertices |
| AddFeature.TapMovesSelection | source/SquadLeader/app/src/main/java/com/esri/squadleader/view/AddFeatureDialogFragment.java:120-121 | a tap with a selection moves it, clears both flags and pushes the result |
| AddFeature.TapSelectsMidPoint | source/SquadLeader/app/src/main/java/com/esri/squadleader/view/AddFeatureDialogFragment.java:123-127 | with nothing selected, a handle within tolerance is selected before any vertex; the vertices and history stay the same |
| AddFeature.TapSelectsVertex | source/SquadLeader/app/src/main/java/com/esri/squadleader/view/AddFeatureDialogFragment.java:129-133 | with no handle hit, a vertex within tolerance is selected; the vertices and history stay the same |
| AddFeature.TapAppends | source/SquadLeader/app/src/main/java/com/esri/squadleader/view/AddFeatureDialogFragment.java:134-138 | with nothing selected and nothing hit, the tapped map point becomes the last vertex and the new state is pushed |
| AddFeature.OpenedSessionIsValid | source/SquadLeader/app/src/main/java/com/esri/squadleader/view/AddFeatureDialogFragment.java:209-227 | a session opened on a drawable layer after the full reset satisfies the session invariant |
| AddFeature.ValidMoveInRange | source/SquadLeader/app/src/main/java/com/esri/squadleader/view/AddFeatureDialogFragment.java:432-434 | in a valid session, a handle move inserts at a position inside the list |
| AddFeature.MoveKeepsValid | source/SquadLeader/app/src/main/java/com/esri/squadleader/view/AddFeatureDialogFragment.java:120-121 | a tap that moves the selection keeps a valid session valid |
| AddFeature.SelectKeepsValid | source/SquadLeader/app/src/main/java/com/esri/squadleader/view/AddFeatureDialogFragment.java:122-133 | a tap with nothing selected that lands near a handle or a vertex keeps a valid session valid |
| AddFeature.AppendKeepsValid | source/SquadLeader/app/src/main/java/com/esri/squadleader/view/AddFeatureDialogFragment.java:134-138 | a tap with nothing selected and nothing near keeps a valid session valid |
| AddFeature.TapPreservesValid | source/SquadLeader/app/src/main/java/com/esri/squadleader/view/AddFeatureDialogFragment.java:113-143 | every tap preserves the invariant: handles in step, flags exclusive, indices in range, POINT holding at most one unselected vertex, no snapshot recording a selection |
| AddFeature.PointSessionHoldsTappedPoint | source/SquadLeader/app/src/main/java/com/esri/squadleader/view/AddFeatureDialogFragment.java:117-138 | in a valid POINT session every tap leaves exactly the tapped point, and the session can then be saved |
| AddFeature.Run | source/SquadLeader/app/src/main/java/com/esri/squadleader/view/AddFeatureDialogFragment.java:113-143 | any sequence of taps, with the projections allowed to change between taps, keeps a session valid and in its mode |
| AddFeature.RunHistory | source/SquadLeader/app/src/main/java/com/esri/squadleader/view/AddFeatureDialogFragment.java:449-451 | along any tap sequence the history grows by at most one state per tap, and no saved state records a selection |
| AddFeature.DeleteOfferedInValid | source/SquadLeader/app/src/main/java/com/esri/squadleader/view/AddFeatureDialogFragment.java:298 | in a valid session Delete is offered exactly when a line or polygon has a vertex and any selection is a vertex inside the list |
| AddFeature.TapKeepsUndoInStep | source/SquadLeader/app/src/main/java/com/esri/squadleader/view/AddFeatureDialogFragment.java:113-143 | a tap that pushes a state leaves at least one vertex, and a tap that pushes nothing changes no vertex, so an empty history keeps going with an empty vertex list |
| AddFeature.RunKeepsUndoInStep | source/SquadLeader/app/src/main/java/com/esri/squadleader/view/AddFeatureDialogFragment.java:113-143 | along any tap sequence the history stays empty exactly as long as the vertex list does |
| AddFeature.OpenedSessionOffersUndo | source/SquadLeader/app/src/main/java/com/esri/squadleader/view/AddFeatureDialogFragment.java:297-299 | in a session opened after the full reset, whatever the taps, Undo is offered exactly when there is a vertex |
| AddFeature.OpenedSessionsStayInRange | source/SquadLeader/app/src/main/java/com/esri/squadleader/view/AddFeatureDialogFragment.java:432-434 | after the full reset, no tap sequence ever asks a move to insert outside the vertex list |
| AddFeature.OpenedSessionKeepsFirstTap | source/SquadLeader/app/src/main/java/com/esri/squadleader/view/AddFeatureDialogFragment.java:113-138 | after the full reset, the first tap of a session on any drawable layer makes the tapped point the only vertex and pushes it, so Undo is offered; the session can then be saved exactly when it is a point session |
| AddFeature.StaleHandlesBreakNextMove | source/SquadLeader/app/src/main/java/com/esri/squadleader/view/AddFeatureDialogFragment.java:281-289 | after a cancelled session, a new session on any drawable layer has the old handles but no vertices; a tap within tolerance of one selects it, and the next move would insert outside the empty list |
| AddFeature.StaleVertexFlagLosesTap | source/SquadLeader/app/src/main/java/com/esri/squadleader/view/AddFeatureDialogFragment.java:281-289 | after a cancelled session with a vertex selected, the first tap of a new session on any drawable layer leaves no vertex, yet pushes a state and offers Undo |
| Scenarios.HitWithinTolerance | source/SquadLeader/app/src/main/java/com/esri/squadleader/view/AddFeatureDialogFragment.java:463-491 | a tap 5 px from a vertex at (100,100) selects it; a tap 100 px away selects nothing |
| Scenarios.SegmentHandle | source/SquadLeader/app/src/main/java/com/esri/squadleader/view/AddFeatureDialogFragment.java:374-381 | a two-vertex line has exactly one handle, halfway along; for (0,0) and (10,0) it is at (5,0) |
| Scenarios.PromoteMidPoint | source/SquadLeader/app/src/main/java/com/esri/squadleader/view/AddFeatureDialogFragment.java:431-434 | with a two-vertex line's handle selected, a tap makes the tapped point the middle vertex |

## Left out

- Undo (`GeometryEditController.undo`) and Delete (`EditingState.deletePoint`): the source of these classes is not part of this model. Only the history push and the Undo/Delete menu predicates are modelled.
- `EditingState` internals: `addPoint`, `clearPoints` and the copy constructor are taken to be list append, insert, clear and value copy.
- Saving (`actionSave`, `completeSaveAction`): these need the proprietary feature tables, geometry construction and a background identify query. Two end states are modelled. A save that reaches `completeSaveAction` leaves `DiscardAll`, through `exitEditMode` and `clear`. Any other save leaves `Discard`, through `actionMode.finish()` and `onDestroyActionMode`. Which path a save takes depends on the feature tables and is not modelled.
- `GeometryEditController` history calls (`addEditingState`, `clearEditingStates`, `getEditingStatesCount`): the source of this class is not part of this model. They are taken to push onto, empty and count the history stack, without touching the current editing state.
- AddFeature.MovePoint: the Java list throws `IndexOutOfBoundsException` when `addPoint(insertingIndex + 1, p)` falls outside `0..size`. The exception is not modelled. `MovePoint`, `Dispatch` and `Tap` require that position to be in range instead. `ValidMoveInRange` proves that every valid session meets the requirement. The first "## Findings" row shows a reachable state that does not.
- AddFeature.OpenLayer: for a layer the editor cannot draw, the source discards and dismisses the dialog but never finishes the action mode. The menu inflated when the action mode was created stays open as inflated. The model records only that the action-bar update sets no item's visibility.
- Dialog, action-mode and menu wiring (`onCreateDialog`, `showAction`, `onPrepareActionMode`, `onActionItemClicked`, `dismiss`): Android UI plumbing. Only the state part of `onCreateActionMode` is modelled, as `ModeFor` and `OpenLayer`.
- Whether the same dialog instance is shown again after a session ends depends on its callers, which are not part of this model.
- Rendering (`drawPolylineOrPolygon`, marker colouring in `drawMidPoints`/`drawVertices`, graphics layers): presentation only.
- `toMapPointObject` and `toScreenPoint`: these are projection calls into the map SDK. They are opaque function parameters here.
- Floating point: distances and midpoints are exact reals. Double rounding, overflow to infinity and NaN taps are not modelled.
- Geometry.DistSq: does not state that the distance is zero only at the tap, because that needs nonlinear real reasoning.

## Findings

| source | as written | input that shows it | evidently intended | confidence | as-written member | corrected member |
|---|---|---|---|---|---|---|
| source/SquadLeader/app/src/main/java/com/esri/squadleader/view/AddFeatureDialogFragment.java:281-289 | `discard` keeps the stored mid-point list; opening the next session (209-227) does not reset it | cancel, or save without reaching `completeSaveAction`, a polyline with vertices a, b; open a point, line or polygon layer; tap within 40 px of the stale handle at Mid(a, b), then tap again: the move inserts at index 1 of an empty list | a cancelled session forgets its handles, as `clear` (575-579) does | low; not executed; needs the same dialog instance to be shown again | AddFeature.StaleHandlesBreakNextMove | AddFeature.OpenedSessionsStayInRange |
| source/SquadLeader/app/src/main/java/com/esri/squadleader/view/AddFeatureDialogFragment.java:281-289 | `discard` keeps the vertex flag; opening the next session does not reset it | cancel, or save without reaching `completeSaveAction`, a session with a vertex selected; open a point, line or polygon layer; tap anywhere: the vertex list stays empty, a state is pushed and Undo is offered | a cancelled session forgets its selection, as `clear` (575-579) does | low; not executed; needs the same dialog instance to be shown again | AddFeature.StaleVertexFlagLosesTap | AddFeature.OpenedSessionKeepsFirstTap |

`AddFeature.DiscardAll` is the state that `exitEditMode` and `clear` leave, as written,
after a save that reaches `completeSaveAction`. It is also the state that a cancel or an
earlier-ending save should evidently leave. The results about a session opened on a
layer start from `OpenLayer(DiscardAll(prev), t)`: `OpenedSessionIsValid`,
`OpenedSessionsStayInRange`, `OpenedSessionOffersUndo` and `OpenedSessionKeepsFirstTap`.
They therefore describe the program as written for a session opened after a save that
reaches `completeSaveAction`. For a session opened after any other save, or after a
cancel, they describe the corrected program. `Discard` itself stays as written, because
within a session it only runs outside the editing modes.
