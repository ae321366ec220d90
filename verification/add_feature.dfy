/** The editing state machine of the add-feature dialog: a tap either moves the current
    selection, selects a mid-point or a vertex near it, or appends a new vertex; the action
    bar then offers save, delete and undo according to the state. Screen/map projection is
    passed in as function values; rendering is left out. */
module AddFeature {
  import opened Geometry
  import opened EditingStates
  import opened MidPointDerivation
  import opened HitTest

  /** The dialog's editing data: the mode, the current editing state, the stack of saved
      editing states (most recent last), and the mid-point list computed at the last refresh. */
  datatype Session = Session(
    mode: EditMode,
    current: EditingState,
    history: seq<EditingState>,
    midPoints: seq<Point>)

  /** Whether a save is offered: the vertex count reaches the mode's minimum. */
  function IsSaveValid(mode: EditMode, count: nat): (valid: bool)
    ensures valid <==>
      || (mode == POINT && count >= 1)
      || (mode == POLYLINE && count >= 2)
      || (mode == POLYGON && count >= 3)
  {
    match mode
    case POINT => count >= 1
    case POLYGON => count >= 3
    case POLYLINE => count >= 2
    case _ => false
  }

  /** A line can be saved exactly when it has at least one edge (one mid-point handle), and a
      polygon exactly when its ring is closed (the mid-point list has a closing entry). */
  lemma SaveValidMeansShape(points: seq<Point>)
    ensures IsSaveValid(POLYLINE, |points|) <==> |MidPoints(points, POLYLINE)| >= 1
    ensures IsSaveValid(POLYGON, |points|) <==>
      |points| > 0 && |MidPoints(points, POLYGON)| == |points|
  {
  }

  /** What updating the action bar sets: in an editing mode, whether Save, Delete and Undo are
      shown; otherwise `NoneSet`, as the update then sets no item's visibility and leaves the
      menu as it was. */
  datatype Actions = NoneSet | Shown(save: bool, deletePoint: bool, undo: bool)

  /** What updating the action bar sets for a session. */
  function ActionsShown(s: Session): (a: Actions)
    ensures a.Shown? <==> Editing(s.mode)
    ensures a.Shown? ==> (a.save <==> IsSaveValid(s.mode, |s.current.points|))
    ensures a.Shown? ==> (a.deletePoint <==>
      s.mode != POINT && |s.current.points| > 0 && !s.current.midPointSelected)
    ensures a.Shown? ==> (a.undo <==> |s.history| > 0)
  {
    if !Editing(s.mode) then NoneSet
    else
      Shown(
        IsSaveValid(s.mode, |s.current.points|),
        s.mode != POINT && |s.current.points| > 0 && !s.current.midPointSelected,
        |s.history| > 0)
  }

  /** Leaving edit mode: the vertices and the history are dropped, the mode returns to NONE
      and the mid-point flag is cleared. The vertex flag, the inserting index and the stored
      mid-point list are left as they were. */
  function Discard(s: Session): (r: Session)
    ensures r.mode == NONE && r.current.points == [] && r.history == []
    ensures !r.current.midPointSelected
    ensures r.current.vertexSelected == s.current.vertexSelected
    ensures r.midPoints == s.midPoints
  {
    s.(mode := NONE, current := s.current.(points := [], midPointSelected := false), history := [])
  }

  /** For a discarded session the action-bar update sets no item, and discarding again changes
      nothing. */
  lemma DiscardEndsEditing(s: Session)
    ensures ActionsShown(Discard(s)) == NoneSet
    ensures Discard(Discard(s)) == Discard(s)
  {
  }

  /** The state part of updating the action bar: an editing session is left alone; any other
      session is discarded, and a later update sets no item's visibility. */
  function UpdateActionBar(s: Session): (r: Session)
    ensures Editing(s.mode) ==> r == s
    ensures !Editing(s.mode) ==> r == Discard(s) && ActionsShown(r) == NoneSet
  {
    if Editing(s.mode) then s else Discard(s)
  }

  /** A discard that also forgets the stored mid-point list and the vertex selection: the
      state `exitEditMode` and `clear` leave after a save that reaches `completeSaveAction`.
      The next session then starts from a clean state. */
  function DiscardAll(s: Session): (r: Session)
    ensures ActionsShown(r) == NoneSet
    ensures r.current.points == [] && r.history == [] && r.midPoints == []
    ensures !r.current.midPointSelected && !r.current.vertexSelected
  {
    Discard(s).(current := Discard(s).current.(vertexSelected := false), midPoints := [])
  }

  /** The geometry type of the layer chosen for a new feature. */
  datatype GeometryType =
    | PointType | MultipointType | LineType | PolylineType | EnvelopeType | PolygonType
    | OtherType

  /** The edit mode a layer's geometry type selects; a type the editor cannot draw gives NONE. */
  function ModeFor(t: GeometryType): (m: EditMode)
    ensures Editing(m) <==> !t.OtherType?
    ensures !Editing(m) ==> m == NONE
    ensures m == POINT <==> t.PointType? || t.MultipointType?
    ensures m == POLYLINE <==> t.LineType? || t.PolylineType?
    ensures m == POLYGON <==> t.EnvelopeType? || t.PolygonType?
  {
    match t
    case PointType | MultipointType => POINT
    case LineType | PolylineType => POLYLINE
    case EnvelopeType | PolygonType => POLYGON
    case OtherType => NONE
  }

  /** Opening an editing session on a layer of type `t`, from whatever the dialog holds: the
      mode is set from the type and the action bar is updated; a type the editor cannot draw
      discards instead, and the update then sets no item's visibility. Nothing else is
      reset. */
  function OpenLayer(s: Session, t: GeometryType): (r: Session)
    ensures Editing(ModeFor(t)) ==> r == s.(mode := ModeFor(t))
    ensures !Editing(ModeFor(t)) ==>
      ActionsShown(r) == NoneSet && r.current.points == [] && r.history == []
  {
    var chosen := s.(mode := ModeFor(t));
    UpdateActionBar(if Editing(chosen.mode) then chosen else Discard(chosen))
  }

  /** The state part of a refresh: recompute the mid-point list, then update the action bar. */
  function Refresh(s: Session): (r: Session)
    ensures Editing(s.mode) ==> r == s.(midPoints := MidPoints(s.current.points, s.mode))
    ensures !Editing(s.mode) ==> r.mode == NONE && r.current.points == [] && r.history == []
  {
    UpdateActionBar(s.(midPoints := MidPoints(s.current.points, s.mode)))
  }

  /** Saving a copy of the current editing state onto the history stack: the copy becomes the
      top of the stack, the states below it and everything else stay as they were. */
  function Push(s: Session): (r: Session)
    ensures |r.history| == |s.history| + 1
    ensures r.history[|s.history|] == s.current
    ensures r.history[..|s.history|] == s.history
    ensures r.mode == s.mode && r.current == s.current && r.midPoints == s.midPoints
  {
    s.(history := s.history + [s.current])
  }

  /** Moving the selection to `point`: a selected mid-point becomes a new vertex right after
      vertex `insertingIndex`; otherwise the vertex at `insertingIndex` is moved. Both flags are
      then cleared and the new state is pushed. */
  function MovePoint(s: Session, point: Point): (r: Session)
    requires s.current.midPointSelected ==>
      0 <= s.current.insertingIndex + 1 <= |s.current.points|
    ensures r.mode == s.mode && r.midPoints == s.midPoints
    ensures !r.current.midPointSelected && !r.current.vertexSelected
    ensures r.current.insertingIndex == s.current.insertingIndex
    ensures r.history == s.history + [r.current]
    ensures s.current.midPointSelected ==>
      var k := s.current.insertingIndex + 1;
      && |r.current.points| == |s.current.points| + 1
      && r.current.points[k] == point
      && r.current.points[..k] == s.current.points[..k]
      && r.current.points[k + 1..] == s.current.points[k..]
    ensures !s.current.midPointSelected ==>
      var i := s.current.insertingIndex;
      && |r.current.points| == |s.current.points|
      && (0 <= i < |s.current.points| ==> r.current.points[i] == point)
      && forall j :: 0 <= j < |s.current.points| && j != i ==>
           r.current.points[j] == s.current.points[j]
  {
    var cur := s.current;
    var moved :=
      if cur.midPointSelected then InsertAt(cur.points, cur.insertingIndex + 1, point)
      else ReplaceAt(cur.points, cur.insertingIndex, point);
    Push(s.(current := cur.(points := moved, midPointSelected := false, vertexSelected := false)))
  }

  /** Appending `point` as the last vertex and pushing the new state: the earlier vertices, the
      flags and the inserting index are kept, and the pushed copy is the new state. */
  function AddPoint(s: Session, point: Point): (r: Session)
    ensures |r.current.points| == |s.current.points| + 1
    ensures r.current.points[|s.current.points|] == point
    ensures r.current.points[..|s.current.points|] == s.current.points
    ensures r.current.midPointSelected == s.current.midPointSelected
    ensures r.current.vertexSelected == s.current.vertexSelected
    ensures r.current.insertingIndex == s.current.insertingIndex
    ensures r.mode == s.mode && r.midPoints == s.midPoints
    ensures r.history == s.history + [r.current]
  {
    Push(s.(current := s.current.(points := s.current.points + [point])))
  }

  /** The editing state a tap starts from: in POINT mode the vertices are cleared first, in the
      other modes they are kept; the flags and the inserting index are never touched. */
  function Cleared(s: Session): (c: EditingState)
    ensures s.mode == POINT ==> c.points == []
    ensures s.mode != POINT ==> c.points == s.current.points
    ensures c.midPointSelected == s.current.midPointSelected
    ensures c.vertexSelected == s.current.vertexSelected
    ensures c.insertingIndex == s.current.insertingIndex
  {
    if s.mode == POINT then s.current.(points := []) else s.current
  }

  /** A tap's move is in range: a mid-point move inserts at a position the list has. */
  predicate MoveInRange(s: Session) {
    Cleared(s).midPointSelected ==>
      0 <= Cleared(s).insertingIndex + 1 <= |Cleared(s).points|
  }

  /** The map point a tap at screen (x, y) denotes: the screen coordinates are rounded to
      ints, then projected, so a tap exactly on a pixel inside the int range projects that
      pixel. */
  function TapPoint(x: real, y: real, toMap: (int, int) -> Point): (p: Point)
    ensures x == x.Floor as real && IntMin <= x.Floor <= IntMax
         && y == y.Floor as real && IntMin <= y.Floor <= IntMax
         ==> p == toMap(x.Floor, y.Floor)
  {
    toMap(RoundToInt(x), RoundToInt(y))
  }

  /** The dispatch part of a single tap at screen (x, y), before the refresh. */
  function Dispatch(s: Session, x: real, y: real, toMap: (int, int) -> Point,
                    toScreen: Point -> Point): (r: Session)
    requires MoveInRange(s)
    ensures r.mode == s.mode
  {
    var point := TapPoint(x, y, toMap);
    var t := s.(current := Cleared(s));
    if t.current.midPointSelected || t.current.vertexSelected then
      MovePoint(t, point)
    else
      var idx1 := SelectedIndex(x, y, s.midPoints, toScreen);
      if idx1 != -1 then
        t.(current := t.current.(midPointSelected := true, insertingIndex := idx1))
      else
        var idx2 := SelectedIndex(x, y, t.current.points, toScreen);
        if idx2 != -1 then
          t.(current := t.current.(vertexSelected := true, insertingIndex := idx2))
        else
          AddPoint(t, point)
  }

  /** A single tap at screen (x, y), followed by the refresh. Whatever the state, the two
      selection flags are never both set afterwards, a POINT session holds at most one vertex,
      at most one state is pushed, and in an editing mode the mid-point list is in step with
      the vertices. */
  function Tap(s: Session, x: real, y: real, toMap: (int, int) -> Point,
               toScreen: Point -> Point): (r: Session)
    requires MoveInRange(s)
    ensures !(r.current.midPointSelected && r.current.vertexSelected)
    ensures s.mode == POINT ==> |r.current.points| <= 1
    ensures |r.history| <= |s.history| + 1
    ensures Editing(s.mode) ==>
      r.mode == s.mode && r.midPoints == MidPoints(r.current.points, r.mode)
  {
    Refresh(Dispatch(s, x, y, toMap, toScreen))
  }

  /** A tap while something is selected moves it, clears both flags and pushes the result. */
  lemma TapMovesSelection(s: Session, x: real, y: real, toMap: (int, int) -> Point,
                          toScreen: Point -> Point)
    requires Editing(s.mode) && MoveInRange(s)
    requires Cleared(s).midPointSelected || Cleared(s).vertexSelected
    ensures var r := Tap(s, x, y, toMap, toScreen);
      && r.current == MovePoint(s.(current := Cleared(s)), TapPoint(x, y, toMap)).current
      && !r.current.midPointSelected && !r.current.vertexSelected
      && r.history == s.history + [r.current]
  {
  }

  /** With nothing selected, a tap near a mid-point selects it, taking priority over any
      vertex; the vertices and the history stay as they were. */
  lemma TapSelectsMidPoint(s: Session, x: real, y: real, toMap: (int, int) -> Point,
                           toScreen: Point -> Point)
    requires Editing(s.mode) && s.mode != POINT
    requires !s.current.midPointSelected && !s.current.vertexSelected
    requires SelectedIndex(x, y, s.midPoints, toScreen) != -1
    ensures var r := Tap(s, x, y, toMap, toScreen);
      && r.current.points == s.current.points
      && r.current.midPointSelected && !r.current.vertexSelected
      && r.current.insertingIndex == SelectedIndex(x, y, s.midPoints, toScreen)
      && r.history == s.history
  {
  }

  /** With nothing selected and no mid-point near, a tap near a vertex selects it; the
      vertices and the history stay as they were. */
  lemma TapSelectsVertex(s: Session, x: real, y: real, toMap: (int, int) -> Point,
                         toScreen: Point -> Point)
    requires Editing(s.mode) && s.mode != POINT
    requires !s.current.midPointSelected && !s.current.vertexSelected
    requires SelectedIndex(x, y, s.midPoints, toScreen) == -1
    requires SelectedIndex(x, y, s.current.points, toScreen) != -1
    ensures var r := Tap(s, x, y, toMap, toScreen);
      && r.current.points == s.current.points
      && r.current.vertexSelected && !r.current.midPointSelected
      && r.current.insertingIndex == SelectedIndex(x, y, s.current.points, toScreen)
      && r.history == s.history
  {
  }

  /** With nothing selected and nothing near, a tap appends the tapped point as the last
      vertex and pushes the new state. */
  lemma TapAppends(s: Session, x: real, y: real, toMap: (int, int) -> Point,
                   toScreen: Point -> Point)
    requires Editing(s.mode)
    requires !s.current.midPointSelected && !s.current.vertexSelected
    requires SelectedIndex(x, y, s.midPoints, toScreen) == -1
    requires SelectedIndex(x, y, Cleared(s).points, toScreen) == -1
    ensures var r := Tap(s, x, y, toMap, toScreen);
      && r.current.points == Cleared(s).points + [TapPoint(x, y, toMap)]
      && !r.current.midPointSelected && !r.current.vertexSelected
      && r.history == s.history + [r.current]
  {
  }

  /** The invariant of an editing session as the dialog drives it. */
  predicate Valid(s: Session) {
    && Editing(s.mode)
    && s.midPoints == MidPoints(s.current.points, s.mode)
    && !(s.current.midPointSelected && s.current.vertexSelected)
    && (s.current.midPointSelected ==> 0 <= s.current.insertingIndex < |s.midPoints|)
    && (s.current.vertexSelected ==> 0 <= s.current.insertingIndex < |s.current.points|)
    && (s.mode == POINT ==>
          |s.current.points| <= 1 && !s.current.midPointSelected && !s.current.vertexSelected)
    && (forall k :: 0 <= k < |s.history| ==>
          !s.history[k].midPointSelected && !s.history[k].vertexSelected)
  }

  /** A session opened on a drawable layer after a full discard satisfies the invariant. */
  lemma OpenedSessionIsValid(prev: Session, t: GeometryType)
    requires !t.OtherType?
    ensures Valid(OpenLayer(DiscardAll(prev), t))
  {
  }

  /** In a valid session a mid-point move always inserts inside the list: the position after
      a valid mid-point index is at most the vertex count. */
  lemma ValidMoveInRange(s: Session)
    requires Valid(s)
    ensures MoveInRange(s)
  {
  }

  /** A tap that moves the selection keeps a session valid. */
  lemma MoveKeepsValid(s: Session, x: real, y: real, toMap: (int, int) -> Point,
                       toScreen: Point -> Point)
    requires Valid(s)
    requires s.current.midPointSelected || s.current.vertexSelected
    ensures MoveInRange(s) && Valid(Tap(s, x, y, toMap, toScreen))
  {
    ValidMoveInRange(s);
    var d := Dispatch(s, x, y, toMap, toScreen);
    assert d.history == s.history + [d.current];
  }

  /** A tap with nothing selected that lands near a handle or a vertex selects it and keeps a
      session valid. */
  lemma SelectKeepsValid(s: Session, x: real, y: real, toMap: (int, int) -> Point,
                         toScreen: Point -> Point)
    requires Valid(s)
    requires !s.current.midPointSelected && !s.current.vertexSelected
    requires SelectedIndex(x, y, s.midPoints, toScreen) != -1
      || SelectedIndex(x, y, Cleared(s).points, toScreen) != -1
    ensures MoveInRange(s) && Valid(Tap(s, x, y, toMap, toScreen))
  {
  }

  /** A tap with nothing selected and nothing near appends a vertex and keeps a session
      valid. */
  lemma AppendKeepsValid(s: Session, x: real, y: real, toMap: (int, int) -> Point,
                         toScreen: Point -> Point)
    requires Valid(s)
    requires !s.current.midPointSelected && !s.current.vertexSelected
    requires SelectedIndex(x, y, s.midPoints, toScreen) == -1
    requires SelectedIndex(x, y, Cleared(s).points, toScreen) == -1
    ensures MoveInRange(s) && Valid(Tap(s, x, y, toMap, toScreen))
  {
    var d := Dispatch(s, x, y, toMap, toScreen);
    assert d.history == s.history + [d.current];
  }

  /** Every tap keeps a session valid. */
  lemma TapPreservesValid(s: Session, x: real, y: real, toMap: (int, int) -> Point,
                          toScreen: Point -> Point)
    requires Valid(s)
    ensures MoveInRange(s) && Valid(Tap(s, x, y, toMap, toScreen))
  {
    if s.current.midPointSelected || s.current.vertexSelected {
      MoveKeepsValid(s, x, y, toMap, toScreen);
    } else if SelectedIndex(x, y, s.midPoints, toScreen) != -1
      || SelectedIndex(x, y, Cleared(s).points, toScreen) != -1
    {
      SelectKeepsValid(s, x, y, toMap, toScreen);
    } else {
      AppendKeepsValid(s, x, y, toMap, toScreen);
    }
  }

  /** In a valid POINT session every tap leaves exactly the tapped point, which can be saved. */
  lemma PointSessionHoldsTappedPoint(s: Session, x: real, y: real, toMap: (int, int) -> Point,
                                     toScreen: Point -> Point)
    requires Valid(s) && s.mode == POINT
    ensures MoveInRange(s)
    ensures var r := Tap(s, x, y, toMap, toScreen);
      && r.current.points == [TapPoint(x, y, toMap)]
      && IsSaveValid(r.mode, |r.current.points|)
  {
  }

  /** A tap in the dialog, with the projections in force at that moment (the map may be
      panned between taps). */
  datatype TapEvent = TapEvent(x: real, y: real, toMap: (int, int) -> Point,
                               toScreen: Point -> Point)

  /** The session after a sequence of taps. */
  function Run(s: Session, taps: seq<TapEvent>): (r: Session)
    requires Valid(s)
    ensures Valid(r) && r.mode == s.mode
    decreases |taps|
  {
    if |taps| == 0 then s
    else
      var e := taps[0];
      TapPreservesValid(s, e.x, e.y, e.toMap, e.toScreen);
      Run(Tap(s, e.x, e.y, e.toMap, e.toScreen), taps[1..])
  }

  /** Along any sequence of taps the stored history grows by at most one state per tap, and
      no stored state records a selection. */
  lemma {:induction false} RunHistory(s: Session, taps: seq<TapEvent>)
    requires Valid(s)
    ensures |Run(s, taps).history| <= |s.history| + |taps|
    ensures forall k :: 0 <= k < |Run(s, taps).history| ==>
      !Run(s, taps).history[k].midPointSelected && !Run(s, taps).history[k].vertexSelected
    decreases |taps|
  {
    if |taps| > 0 {
      var e := taps[0];
      TapPreservesValid(s, e.x, e.y, e.toMap, e.toScreen);
      RunHistory(Tap(s, e.x, e.y, e.toMap, e.toScreen), taps[1..]);
    }
  }

  /** In a valid session Delete is offered exactly when a line or polygon has a vertex and
      the selection, if any, is a vertex inside the list. */
  lemma DeleteOfferedInValid(s: Session)
    requires Valid(s)
    ensures ActionsShown(s).deletePoint <==>
      && s.mode != POINT
      && |s.current.points| > 0
      && (s.current.midPointSelected || s.current.vertexSelected ==>
            s.current.vertexSelected && 0 <= s.current.insertingIndex < |s.current.points|)
  {
  }

  /** Whether the history is empty exactly when the vertex list is. */
  predicate UndoInStep(s: Session) {
    |s.history| > 0 <==> |s.current.points| > 0
  }

  /** A tap on a valid session keeps the history empty exactly when the vertex list is: a tap
      that pushes leaves at least one vertex, and one that does not push changes no vertex. */
  lemma TapKeepsUndoInStep(s: Session, x: real, y: real, toMap: (int, int) -> Point,
                           toScreen: Point -> Point)
    requires Valid(s) && UndoInStep(s)
    ensures MoveInRange(s) && UndoInStep(Tap(s, x, y, toMap, toScreen))
  {
    ValidMoveInRange(s);
  }

  /** Along any sequence of taps from a session whose history is empty exactly when its vertex
      list is, that stays so. */
  lemma {:induction false} RunKeepsUndoInStep(s: Session, taps: seq<TapEvent>)
    requires Valid(s) && UndoInStep(s)
    ensures UndoInStep(Run(s, taps))
    decreases |taps|
  {
    if |taps| > 0 {
      var e := taps[0];
      TapPreservesValid(s, e.x, e.y, e.toMap, e.toScreen);
      TapKeepsUndoInStep(s, e.x, e.y, e.toMap, e.toScreen);
      RunKeepsUndoInStep(Tap(s, e.x, e.y, e.toMap, e.toScreen), taps[1..]);
    }
  }

  /** In a session opened after a full discard, whatever the taps, Undo is offered exactly when
      there is a vertex, that is exactly when some tap has appended or moved one. */
  lemma OpenedSessionOffersUndo(prev: Session, t: GeometryType, taps: seq<TapEvent>)
    requires !t.OtherType?
    ensures Valid(OpenLayer(DiscardAll(prev), t))
    ensures var r := Run(OpenLayer(DiscardAll(prev), t), taps);
      ActionsShown(r).undo <==> |r.current.points| > 0
  {
    OpenedSessionIsValid(prev, t);
    RunKeepsUndoInStep(OpenLayer(DiscardAll(prev), t), taps);
  }

  /** As written, cancelling a session keeps its mid-point handles, so a session opened next
      on any drawable layer starts with those handles but no vertices; a tap within tolerance
      of a stale handle selects it, and the move on the following tap would insert after that
      handle's index into an empty list, outside the range the list accepts. */
  lemma StaleHandlesBreakNextMove(prev: Session, t: GeometryType, x: real, y: real,
                                  toMap: (int, int) -> Point, toScreen: Point -> Point)
    requires !prev.current.vertexSelected
    requires !t.OtherType?
    requires SelectedIndex(x, y, prev.midPoints, toScreen) != -1
    ensures var s := OpenLayer(Discard(prev), t);
      && Editing(s.mode) && s.current.points == [] && s.midPoints != []
      && MoveInRange(s)
      && var r := Tap(s, x, y, toMap, toScreen);
      && r.current.midPointSelected
      && r.current.insertingIndex == SelectedIndex(x, y, prev.midPoints, toScreen)
      && !MoveInRange(r)
  {
  }

  /** As written, cancelling a session with a vertex selected keeps that selection, so the first
      tap of a session opened next on any drawable layer moves a vertex of the empty list: the
      tap is lost, yet a state is pushed and Undo is offered. */
  lemma StaleVertexFlagLosesTap(prev: Session, t: GeometryType, x: real, y: real,
                                toMap: (int, int) -> Point, toScreen: Point -> Point)
    requires prev.current.vertexSelected
    requires !t.OtherType?
    ensures var s := OpenLayer(Discard(prev), t);
      && Editing(s.mode) && MoveInRange(s)
      && var r := Tap(s, x, y, toMap, toScreen);
      && r.current.points == [] && |r.history| == 1
      && !IsSaveValid(r.mode, |r.current.points|) && ActionsShown(r).undo
  {
  }

  /** With the full discard, the first tap of a session opened next on any drawable layer
      appends the tapped point as the only vertex and pushes it; a point session can then be
      saved. */
  lemma OpenedSessionKeepsFirstTap(prev: Session, t: GeometryType, x: real, y: real,
                                   toMap: (int, int) -> Point, toScreen: Point -> Point)
    requires !t.OtherType?
    ensures var s := OpenLayer(DiscardAll(prev), t);
      && MoveInRange(s)
      && var r := Tap(s, x, y, toMap, toScreen);
      && r.current.points == [TapPoint(x, y, toMap)]
      && |r.history| == 1 && ActionsShown(r).undo
      && (IsSaveValid(r.mode, |r.current.points|) <==> t.PointType? || t.MultipointType?)
  {
  }

  /** With the full discard, no sequence of taps from an opened session ever asks a move to
      insert outside the vertex list. */
  lemma OpenedSessionsStayInRange(prev: Session, t: GeometryType, taps: seq<TapEvent>)
    requires !t.OtherType?
    ensures Valid(OpenLayer(DiscardAll(prev), t))
    ensures MoveInRange(Run(OpenLayer(DiscardAll(prev), t), taps))
  {
    OpenedSessionIsValid(prev, t);
    ValidMoveInRange(Run(OpenLayer(DiscardAll(prev), t), taps));
  }
}
