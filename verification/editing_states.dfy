/** The edit mode and the editing state the dialog manipulates: an ordered vertex list, two
    selection flags and the index the next move acts on. The controller classes that hold
    these values in the application are not part of this model; their list operations are
    modelled here as plain sequence edits. */
module EditingStates {
  import opened Geometry

  /** The geometry type being authored. NONE and SAVING mean "not editing". */
  datatype EditMode = NONE | POINT | POLYLINE | POLYGON | SAVING

  /** True for the three modes in which the dialog is editing a shape. */
  predicate Editing(mode: EditMode) {
    mode == POINT || mode == POLYLINE || mode == POLYGON
  }

  /** One editing state: the vertices in winding order, whether a mid-point or a vertex is
      selected, and the index (into the mid-point or the vertex list) of the selection. */
  datatype EditingState = EditingState(
    points: seq<Point>,
    midPointSelected: bool,
    vertexSelected: bool,
    insertingIndex: int)

  /** The vertex list rebuilt with vertex `i` replaced by `p`, built front to back as the
      dialog does; an index outside the list replaces nothing. */
  function ReplaceAt(points: seq<Point>, i: int, p: Point): (r: seq<Point>)
    ensures |r| == |points|
    ensures 0 <= i < |points| ==> r[i] == p
    ensures forall j :: 0 <= j < |points| && j != i ==> r[j] == points[j]
    decreases |points|
  {
    if |points| == 0 then []
    else
      var last := |points| - 1;
      ReplaceAt(points[..last], i, p) + [if last == i then p else points[last]]
  }

  /** Replacing a vertex and then putting the old vertex back restores the list. */
  lemma ReplaceAtRoundTrip(points: seq<Point>, i: int, p: Point)
    requires 0 <= i < |points|
    ensures ReplaceAt(ReplaceAt(points, i, p), i, points[i]) == points
  {
  }

  /** Replacing at an index outside the list leaves the list as it was. */
  lemma ReplaceAtOutOfRange(points: seq<Point>, i: int, p: Point)
    requires i < 0 || i >= |points|
    ensures ReplaceAt(points, i, p) == points
  {
  }

  /** The vertex list with `p` inserted so that it becomes vertex `k`. */
  function InsertAt(points: seq<Point>, k: int, p: Point): (r: seq<Point>)
    requires 0 <= k <= |points|
    ensures |r| == |points| + 1
    ensures r[k] == p
    ensures forall j :: 0 <= j < k ==> r[j] == points[j]
    ensures forall j :: k <= j < |points| ==> r[j + 1] == points[j]
  {
    points[..k] + [p] + points[k..]
  }

  /** Removing the inserted vertex gives back the original list. */
  lemma InsertAtRoundTrip(points: seq<Point>, k: int, p: Point)
    requires 0 <= k <= |points|
    ensures var r := InsertAt(points, k, p); r[..k] + r[k + 1..] == points
  {
  }
}
