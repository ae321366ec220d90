/** The list of mid-points the dialog offers as insertion handles: one between each pair of
    consecutive vertices and, for a polygon of three or more vertices, one closing the ring. */
module MidPointDerivation {
  import opened Geometry
  import opened EditingStates

  /** Mid-points of consecutive vertices, appended in order as the dialog's loop does. */
  function Consecutive(points: seq<Point>): (r: seq<Point>)
    ensures |r| == if |points| <= 1 then 0 else |points| - 1
    ensures forall i :: 0 <= i < |r| ==> r[i] == Mid(points[i], points[i + 1])
    decreases |points|
  {
    if |points| <= 1 then []
    else
      var n := |points|;
      Consecutive(points[..n - 1]) + [Mid(points[n - 2], points[n - 1])]
  }

  /** Whether the mid-point list gets a closing entry between the last and the first vertex. */
  predicate ClosesRing(points: seq<Point>, mode: EditMode) {
    mode == POLYGON && |points| > 2
  }

  /** The mid-point list derived from the vertex list in the given mode. */
  function MidPoints(points: seq<Point>, mode: EditMode): (r: seq<Point>)
    ensures |points| <= 1 ==> r == []
    ensures |points| > 1 ==> |r| == |points| - 1 + (if ClosesRing(points, mode) then 1 else 0)
    ensures |r| <= |points|
    ensures forall i :: 0 <= i < |points| - 1 ==> r[i] == Mid(points[i], points[i + 1])
    ensures ClosesRing(points, mode) ==> r[|points| - 1] == Mid(points[0], points[|points| - 1])
  {
    if |points| > 1 then
      Consecutive(points)
        + (if ClosesRing(points, mode) then [Mid(points[0], points[|points| - 1])] else [])
    else
      []
  }

  /** Promoting mid-point `k` to vertex `k + 1` splits exactly the edge that mid-point was on:
      the new vertex lands between vertex `k` and its old successor (the first vertex, for the
      closing mid-point), and the promoted handle was the mid-point of those two neighbours. */
  lemma PromotionSplitsEdge(points: seq<Point>, mode: EditMode, k: int, p: Point)
    requires 0 <= k < |MidPoints(points, mode)|
    ensures k + 1 <= |points|
    ensures var q := InsertAt(points, k + 1, p);
      && q[k] == points[k]
      && q[k + 1] == p
      && MidPoints(points, mode)[k] == Mid(q[k], if k + 2 < |q| then q[k + 2] else q[0])
  {
  }
}
