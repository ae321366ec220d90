/** Hit-testing a tap against a list of map points: the nearest point, in squared screen
    distance, wins if it lies strictly within a 40-pixel tolerance. */
module HitTest {
  import opened Geometry

  /** Tolerance in pixels. */
  const Tolerance: int := 40

  /** Java's `Double.MAX_VALUE`, the sentinel the closest-point scan starts from. */
  const MaxDouble: real := 179769313486231570814527423731704356798070567525844996598917476803157260780028538760589558632766878171540458953514382464234321326889464182768467546703537516986049910576551282076245490090389328944075868508455133942304583236903222948165808559332123348274797826204144723168738177180919299881250404026184124858368.0

  /** The squared screen distance of each point from the tap at (x, y). */
  function Distances(x: real, y: real, points: seq<Point>, toScreen: Point -> Point): (d: seq<real>)
    ensures |d| == |points|
    ensures forall i :: 0 <= i < |points| ==> d[i] == DistSq(toScreen(points[i]), x, y)
  {
    seq(|points|, i requires 0 <= i < |points| => DistSq(toScreen(points[i]), x, y))
  }

  /** The state of the closest-point scan: the best index so far (-1 for none) and its
      distance (the sentinel while there is none). */
  datatype Candidate = Candidate(index: int, smallest: real)

  /** The scan's state after it has looked at all of `d`, one element at a time, replacing
      the candidate only on a strictly smaller distance. */
  function Closest(d: seq<real>): (c: Candidate)
    ensures -1 <= c.index < |d|
    ensures c.index == -1 ==> c.smallest == MaxDouble
    ensures c.index == -1 ==> forall j :: 0 <= j < |d| ==> d[j] >= MaxDouble
    ensures c.index >= 0 ==> c.smallest == d[c.index] < MaxDouble
    ensures forall j :: 0 <= j < |d| ==> c.smallest <= d[j]
    ensures forall j :: 0 <= j < c.index ==> c.smallest < d[j]
    decreases |d|
  {
    if |d| == 0 then Candidate(-1, MaxDouble)
    else
      var prev := Closest(d[..|d| - 1]);
      if d[|d| - 1] < prev.smallest then Candidate(|d| - 1, d[|d| - 1]) else prev
  }

  /** One step of the scan: looking at one more element. */
  lemma ClosestStep(d: seq<real>, i: int)
    requires 0 <= i < |d|
    ensures Closest(d[..i + 1]) ==
      if d[i] < Closest(d[..i]).smallest then Candidate(i, d[i]) else Closest(d[..i])
  {
  }

  /** The index of the point the tap at (x, y) selects, or -1 if none: the lowest-indexed
      point among those nearest the tap, provided it is strictly within the tolerance. */
  function SelectedIndex(x: real, y: real, points: seq<Point>, toScreen: Point -> Point): (r: int)
    ensures r == -1 || 0 <= r < |points|
    ensures 0 <= r ==> DistSq(toScreen(points[r]), x, y) < (Tolerance * Tolerance) as real
    ensures 0 <= r ==> forall j :: 0 <= j < |points| ==>
      DistSq(toScreen(points[r]), x, y) <= DistSq(toScreen(points[j]), x, y)
    ensures 0 <= r ==> forall j :: 0 <= j < r ==>
      DistSq(toScreen(points[r]), x, y) < DistSq(toScreen(points[j]), x, y)
    ensures r == -1 <==> forall j :: 0 <= j < |points| ==>
      DistSq(toScreen(points[j]), x, y) >= (Tolerance * Tolerance) as real
  {
    if |points| == 0 then -1
    else
      var c := Closest(Distances(x, y, points, toScreen));
      if c.smallest < (Tolerance * Tolerance) as real then c.index else -1
  }

  /** The scan as the dialog runs it: one pass keeping the closest point so far, then the
      tolerance check. */
  method GetSelectedIndex(x: real, y: real, points: seq<Point>, toScreen: Point -> Point)
    returns (r: int)
    ensures r == SelectedIndex(x, y, points, toScreen)
  {
    if |points| == 0 {
      return -1;
    }
    ghost var d := Distances(x, y, points, toScreen);
    var index := -1;
    var distSqSmall := MaxDouble;
    var i := 0;
    while i < |points|
      invariant 0 <= i <= |points|
      invariant Candidate(index, distSqSmall) == Closest(d[..i])
    {
      var p := toScreen(points[i]);
      var distSq := DistSq(p, x, y);
      ClosestStep(d, i);
      if distSq < distSqSmall {
        index := i;
        distSqSmall := distSq;
      }
      i := i + 1;
    }
    assert d[..i] == d;
    if distSqSmall < (Tolerance * Tolerance) as real {
      return index;
    }
    return -1;
  }
}
