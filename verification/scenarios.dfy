/** Concrete editing scenarios. */
module Scenarios {
  import opened Geometry
  import opened EditingStates
  import opened MidPointDerivation
  import opened HitTest
  import opened AddFeature

  /** A screen projection for a map shown at one pixel per map unit with no offset. */
  function Identity(p: Point): Point { p }

  /** A tap 5 px from a vertex drawn at (100, 100) selects it; a tap 100 px away does not. */
  lemma HitWithinTolerance()
    ensures SelectedIndex(105.0, 100.0, [Point(100.0, 100.0)], Identity) == 0
    ensures SelectedIndex(200.0, 100.0, [Point(100.0, 100.0)], Identity) == -1
  {
  }

  /** A two-vertex line has one handle, halfway along; for (0,0) and (10,0) it is (5,0). */
  lemma SegmentHandle(a: Point, b: Point)
    ensures MidPoints([a, b], POLYLINE) == [Mid(a, b)]
    ensures Mid(Point(0.0, 0.0), Point(10.0, 0.0)) == Point(5.0, 0.0)
  {
    var r := MidPoints([a, b], POLYLINE);
    assert |r| == 1 && r[0] == Mid(a, b);
  }

  /** With two vertices `a` and `b` on a line and their handle selected, a tap makes the
      tapped point the new middle vertex. */
  lemma PromoteMidPoint(a: Point, b: Point, x: real, y: real, toMap: (int, int) -> Point,
                        toScreen: Point -> Point)
    ensures var s := Session(POLYLINE, EditingState([a, b], true, false, 0), [], [Mid(a, b)]);
      Tap(s, x, y, toMap, toScreen).current.points == [a, TapPoint(x, y, toMap), b]
  {
  }
}
