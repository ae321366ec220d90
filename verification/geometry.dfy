/** Plane points and the scalar arithmetic the feature editor performs on them.
    Coordinates are exact reals; the rounding of the Java double arithmetic is not modelled. */
module Geometry {

  /** A point with real coordinates. The editor uses the same shape for map points and for
      screen points (pixels), so one datatype serves both. */
  datatype Point = Point(x: real, y: real)

  /** The point halfway between `p` and `q`: it is as far from `p` as `q` is from it,
      on each axis. */
  function Mid(p: Point, q: Point): (m: Point)
    ensures m.x - p.x == q.x - m.x
    ensures m.y - p.y == q.y - m.y
  {
    Point((p.x + q.x) / 2.0, (p.y + q.y) / 2.0)
  }

  /** Squared Euclidean distance between the screen point `p` and the tap at (x, y): never
      negative, zero at the tap itself, and at least the squared offset along either axis. */
  function DistSq(p: Point, x: real, y: real): (d: real)
    ensures d >= 0.0
    ensures p == Point(x, y) ==> d == 0.0
    ensures d >= (p.x - x) * (p.x - x) && d >= (p.y - y) * (p.y - y)
  {
    var dx := p.x - x;
    var dy := p.y - y;
    SquarePositive(dx);
    SquarePositive(dy);
    dx * dx + dy * dy
  }

  /** A square is never negative. */
  lemma SquarePositive(a: real)
    ensures a * a >= 0.0
  {
  }

  /** Bounds of a 32-bit signed Java `int`. */
  const IntMin: int := -0x8000_0000
  const IntMax: int := 0x7fff_ffff

  /** Java's `Math.round` on a float: the nearest int, ties rounded toward positive infinity,
      saturated at the bounds of the int range. */
  function RoundToInt(v: real): (r: int)
    ensures IntMin <= r <= IntMax
    ensures IntMin as real <= v < IntMax as real ==> -0.5 <= v - r as real < 0.5
    ensures v <= IntMin as real ==> r == IntMin
    ensures v >= IntMax as real ==> r == IntMax
  {
    var f := (v + 0.5).Floor;
    if f < IntMin then IntMin else if f > IntMax then IntMax else f
  }
}
