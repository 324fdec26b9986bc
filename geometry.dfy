/** World-space points and distances shared by both games. */
module Geometry {

  /** A position in world coordinates (pixels). */
  datatype Point = Point(x: real, y: real)

  /**
   * Squared Euclidean distance. The source compares `Math.sqrt` of this
   * quantity against radii; the model compares the squares instead.
   */
  function SqDist(a: Point, b: Point): (d: real)
    ensures d >= 0.0
    ensures a == b ==> d == 0.0
  {
    var dx, dy := b.x - a.x, b.y - a.y;
    SquareSign(dx);
    SquareSign(dy);
    dx * dx + dy * dy
  }

  lemma SquareSign(v: real)
    ensures v * v >= 0.0
  {
    if v > 0.0 {
      PosProduct(v, v);
    } else if v < 0.0 {
      PosProduct(-v, -v);
    }
  }

  lemma PosProduct(a: real, b: real)
    requires a > 0.0 && b > 0.0
    ensures a * b > 0.0
  {
  }

  /** Squaring is strictly monotone on non-negative reals. */
  lemma SquareLess(a: real, b: real)
    requires 0.0 <= a < b
    ensures a * a < b * b
  {
    PosProduct(b - a, b + a);
    assert b * b - a * a == (b - a) * (b + a);
  }

  /**
   * Comparing a distance with a non-negative radius is the same as comparing
   * the squared distance with the squared radius: this is what justifies
   * replacing `Math.sqrt(sq) < r` and `Math.sqrt(sq) > r` by squared tests.
   */
  lemma SquaredComparison(dist: real, sq: real, r: real)
    requires dist >= 0.0 && r >= 0.0 && dist * dist == sq
    ensures dist < r <==> sq < r * r
    ensures dist > r <==> sq > r * r
  {
    if dist < r {
      SquareLess(dist, r);
    } else if dist > r {
      SquareLess(r, dist);
    }
  }
}
