/** Triangles over three points and their signed double area
    (computational_geometry/src/triangle.rs). The cached `OnceCell` of the
    source is a pure function here: every call yields the same value. */
module Triangles {
  import opened Points

  datatype Triangle = Triangle(p1: Point, p2: Point, p3: Point)

  /** Twice the signed area, by the cross product of the edge vectors
      p1->p2 and p1->p3; positive for a counter-clockwise triangle, and zero
      as soon as two of the points coincide. */
  function DoubleArea(t: Triangle): (r: int)
    ensures t.p1 == t.p2 || t.p2 == t.p3 || t.p3 == t.p1 ==> r == 0
  {
    var t1 := (t.p2.x - t.p1.x) * (t.p3.y - t.p1.y);
    var t2 := (t.p3.x - t.p1.x) * (t.p2.y - t.p1.y);
    t1 - t2
  }

  /** The sign of an integer, as Rust's `i32::signum`. */
  function Signum(v: int): (r: int)
    ensures r == -1 || r == 0 || r == 1
    ensures (r == 1 <==> v > 0) && (r == -1 <==> v < 0)
  {
    if v > 0 then 1 else if v < 0 then -1 else 0
  }

  /** +1 for a counter-clockwise triangle, -1 for a clockwise one, 0 when the
      three points are collinear. */
  function AreaSign(t: Triangle): (r: int)
    ensures r == -1 || r == 0 || r == 1
    ensures (r == 1 <==> DoubleArea(t) > 0) && (r == -1 <==> DoubleArea(t) < 0)
  {
    Signum(DoubleArea(t))
  }

  /** The three points lie on one line (the triangle has zero area). */
  function HasCollinearPoints(t: Triangle): (r: bool)
    ensures r <==> DoubleArea(t) == 0
  {
    AreaSign(t) == 0
  }

  /** The edge-vector formula agrees with the shoelace sum of the closed walk
      p1, p2, p3 (the cross products of consecutive position vectors). */
  lemma DoubleAreaIsShoelace(t: Triangle)
    ensures DoubleArea(t) == Cross(t.p1, t.p2) + Cross(t.p2, t.p3) + Cross(t.p3, t.p1)
  {
  }

  /** Rotating the points keeps the area; exchanging two of them negates it. */
  lemma OrientationSymmetries(a: Point, b: Point, c: Point)
    ensures DoubleArea(Triangle(b, c, a)) == DoubleArea(Triangle(a, b, c))
    ensures DoubleArea(Triangle(c, a, b)) == DoubleArea(Triangle(a, b, c))
    ensures DoubleArea(Triangle(b, a, c)) == -DoubleArea(Triangle(a, b, c))
    ensures DoubleArea(Triangle(a, c, b)) == -DoubleArea(Triangle(a, b, c))
    ensures DoubleArea(Triangle(c, b, a)) == -DoubleArea(Triangle(a, b, c))
    ensures AreaSign(Triangle(b, c, a)) == AreaSign(Triangle(a, b, c))
    ensures AreaSign(Triangle(b, a, c)) == -AreaSign(Triangle(a, b, c))
  {
  }

  /** A triangle with a repeated point is degenerate. */
  lemma RepeatedPointIsCollinear(a: Point, b: Point, c: Point)
    requires a == b || b == c || a == c
    ensures HasCollinearPoints(Triangle(a, b, c))
    ensures AreaSign(Triangle(a, b, c)) == 0
  {
  }

  /** The right triangle (0,0), (3,0), (0,4) has double area 12. */
  lemma RightTriangleArea()
    ensures DoubleArea(Triangle(Point(0, 0), Point(3, 0), Point(0, 4))) == 12
  {
  }

  /** With a = (0,0), b = (4,3), c = (1,3): the orderings a b c, b c a, c a b
      are counter-clockwise and a c b, c b a, b a c clockwise, so no ordering
      of the three distinct points is collinear (the orderings with a repeat
      are collinear by RepeatedPointIsCollinear). */
  lemma SignExamples(a: Point, b: Point, c: Point)
    requires a == Point(0, 0) && b == Point(4, 3) && c == Point(1, 3)
    ensures AreaSign(Triangle(a, b, c)) == 1 && AreaSign(Triangle(b, c, a)) == 1
    ensures AreaSign(Triangle(c, a, b)) == 1
    ensures AreaSign(Triangle(a, c, b)) == -1 && AreaSign(Triangle(c, b, a)) == -1
    ensures AreaSign(Triangle(b, a, c)) == -1
  {
    assert DoubleArea(Triangle(a, b, c)) == 9 && DoubleArea(Triangle(b, c, a)) == 9;
    assert DoubleArea(Triangle(c, a, b)) == 9 && DoubleArea(Triangle(a, c, b)) == -9;
    assert DoubleArea(Triangle(c, b, a)) == -9 && DoubleArea(Triangle(b, a, c)) == -9;
  }
}
