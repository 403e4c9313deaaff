/** The older triangle of src/triangle.rs, over the vertices of
    src/vertex.rs: integer coordinates plus a sequence number. The number
    comes from a global id generator in the source; here it is whatever the
    caller supplies. The area formula is the same as the newer kernel's, and
    the contracts below say so. */
module LegacyTriangles {
  import opened Points
  import Triangles

  /** `Vertex` of src/vertex.rs: coordinates and the generated index. */
  datatype LegacyVertex = LegacyVertex(x: int, y: int, index: int)

  datatype LegacyTriangle = LegacyTriangle(a: LegacyVertex, b: LegacyVertex, c: LegacyVertex)

  /** The point a legacy vertex stands at. */
  function Coords(v: LegacyVertex): Point
  {
    Point(v.x, v.y)
  }

  /** The kernel triangle with the same corners. */
  function AsTriangle(t: LegacyTriangle): Triangles.Triangle
  {
    Triangles.Triangle(Coords(t.a), Coords(t.b), Coords(t.c))
  }

  /** `double_area`: the cross product of the edge vectors a->b and a->c,
      which is the newer kernel's double area of the same three points. */
  function DoubleArea(t: LegacyTriangle): (r: int)
    ensures r == Triangles.DoubleArea(AsTriangle(t))
  {
    var t1 := (t.b.x - t.a.x) * (t.c.y - t.a.y);
    var t2 := (t.c.x - t.a.x) * (t.b.y - t.a.y);
    t1 - t2
  }

  /** `area_sign`: the sign of the double area, as `i32::signum`. */
  function AreaSign(t: LegacyTriangle): (r: int)
    ensures r == -1 || r == 0 || r == 1
    ensures (r == 1 <==> DoubleArea(t) > 0) && (r == -1 <==> DoubleArea(t) < 0)
    ensures r == Triangles.AreaSign(AsTriangle(t))
  {
    Triangles.Signum(DoubleArea(t))
  }

  /** The collinearity test that src/line_segment.rs asks of this triangle
      (not itself defined in src/triangle.rs): a zero area sign. */
  function HasCollinearPoints(t: LegacyTriangle): (r: bool)
    ensures r <==> DoubleArea(t) == 0
    ensures r <==> AreaSign(t) == 0
  {
    Triangles.HasCollinearPoints(AsTriangle(t))
  }

  /** Rotating the vertices keeps the sign; exchanging two of them flips it. */
  lemma AreaSignSymmetries(a: LegacyVertex, b: LegacyVertex, c: LegacyVertex)
    ensures AreaSign(LegacyTriangle(b, c, a)) == AreaSign(LegacyTriangle(a, b, c))
    ensures AreaSign(LegacyTriangle(c, a, b)) == AreaSign(LegacyTriangle(a, b, c))
    ensures AreaSign(LegacyTriangle(b, a, c)) == -AreaSign(LegacyTriangle(a, b, c))
    ensures AreaSign(LegacyTriangle(a, c, b)) == -AreaSign(LegacyTriangle(a, b, c))
    ensures AreaSign(LegacyTriangle(c, b, a)) == -AreaSign(LegacyTriangle(a, b, c))
  {
    Triangles.OrientationSymmetries(Coords(a), Coords(b), Coords(c));
  }

  /** Any triangle that repeats a vertex has area sign 0: the 21 orderings
      of `test_area_sign_collinear` are all of this kind. */
  lemma RepeatedVertexSign(a: LegacyVertex, b: LegacyVertex, c: LegacyVertex)
    requires a == b || b == c || a == c
    ensures AreaSign(LegacyTriangle(a, b, c)) == 0
  {
    Triangles.RepeatedPointIsCollinear(Coords(a), Coords(b), Coords(c));
  }

  /** The unit tests: the right triangle (0,0), (3,0), (0,4) has double
      area 12; with a = (0,0), b = (4,3), c = (1,3) the three rotations of
      a b c have sign +1 and the three of a c b have sign -1, whatever
      indices the vertices carry. */
  lemma UnitTests(a: LegacyVertex, b: LegacyVertex, c: LegacyVertex, d: LegacyVertex, e: LegacyVertex)
    requires Coords(a) == Point(0, 0) && Coords(b) == Point(4, 3) && Coords(c) == Point(1, 3)
    requires Coords(d) == Point(3, 0) && Coords(e) == Point(0, 4)
    ensures DoubleArea(LegacyTriangle(a, d, e)) == 12
    ensures AreaSign(LegacyTriangle(a, b, c)) == 1 && AreaSign(LegacyTriangle(b, c, a)) == 1
    ensures AreaSign(LegacyTriangle(c, a, b)) == 1
    ensures AreaSign(LegacyTriangle(a, c, b)) == -1 && AreaSign(LegacyTriangle(c, b, a)) == -1
    ensures AreaSign(LegacyTriangle(b, a, c)) == -1
  {
    assert DoubleArea(LegacyTriangle(a, b, c)) == 9;
    AreaSignSymmetries(a, b, c);
  }
}
