/** The older polygon of src/polygon.rs: a growable list of legacy
    vertices, its edges as the consecutive pairs of that list (no closing
    edge), and a fan double area anchored at the first vertex. */
module LegacyPolygons {
  import opened Points
  import Triangles
  import opened ShoelaceFormula
  import opened LegacyTriangles
  import opened LegacyLineSegments

  /** The points the vertices stand at, in order. */
  function CoordsOf(vs: seq<LegacyVertex>): (ps: seq<Point>)
    ensures |ps| == |vs|
    ensures forall i | 0 <= i < |vs| :: ps[i] == Coords(vs[i])
  {
    seq(|vs|, i requires 0 <= i < |vs| => Coords(vs[i]))
  }

  /** Adding the next triangle of a fan at the end of the walk. */
  lemma {:induction false} FanChainSnoc(a: Point, ps: seq<Point>, i: nat)
    requires i + 1 < |ps|
    ensures FanChain(a, ps[..i + 2]) == FanChain(a, ps[..i + 1]) + Triangles.DoubleArea(Triangles.Triangle(a, ps[i], ps[i + 1]))
  {
    if i > 0 {
      FanChainSnoc(a, ps[1..], i - 1);
      assert ps[..i + 2][1..] == ps[1..][..i + 1];
      assert ps[..i + 1][1..] == ps[1..][..i];
    }
  }

  class LegacyPolygon {
    var vertices: seq<LegacyVertex>

    /** `new`: no vertices. */
    constructor ()
      ensures vertices == []
    {
      vertices := [];
    }

    /** `add_vertex`: append at the end; the earlier vertices keep their
        order. */
    method AddVertex(v: LegacyVertex)
      modifies this
      ensures vertices == old(vertices) + [v]
    {
      vertices := vertices + [v];
    }

    /** `edges`: the n - 1 windows (v_i, v_i+1) of the vertex list; there is
        no closing edge from the last vertex back to the first. */
    function Edges(): (es: seq<LegacySegment>)
      reads this
      ensures |es| == if |vertices| == 0 then 0 else |vertices| - 1
      ensures forall i | 0 <= i < |es| :: es[i] == LegacySegment(vertices[i], vertices[i + 1])
      ensures forall i | 0 < i < |es| :: es[i].a == es[i - 1].b
    {
      var vs := vertices;
      if |vs| == 0 then []
      else seq(|vs| - 1, i requires 0 <= i < |vs| - 1 => LegacySegment(vs[i], vs[i + 1]))
    }

    /** `double_area`: the triangles from the first vertex over every edge.
        Without the closing edge this is still the shoelace double area of
        the closed polygon, because the missing triangle (v0, v_n-1, v0) is
        degenerate. Indexing the first vertex panics on an empty polygon. */
    method DoubleArea() returns (area: int)
      requires |vertices| > 0
      ensures area == Shoelace(CoordsOf(vertices))
    {
      var anchor := vertices[0];
      var edges := Edges();
      ghost var ps := CoordsOf(vertices);
      area := 0;
      for i := 0 to |edges|
        invariant area == FanChain(ps[0], ps[..i + 1])
      {
        var e := edges[i];
        FanChainSnoc(ps[0], ps, i);
        area := area + LegacyTriangles.DoubleArea(LegacyTriangle(anchor, e.a, e.b));
      }
      assert ps[..|edges| + 1] == ps;
      OpenFanIsShoelace(ps);
    }
  }

  /** A polygon built by adding three vertices has the double area of
      their triangle. */
  method TrianglePolygon(a: LegacyVertex, b: LegacyVertex, c: LegacyVertex) returns (area: int)
    ensures area == LegacyTriangles.DoubleArea(LegacyTriangle(a, b, c))
  {
    var polygon := new LegacyPolygon();
    polygon.AddVertex(a);
    polygon.AddVertex(b);
    polygon.AddVertex(c);
    area := polygon.DoubleArea();
    SmallWalkIsTriangle(CoordsOf(polygon.vertices), 1);
  }

  /** The unit test: adding (0,0), (3,0), (0,4) in turn gives double area
      12. */
  method RightTrianglePolygon(a: LegacyVertex, b: LegacyVertex, c: LegacyVertex) returns (area: int)
    requires Coords(a) == Point(0, 0) && Coords(b) == Point(3, 0) && Coords(c) == Point(0, 4)
    ensures area == 12
  {
    area := TrianglePolygon(a, b, c);
  }
}
