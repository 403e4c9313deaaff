/** Vertex ids and vertices of a polygon (computational_geometry/src/vertex.rs).
    A vertex carries its coordinates, its own id and the ids of its neighbours
    on the polygon's boundary. */
module Vertices {
  import opened Wrappers
  import opened Points
  import opened Triangles
  import opened LineSegments

  /** Number of values of an unsigned 32-bit integer. */
  const U32_LIMIT: int := 0x1_0000_0000

  type U32 = x: int | 0 <= x < 0x1_0000_0000

  /** A vertex id wraps a `u32`; ids are ordered by that value. */
  datatype VertexId = VertexId(raw: U32)

  /** `VertexId::from(u32)`: the value is kept unchanged. */
  function FromU32(raw: U32): (r: VertexId)
    ensures r.raw == raw
  {
    VertexId(raw)
  }

  /** `VertexId::from(usize)`: `None` stands for the panic of the failed
      conversion to `u32`. */
  function FromUsize(raw: nat): (r: Option<VertexId>)
    ensures r.Some? <==> raw < U32_LIMIT
    ensures r.Some? ==> r.value.raw == raw
  {
    if raw < U32_LIMIT then Some(FromU32(raw)) else None
  }

  /** The derived ordering of ids. */
  predicate IdLess(a: VertexId, b: VertexId)
  {
    a.raw < b.raw
  }

  /** Conversion from `u32` is injective and order-preserving, and the order
      on ids is a strict total order. */
  lemma IdOrder(a: U32, b: U32, i: VertexId, j: VertexId, k: VertexId)
    ensures FromU32(a) == FromU32(b) <==> a == b
    ensures IdLess(FromU32(a), FromU32(b)) <==> a < b
    ensures !IdLess(i, i)
    ensures IdLess(i, j) && IdLess(j, k) ==> IdLess(i, k)
    ensures i == j || IdLess(i, j) || IdLess(j, i)
  {
  }

  /** `Vertex::new` is the datatype constructor: it stores its four
      arguments unchanged. */
  datatype Vertex = Vertex(coords: Point, id: VertexId, prev: VertexId, next: VertexId)

  /** `Vertex::between`: v lies on the segment between a and b, which needs
      the three vertices collinear and a, b at different coordinates. */
  function VertexBetween(v: Vertex, a: Vertex, b: Vertex): (r: bool)
    ensures r ==> HasCollinearPoints(TriangleFromVertices(a, b, v)) && a.coords != b.coords
  {
    Between(v.coords, a.coords, b.coords)
  }

  /** `Vertex::left`: the triangle from ab to v is counter-clockwise. */
  function VertexLeft(v: Vertex, ab: LineSegment): (r: bool)
    ensures r <==> AreaSign(Triangle(ab.p1, ab.p2, v.coords)) == 1
  {
    Left(v.coords, ab)
  }

  /** `Vertex::left_on`: v is not strictly left of the reversed segment. */
  function VertexLeftOn(v: Vertex, ab: LineSegment): (r: bool)
    ensures r <==> AreaSign(Triangle(ab.p1, ab.p2, v.coords)) >= 0
    ensures r <==> !VertexLeft(v, Reverse(ab))
  {
    LeftOn(v.coords, ab)
  }

  /** `LineSegment::from_vertices`: the segment between the coordinates. */
  function SegmentFromVertices(v1: Vertex, v2: Vertex): (r: LineSegment)
    ensures r.p1 == v1.coords && r.p2 == v2.coords
  {
    LineSegment(v1.coords, v2.coords)
  }

  /** `Triangle::from_vertices`: the triangle over the coordinates, in order. */
  function TriangleFromVertices(v1: Vertex, v2: Vertex, v3: Vertex): (r: Triangle)
    ensures r.p1 == v1.coords && r.p2 == v2.coords && r.p3 == v3.coords
  {
    Triangle(v1.coords, v2.coords, v3.coords)
  }

  /** The vertex tests are orientation tests of the triangle the vertices
      span: v is left of the segment from a to b exactly when a, b, v turn
      counter-clockwise, left or on it exactly when they do not turn
      clockwise, and between a and b only when the triangle is flat. */
  lemma VertexTestsAreOrientations(v: Vertex, a: Vertex, b: Vertex)
    ensures VertexLeft(v, SegmentFromVertices(a, b)) <==> AreaSign(TriangleFromVertices(a, b, v)) == 1
    ensures VertexLeftOn(v, SegmentFromVertices(a, b)) <==> AreaSign(TriangleFromVertices(a, b, v)) >= 0
    ensures VertexLeftOn(v, SegmentFromVertices(a, b)) <==> !VertexLeft(v, SegmentFromVertices(b, a))
    ensures VertexBetween(v, a, b) ==> AreaSign(TriangleFromVertices(a, b, v)) == 0
    ensures VertexLeft(v, SegmentFromVertices(a, b)) <==> VertexLeft(a, SegmentFromVertices(b, v))
  {
    OrientationSymmetries(a.coords, b.coords, v.coords);
  }

  /** The source's test: a triangle built from three linked vertices takes
      their coordinates in argument order, and its double area is 12. */
  lemma FromVerticesExample()
    ensures var id1, id2, id3 := FromU32(1), FromU32(2), FromU32(3);
      var v1 := Vertex(Point(0, 0), id1, id3, id2);
      var v2 := Vertex(Point(3, 0), id2, id1, id3);
      var v3 := Vertex(Point(0, 4), id3, id2, id1);
      var t := TriangleFromVertices(v1, v2, v3);
      t.p1 == Point(0, 0) && t.p2 == Point(3, 0) && t.p3 == Point(0, 4) && DoubleArea(t) == 12
  {
  }
}
