/** The polygon of computational_geometry/src/polygon.rs: a vertex map
    built once from the input points, the edge walk, the area computations
    and ear-removal triangulation. The polygon never changes its own map;
    triangulation works on a clone. */
module Polygons {
  import opened Wrappers
  import opened Points
  import opened Triangles
  import opened LineSegments
  import opened Vertices
  import opened Sums
  import opened ShoelaceFormula
  import opened Cycles
  import opened VertexMaps
  import opened Triangulations
  import opened PolygonGeometry

  class Polygon {
    const vertexMap: VertexMap

    ghost predicate Valid()
      reads this, vertexMap
    {
      vertexMap.Valid()
    }

    /** `Polygon::new`: the vertex map of the points, in their order. */
    constructor (points: seq<Point>)
      requires |points| <= U32_LIMIT
      ensures fresh(vertexMap)
      ensures vertexMap.entries == InitialMap(points) && vertexMap.cycle == IdRange(|points|)
      ensures Valid() && CycleCoords(vertexMap.entries, vertexMap.cycle) == points
    {
      vertexMap := new VertexMap(points);
    }

    /** `double_area`: the fan of triangles from the anchor over every edge,
        visited in whatever order the hash map yields the vertices. Equal to
        the shoelace double area of the ring whichever vertex is the anchor. */
    method DoubleArea() returns (area: int)
      requires Valid() && |vertexMap.entries| > 0
      ensures area == Shoelace(CycleCoords(vertexMap.entries, vertexMap.cycle))
    {
      ghost var m, c := vertexMap.entries, vertexMap.cycle;
      area := 0;
      var anchor := vertexMap.Anchor();
      var f := FanTerm(vertexMap.entries, anchor.coords);
      var rest := vertexMap.entries.Keys;
      while rest != {}
        invariant rest <= m.Keys
        invariant area + SetSum(rest, f) == SetSum(m.Keys, f)
        decreases rest
      {
        var k :| k in rest;
        var v1 := vertexMap.Get(k);
        var v2 := vertexMap.Get(v1.next);
        FanTermAt(m, anchor.coords, k, v1, v2);
        area := area + Triangles.DoubleArea(TriangleFromVertices(anchor, v1, v2));
        SetSumRemove(rest, f, k);
        rest := rest - {k};
      }
      FanSumIsShoelace(m, c, anchor.coords);
    }

    /** `double_area_from_triangulation`: the sum of the double areas of the
        coordinate triples of the triangulation, in any order. */
    method DoubleAreaFromTriangulation(triangulation: Triangulation) returns (area: int)
      requires forall t | t in triangulation.triangles :: HasIds(triangulation.vmap.entries, t)
      ensures area == SetSum(triangulation.ToPoints(), PtArea)
    {
      var points := triangulation.ToPoints();
      area := 0;
      var rest := points;
      while rest != {}
        invariant rest <= points
        invariant area + SetSum(rest, PtArea) == SetSum(points, PtArea)
        decreases rest
      {
        var q :| q in rest;
        area := area + PtArea(q);
        SetSumRemove(rest, PtArea, q);
        rest := rest - {q};
      }
    }

    /** `edges`: walk the next links from the anchor until it comes round
        again, recording each (id, next) pair; this is every edge. */
    method Edges() returns (edges: set<Edge>)
      requires Valid() && |vertexMap.entries| > 0
      ensures edges == EdgeSet(vertexMap.entries)
    {
      ghost var m, c := vertexMap.entries, vertexMap.cycle;
      ghost var n := |c|;
      var anchor := vertexMap.Anchor();
      var anchorId := anchor.id;
      var current := vertexMap.Get(anchorId);
      ghost var j0 := CycleIndex(m, c, anchorId);
      ghost var s := 0;
      edges := {};
      while true
        invariant 0 <= s < n
        invariant current == m[c[Wrap(j0 + s, n)]] && current.next in m
        invariant edges == WalkEdges(m, c, j0, s)
        decreases n - s
      {
        var next := vertexMap.Get(current.next);
        WalkAdvance(m, c, j0, s, current, edges, next);
        edges := edges + {(current.id, current.next)};
        current := next;
        if current.id == anchorId {
          return;
        }
        s := s + 1;
      }
    }

    /** `diagonal_internal_external`: no edge of the polygon that shares no
        endpoint with ab intersects it; stops at the first edge that does. */
    method DiagonalInternalExternal(a: Vertex, b: Vertex) returns (r: bool)
      requires Valid() && |vertexMap.entries| > 0
      ensures r == ClearOfEdges(vertexMap.entries, SegmentFromVertices(a, b))
    {
      ghost var m := vertexMap.entries;
      var ab := SegmentFromVertices(a, b);
      var edges := Edges();
      var rest := edges;
      while rest != {}
        invariant rest <= edges
        invariant forall e | e in edges - rest && e.0 in m && e.1 in m :: !CrossesEdge(m, e, ab)
        decreases rest
      {
        var e :| e in rest;
        EdgeSetMember(m, e);
        var v1 := vertexMap.Get(e.0);
        var v2 := vertexMap.Get(e.1);
        var seg := SegmentFromVertices(v1, v2);
        if !ConnectedTo(seg, ab) && Intersects(seg, ab) {
          return false;
        }
        rest := rest - {e};
      }
      return true;
    }

    /** `diagonal`: both cone tests, then the edge test. */
    method Diagonal(a: Vertex, b: Vertex) returns (r: bool)
      requires Valid() && |vertexMap.entries| > 0
      requires a.prev in vertexMap.entries && a.next in vertexMap.entries
      requires b.prev in vertexMap.entries && b.next in vertexMap.entries
      ensures r == IsDiagonal(vertexMap.entries, a, b)
    {
      r := InCone(vertexMap.entries, a, b) && InCone(vertexMap.entries, b, a);
      if r {
        r := DiagonalInternalExternal(a, b);
      }
    }

    /** `triangulation`: cut ears from a clone of the vertex map until three
        vertices remain, recording each ear's triangle, then record the last
        triangle. The source panics when no ear is found; here that outcome
        is the error. Every recorded triangle is new, so a ring of n >= 3
        vertices gives n - 2 triangles; every triangle but the last cuts
        along a diagonal; and the triangles' double areas add up to the
        shoelace double area of the polygon. */
    method Triangulate() returns (r: Result<Triangulation, EarNotFoundError>)
      requires Valid() && |vertexMap.entries| > 0
      ensures r.Ok? ==> fresh(r.value) && r.value.vmap == vertexMap
      ensures r.Ok? ==> forall t | t in r.value.triangles :: HasIds(vertexMap.entries, t)
      ensures r.Ok? ==> |r.value.triangles| == if |vertexMap.entries| >= 3 then |vertexMap.entries| - 2 else 1
      ensures r.Ok? ==> SetSum(r.value.triangles, TriArea(vertexMap.entries))
                          == Shoelace(CycleCoords(vertexMap.entries, vertexMap.cycle))
      ensures r.Ok? ==> exists last | last in r.value.triangles ::
                          forall t | t in r.value.triangles && t != last :: CutsDiagonal(vertexMap.entries, t)
      ensures r.Err? ==> |vertexMap.entries| > 3
    {
      ghost var m, c, n := vertexMap.entries, vertexMap.cycle, |vertexMap.entries|;
      ghost var total := Shoelace(CycleCoords(m, c));
      var triangulation := new Triangulation(vertexMap);
      var vmap := new VertexMap.Clone(vertexMap);
      while vmap.Len() > 3
        invariant fresh(vmap) && fresh(triangulation) && triangulation.vmap == vertexMap
        invariant vmap.Valid()
        invariant Progress(m, vmap.entries, vmap.cycle, triangulation.triangles, total)
        invariant |triangulation.triangles| + |vmap.entries| == n
        invariant |vmap.entries| >= if n >= 3 then 3 else n
        decreases |vmap.entries|
      {
        var ear := CutEar(vmap, triangulation, total);
        if ear.Err? {
          return Err(EarNotFoundError);
        }
      }
      var v := vmap.Anchor();
      ghost var j := CycleIndex(vmap.entries, vmap.cycle, v.id);
      LastTriangleStep(m, vmap.entries, vmap.cycle, j, v, triangulation.triangles, total);
      var _ := triangulation.Insert(TriangleVertexIds(v.prev, v.id, v.next));
      return Ok(triangulation);
    }

    /** One round of the loop of `triangulation`: find an ear of the working
        map, unlink it, and record its triangle (prev, ear, next) with the
        ear's links before the cut; the error, with nothing changed, when
        there is no ear (where the source panics). */
    method CutEar(vmap: VertexMap, triangulation: Triangulation, ghost total: int) returns (ear: Result<VertexId, EarNotFoundError>)
      requires Valid() && vmap.Valid() && vmap != vertexMap && |vmap.entries| > 3
      requires Progress(vertexMap.entries, vmap.entries, vmap.cycle, triangulation.triangles, total)
      modifies vmap, triangulation
      ensures ear.Ok? ==> && IsEar(vertexMap.entries, old(vmap.entries), ear.value)
                          && EarCut(old(vmap.entries), old(triangulation.triangles), ear.value,
                                    vmap.entries, triangulation.triangles)
      ensures ear.Ok? ==> && vmap.Valid()
                          && Progress(vertexMap.entries, vmap.entries, vmap.cycle, triangulation.triangles, total)
                          && |vmap.entries| == old(|vmap.entries|) - 1
                          && |triangulation.triangles| == old(|triangulation.triangles|) + 1
      ensures ear.Err? ==> && vmap.entries == old(vmap.entries) && vmap.cycle == old(vmap.cycle)
                           && triangulation.triangles == old(triangulation.triangles)
                           && forall k | k in vmap.entries :: !IsEar(vertexMap.entries, vmap.entries, k)
    {
      ghost var m := vertexMap.entries;
      ear := FindEar(vmap);
      if ear.Err? {
        return;
      }
      RecordEar(m, vmap, triangulation, ear.value, total);
    }

    /** `find_ear`: the first vertex of the working map, in hash order, whose
        current neighbours form a diagonal of the original polygon (this
        polygon), or the error when there is none. */
    method FindEar(vmap: VertexMap) returns (r: Result<VertexId, EarNotFoundError>)
      requires Valid() && vmap.Valid()
      requires vmap.entries.Keys <= vertexMap.entries.Keys
      ensures r.Ok? ==> r.value in vmap.entries && IsEar(vertexMap.entries, vmap.entries, r.value)
      ensures r.Err? ==> forall k | k in vmap.entries :: !IsEar(vertexMap.entries, vmap.entries, k)
    {
      ghost var m, w := vertexMap.entries, vmap.entries;
      var rest := vmap.entries.Keys;
      while rest != {}
        invariant rest <= w.Keys
        invariant forall k | k in w.Keys - rest :: !IsEar(m, w, k)
        decreases rest
      {
        var k :| k in rest;
        var v := vmap.Get(k);
        var isDiagonal := Diagonal(vertexMap.Get(v.prev), vertexMap.Get(v.next));
        if isDiagonal {
          return Ok(v.id);
        }
        rest := rest - {k};
      }
      return Err(EarNotFoundError);
    }
  }

  /** Cutting vertex id from the working map w with triangles ts gives w'
      and ts': both of id's neighbours are other stored vertices, w' is w
      with id unlinked, and ts' adds the triangle (prev, id, next) read from
      id's links in w. */
  ghost predicate EarCut(w: VMap, ts: set<TriangleVertexIds>, id: VertexId, w': VMap, ts': set<TriangleVertexIds>)
  {
    && id in w
    && w[id].prev in w && w[id].prev != id
    && w[id].next in w && w[id].next != id
    && w' == Unlink(w, id)
    && ts' == ts + {TriangleVertexIds(w[id].prev, id, w[id].next)}
  }

  /** The cut itself, for an ear id of the working map judged against the
      original map m: unlink it and record (prev, id, next). Progress is
      kept, the ring loses one vertex and the set gains one triangle. */
  method RecordEar(ghost m: VMap, vmap: VertexMap, triangulation: Triangulation, id: VertexId, ghost total: int)
    requires vmap.Valid() && |vmap.entries| > 3
    requires Progress(m, vmap.entries, vmap.cycle, triangulation.triangles, total)
    requires id in vmap.entries && IsEar(m, vmap.entries, id)
    modifies vmap, triangulation
    ensures vmap.Valid() && Progress(m, vmap.entries, vmap.cycle, triangulation.triangles, total)
    ensures |vmap.entries| == old(|vmap.entries|) - 1
    ensures |triangulation.triangles| == old(|triangulation.triangles|) + 1
    ensures EarCut(old(vmap.entries), old(triangulation.triangles), id, vmap.entries, triangulation.triangles)
  {
    ghost var w, wc, ts := vmap.entries, vmap.cycle, triangulation.triangles;
    ghost var j := CycleIndex(w, wc, id);
    CutEarProgress(m, w, wc, j, ts, total);
    var v := vmap.Remove(id);
    var _ := triangulation.Insert(TriangleVertexIds(v.prev, id, v.next));
  }

  /** The polygon tests of `test_edges`: a freshly built polygon of n points
      has exactly the edges (i, (i + 1) mod n), n of them. */
  method EdgesOfNewPolygon(points: seq<Point>) returns (edges: set<Edge>)
    requires 0 < |points| <= U32_LIMIT
    ensures edges == ExpectedEdges(|points|) && |edges| == |points|
  {
    var polygon := new Polygon(points);
    edges := polygon.Edges();
    InitialEdges(points);
  }

  /** The body of the polygon test `test_triangulation`: when no two
      vertices share coordinates, a triangulation in which every round
      finds an ear has n - 2 triangles (n >= 3), and the double area summed
      over their coordinate triples is the shoelace double area of the
      ring. */
  method CheckTriangulation(polygon: Polygon) returns (r: Result<(int, nat), EarNotFoundError>)
    requires polygon.Valid() && |polygon.vertexMap.entries| >= 3
    requires DistinctCoords(polygon.vertexMap.entries)
    ensures r.Ok? ==>
      && r.value.0 == Shoelace(CycleCoords(polygon.vertexMap.entries, polygon.vertexMap.cycle))
      && r.value.1 == |polygon.vertexMap.entries| - 2
    ensures r.Err? ==> |polygon.vertexMap.entries| > 3
  {
    var t := polygon.Triangulate();
    if t.Err? {
      return Err(t.error);
    }
    var fromTriangles := polygon.DoubleAreaFromTriangulation(t.value);
    PointsOfArea(polygon.vertexMap.entries, t.value.triangles);
    return Ok((fromTriangles, t.value.Len()));
  }

  /** The polygon tests `test_area` and `test_triangulation` together, for
      the polygon of n >= 3 distinct points: `double_area` is the shoelace
      double area of the points, in their order, and a triangulation in
      which every round finds an ear has n - 2 triangles whose double areas
      add up to that same value. */
  method TriangulationMatchesArea(points: seq<Point>) returns (r: Result<(int, int, nat), EarNotFoundError>)
    requires 3 <= |points| <= U32_LIMIT && Distinct(points)
    ensures r.Ok? ==> var (area, fromTriangles, count) := r.value;
      area == Shoelace(points) && fromTriangles == area && count == |points| - 2
    ensures r.Err? ==> |points| > 3
  {
    var polygon := new Polygon(points);
    InitialSize(points);
    InitialDistinctCoords(points);
    var area := polygon.DoubleArea();
    var t := CheckTriangulation(polygon);
    if t.Err? {
      return Err(t.error);
    }
    return Ok((area, t.value.0, t.value.1));
  }
}
