# geometer polygon kernel in Dafny

A verified model of the exact-integer polygon kernel of geometer (the
`computational_geometry` crate) and of the older pieces under `src/`.

- **Area-sign predicates.** The signed double area of a triangle, its sign,
  collinearity, the `between`/`left`/`left_on` point tests and the proper,
  improper and combined segment intersection tests.
- **The vertex map.** A keyed ring of vertices linked by `prev`/`next`. It
  is a class whose `entries` map is updated in place by `remove`,
  `update_next` and `update_prev`. A ghost `cycle` sequence lists the ring
  order, and `Valid()` states that the links form one cycle through all
  stored vertices.
- **Ear-removal triangulation.** `Polygon.Triangulate` clones the vertex
  map and cuts one ear per round. Each cut records `(prev, id, next)` in a
  `Triangulation` set, until three vertices are left. The proofs show:
  - exactly n - 2 triangles, whichever ears the hash order picks;
  - the polygon's own map is untouched;
  - every triangle names vertices of the polygon, and all but one of them
    cut along a diagonal;
  - area conservation: the triangles' double areas add up to the shoelace
    double area of the polygon.
- **`double_area`.** From any anchor, it is the shoelace sum.
- **`edges`.** It returns exactly the set of ring links.
- **The older `src/` modules**, each expressed through the newer kernel:
  - triangle, segment and polygon;
  - the `Geometry` trait defaults (min/max folds, eight extreme-vertex
    selectors with their stable tie-break, counts, neighbour ids);
  - the `Stack`;
  - the insertion-ordered and hashed vertex containers, with `from_str`.

Every member in the table below carries a contract. Functions are pure;
the methods that mutate (`VertexMap`, `Triangulation`, `LegacyPolygon`,
`Stack`) are proved against specification functions
(`InitialMap`, `Unlink`, `EdgeSet`, `Shoelace`, `SetSum`, ...), and the
properties of those functions are proved as lemmas. `Polygon` changes
nothing: `Triangulate` works on a fresh clone of the map and a fresh
`Triangulation`.

Files:

- `wrappers.dfy`: Option/Result.
- `point.dfy`: Points.
- `triangle.dfy`: Triangles.
- `line_segment.dfy`: LineSegments.
- `vertex.dfy`: Vertices.
- `sums.dfy`: Sums.
- `shoelace.dfy`: ShoelaceFormula.
- `cycles.dfy`: Cycles.
- `vertex_map.dfy`: VertexMaps.
- `triangulation.dfy`: Triangulations.
- `polygon_geometry.dfy`: PolygonGeometry.
- `polygon.dfy`: Polygons.
- `legacy_triangle.dfy`: LegacyTriangles.
- `legacy_line_segment.dfy`: LegacyLineSegments.
- `legacy_polygon.dfy`: LegacyPolygons.
- `geometry.dfy`: Geometry.
- `stack.dfy`: Stacks.
- `named_vertex_map.dfy`: NamedVertexMaps.

Differences between the files' own declarations, and what the model does:

- **Coordinates are `int`.** The newer `Point` declares `f64` fields, yet
  `double_area` returns `i32` and every test builds integer points. The
  model uses exact unbounded integers.
- **`left`/`left_on`** call an `area()` that is not part of this model.
  They are modelled with the sign of the triangle double area.
- **`has_collinear_points`.** src/line_segment.rs calls it, but
  src/triangle.rs does not define it. It is modelled as `area_sign == 0`.
- **Vertex types in `src/`.** src/geometry.rs reads f64 `x`/`y` and `id`
  on its vertices. src/triangulation.rs reads `coords`. src/vertex.rs
  declares neither shape. Both are modelled over the newer kernel's
  `Vertex`, with `x`/`y` read as `coords.x`/`coords.y`. src/vertex_map.rs
  and src/vertex_set.rs use a vertex with a string `id`, modelled as
  `NamedVertex`.
- **The older `LineSegment`.** src/line_segment.rs declares fields `a`/`b`
  and no `new`. Yet src/polygon.rs reads `e.v1`/`e.v2` and calls
  `LineSegment::new`, and src/vertex_map.rs calls `LineSegment::new` on
  string-id vertices. The model reads each of these as the segment between
  the two vertices given, in order: `LegacyPolygon.Edges` and
  `NamedVertexMaps.GetLineSegment` (which returns a `NamedSegment`).

## Model

| member | source | states |
|---|---|---|
| Triangles.DoubleArea | computational_geometry/src/triangle.rs:25-31 | zero whenever two points coincide; equal to the shoelace sum by DoubleAreaIsShoelace, with its rotation and swap behaviour in OrientationSymmetries |
| Triangles.Signum | computational_geometry/src/triangle.rs:33-35 | the result is -1, 0 or 1, and +1 / -1 exactly for positive / negative input |
| Triangles.AreaSign | computational_geometry/src/triangle.rs:33-35 | `area_sign` is in {-1,0,1}; +1 iff the double area is positive, -1 iff negative |
| Triangles.HasCollinearPoints | computational_geometry/src/triangle.rs:37-39 | collinear iff the double area (equivalently the area sign) is 0 |
| Triangles.DoubleAreaIsShoelace | computational_geometry/src/triangle.rs:25-31 | the edge-vector formula equals the shoelace sum of the closed walk p1 p2 p3 |
| Triangles.OrientationSymmetries | computational_geometry/src/triangle.rs:75-105 | rotating the points keeps area and sign; swapping two negates both |
| Triangles.RepeatedPointIsCollinear | computational_geometry/src/triangle.rs:107-135 | any triangle with a repeated point is collinear with sign 0 |
| Triangles.RightTriangleArea | computational_geometry/src/triangle.rs:63-71 | (0,0), (3,0), (0,4) has double area 12 |
| Triangles.SignExamples | computational_geometry/src/triangle.rs:75-105 | the three counter-clockwise orderings of the test points give +1, the three clockwise ones -1 |
| LineSegments.Reverse | computational_geometry/src/line_segment.rs:23-25 | the endpoints swap and the vertical and horizontal tests are kept; an involution by ReverseProperties |
| LineSegments.IsVertical | computational_geometry/src/line_segment.rs:27-29 | vertical iff p1, p2 and the point one unit above p1 are collinear |
| LineSegments.IsHorizontal | computational_geometry/src/line_segment.rs:31-33 | horizontal iff p1, p2 and the point one unit right of p1 are collinear |
| LineSegments.Left | computational_geometry/src/point.rs:34-36 | left iff the triangle a b p has area sign +1 |
| LineSegments.LeftOn | computational_geometry/src/point.rs:38-40 | left-on iff the area sign is not -1, iff p is not strictly left of the reversed segment |
| LineSegments.Between | computational_geometry/src/point.rs:21-32 | only for collinear points and a != b; the full characterisation is BetweenIsOnSegment / InteriorIsBetween |
| LineSegments.ProperIntersects | computational_geometry/src/line_segment.rs:35-60 | a proper crossing has each segment's endpoints on different sides of the other and no collinear triple; the converse is ProperIntersectsIff |
| LineSegments.ImproperIntersects | computational_geometry/src/line_segment.rs:62-69 | an improper touch needs a collinear triple and is never a proper crossing |
| LineSegments.Intersects | computational_geometry/src/line_segment.rs:71-73 | meeting means exactly one of proper and improper intersection |
| LineSegments.IncidentTo | computational_geometry/src/line_segment.rs:79-81 | an incident point is collinear with the segment |
| LineSegments.ConnectedTo | computational_geometry/src/line_segment.rs:75-77 | a connected segment has an endpoint collinear with this one; the iff is ConnectedToSymmetric |
| LineSegments.ReverseProperties | computational_geometry/src/line_segment.rs:23-33 | reverse swaps the endpoints and is an involution; vertical/horizontal survive reversal; both at once iff the endpoints coincide |
| LineSegments.SidesOfALine | computational_geometry/src/point.rs:34-40 | `left` implies `left_on`; not `left_on` iff strictly left of the reversed segment; both `left_on` iff collinear |
| LineSegments.BetweenIsOnSegment | computational_geometry/src/point.rs:21-32 | a point `between` a and b lies on the closed segment, a != b, and it is never the endpoint with the larger compared coordinate (half-open test) |
| LineSegments.InteriorIsBetween | computational_geometry/src/point.rs:21-32 | every point of the closed segment other than its endpoints is `between` them |
| LineSegments.BetweenBasics | computational_geometry/src/point.rs:21-32 | `between` is symmetric in a, b, needs collinearity, and is false when a == b |
| LineSegments.BetweenExamples | computational_geometry/src/point.rs:88-114 | the diagonal and vertical cases of the source's tests |
| LineSegments.ProperIntersectsIff | computational_geometry/src/line_segment.rs:35-60 | proper intersection iff each segment has the other's endpoints strictly on opposite sides; false whenever a triple is collinear |
| LineSegments.ProperIntersectsSymmetries | computational_geometry/src/line_segment.rs:35-60 | symmetric in the two segments and unchanged by reversing either |
| LineSegments.ImproperIntersectsProperties | computational_geometry/src/line_segment.rs:62-69 | improper intersection is symmetric, direction-blind, puts an endpoint between the other segment's, and excludes a proper one |
| LineSegments.IntersectsProperties | computational_geometry/src/line_segment.rs:71-73 | `intersects` is symmetric and direction-blind; a non-degenerate segment meets itself improperly, not properly |
| LineSegments.ConnectedToSymmetric | computational_geometry/src/line_segment.rs:75-81 | connected iff an endpoint is shared, hence symmetric and direction-blind |
| LineSegments.IntersectionExamples | computational_geometry/src/line_segment.rs:119-182 | the source's four tests: a proper crossing, an improper touch, disjoint segments (each checked both ways round), and a segment meeting itself improperly but not properly |
| Vertices.FromU32 | computational_geometry/src/vertex.rs:11-13 | the u32 is kept; injective and order-preserving by IdOrder |
| Vertices.FromUsize | computational_geometry/src/vertex.rs:16-20 | the conversion succeeds iff the value fits in u32, and keeps it |
| Vertices.IdOrder | computational_geometry/src/vertex.rs:7-14 | `from(u32)` is injective and order-preserving; the derived id order is a strict total order |
| Vertices.VertexBetween | computational_geometry/src/vertex.rs:36-38 | only when the triangle a b v is flat and a, b have different coordinates |
| Vertices.VertexLeft | computational_geometry/src/vertex.rs:40-42 | iff the triangle from ab to v has area sign +1 |
| Vertices.VertexLeftOn | computational_geometry/src/vertex.rs:44-46 | iff that area sign is not -1, iff v is not left of the reversed segment |
| Vertices.SegmentFromVertices | computational_geometry/src/line_segment.rs:19-21 | the segment from the first vertex's coordinates to the second's |
| Vertices.TriangleFromVertices | computational_geometry/src/triangle.rs:21-23 | the triangle over the three coordinates in argument order |
| Vertices.VertexTestsAreOrientations | computational_geometry/src/vertex.rs:36-46 | for vertices a, b, v: `v.left(ab)` iff a b v turn counter-clockwise, `left_on` iff they do not turn clockwise, iff v is not left of ba; `between` only for a flat triangle; `left` is invariant under rotating the three |
| Vertices.FromVerticesExample | computational_geometry/src/triangle.rs:49-61 | a triangle from three linked vertices takes their coordinates in order; double area 12 |
| VertexMaps.InitialMap | computational_geometry/src/vertex_map.rs:13-35 | the map of `new`: every key is an id below n, stored with its initial vertex (InitialVertex, InitialIsCycle, InitialSize, LinkPoints) |
| VertexMaps.InitialVertex | computational_geometry/src/vertex_map.rs:13-35 | vertex i of `new` holds point i, id i, prev (i-1) mod n, next (i+1) mod n |
| VertexMaps.InitialIsCycle | computational_geometry/src/vertex_map.rs:13-35 | the links of `new(points)` form one cycle 0, 1, ..., n-1 whose coordinates are the points |
| VertexMaps.InitialSize | computational_geometry/src/vertex_map.rs:45-47 | `new` of n points holds n vertices |
| VertexMaps.LinkPoints | computational_geometry/src/vertex_map.rs:13-35 | the loop of `new` builds exactly the initial map |
| VertexMaps.Unlink | computational_geometry/src/vertex_map.rs:53-58 | k is removed and its two neighbours are linked to each other; the rest is UnlinkSpec / UnlinkKeepsCycle |
| VertexMaps.UnlinkSpec | computational_geometry/src/vertex_map.rs:53-58 | after removing k: one key fewer, prev(k).next = next(k), next(k).prev = prev(k), every other entry and all coordinates unchanged |
| VertexMaps.UnlinkKeepsCycle | computational_geometry/src/vertex_map.rs:53-58 | removing a vertex of a cycle of two or more leaves a cycle through the rest, in order |
| VertexMaps.VertexMap.constructor | computational_geometry/src/vertex_map.rs:13-35 | `new` stores the initial map, valid, whose ring coordinates are the points |
| VertexMaps.VertexMap.Clone | computational_geometry/src/polygon.rs:118 | the clone holds the same entries and ring |
| VertexMaps.VertexMap.Get | computational_geometry/src/vertex_map.rs:37-39 | a present key (absent keys panic) gives exactly the stored vertex, which carries that id and has present neighbours |
| VertexMaps.VertexMap.Len | computational_geometry/src/vertex_map.rs:45-47 | the number of stored vertices, which is the ring length |
| VertexMaps.VertexMap.IsEmpty | computational_geometry/src/vertex_map.rs:49-51 | empty iff `len` is 0, iff the ring is empty |
| VertexMaps.VertexMap.UpdateNext | computational_geometry/src/vertex_map.rs:86-88 | only the `next` field of vertex k changes |
| VertexMaps.VertexMap.UpdatePrev | computational_geometry/src/vertex_map.rs:90-92 | only the `prev` field of vertex k changes |
| VertexMaps.VertexMap.Remove | computational_geometry/src/vertex_map.rs:53-58 | returns the removed vertex; the map becomes `Unlink`; len drops by 1; the ring loses k and stays one cycle |
| VertexMaps.VertexMap.SortedVertices | computational_geometry/src/vertex_map.rs:64-69 | every stored vertex exactly once, in strictly increasing id order |
| VertexMaps.VertexMap.SortedPoints | computational_geometry/src/vertex_map.rs:71-76 | the coordinates of the vertices in increasing id order |
| VertexMaps.VertexMap.Anchor | computational_geometry/src/vertex_map.rs:78-84 | some stored vertex (any hash order), with present neighbours |
| VertexMaps.SortedPointsRoundTrip | computational_geometry/src/vertex_map.rs:64-76 | `sorted_points(new(points)) == points` |
| Triangulations.Triangulation.constructor | computational_geometry/src/triangulation.rs:24-26 | a new triangulation is empty, over the given map |
| Triangulations.Triangulation.Insert | computational_geometry/src/triangulation.rs:28-30 | set insertion; true iff the triple was new; the size grows by exactly that |
| Triangulations.Triangulation.Len | computational_geometry/src/triangulation.rs:36-38 | the number of distinct triples |
| Triangulations.Triangulation.IsEmpty | src/triangulation.rs:43-45 | empty iff `len` is 0 |
| Triangulations.Triangulation.ToPoints | computational_geometry/src/triangulation.rs:40-49 | the set of coordinate triples of the stored triples: at most `len` of them, exactly `len` when coordinates are distinct |
| Triangulations.Triangulation.ToPointList | src/triangulation.rs:47-56 | one coordinate triple per stored triangle, in some order; length equals `len` |
| Triangulations.TriplesAreOrdered | computational_geometry/src/triangulation.rs:14-15 | triples compare as ordered tuples: (a,b,c) != (b,c,a) |
| Triangulations.PointsOfArea | computational_geometry/src/polygon.rs:103-114 | with distinct coordinates, summing over coordinate triples equals summing over id triples |
| ShoelaceFormula.FanIsShoelace | computational_geometry/src/polygon.rs:88-101 | the fan of triangles from any anchor point sums to the shoelace double area |
| ShoelaceFormula.RemoveVertexArea | computational_geometry/src/polygon.rs:120-126 | cutting a vertex from a closed walk removes exactly its triangle's double area |
| PolygonGeometry.EdgeSet | computational_geometry/src/polygon.rs:153-166 | one directed edge per stored vertex; membership in EdgeSetMember |
| PolygonGeometry.EdgeSetMember | computational_geometry/src/polygon.rs:153-166 | an edge is a stored id paired with its stored successor |
| PolygonGeometry.InitialEdges | computational_geometry/src/polygon.rs:296-306 | the edges of a new polygon are exactly (i, (i+1) mod n), n of them |
| PolygonGeometry.InCone | computational_geometry/src/polygon.rs:168-180 | a point at the apex's own coordinates is never in the cone; the two branches are spelled out in InConeMeaning |
| PolygonGeometry.InConeMeaning | computational_geometry/src/polygon.rs:168-180 | the convex and reflex cases of the cone test as left / left-on conditions on the original neighbours |
| PolygonGeometry.InConeExcludesApex | computational_geometry/src/polygon.rs:168-180 | no point at the apex lies in its own cone |
| PolygonGeometry.IsDiagonal | computational_geometry/src/polygon.rs:182-184 | a diagonal joins two different points; symmetry in DiagonalProperties |
| PolygonGeometry.ClearOfEdges | computational_geometry/src/polygon.rs:186-195 | no edge crosses ab, stated equivalently over every vertex and its successor |
| PolygonGeometry.DiagonalProperties | computational_geometry/src/polygon.rs:182-184 | a diagonal is symmetric in its endpoints and joins distinct points |
| PolygonGeometry.ClearOfEdgesReverse | computational_geometry/src/polygon.rs:186-195 | the edge test does not depend on the segment's direction |
| PolygonGeometry.FanSumIsShoelace | computational_geometry/src/polygon.rs:88-101 | the fan over all vertices, in any order and from any anchor, is the shoelace double area of the ring |
| PolygonGeometry.CutEarProgress | computational_geometry/src/polygon.rs:120-126 | cutting an ear records a new triangle of original ids, keeps the triangle sum plus remaining shoelace area constant |
| PolygonGeometry.LastTriangleStep | computational_geometry/src/polygon.rs:128-129 | the final anchor triangle is new and completes the sum to the polygon's double area |
| PolygonGeometry.WalkAdvance | computational_geometry/src/polygon.rs:153-166 | one step of the `edges` walk records the current link; after n steps it is back at the start with every edge |
| Polygons.Polygon.constructor | computational_geometry/src/polygon.rs:75-78 | the polygon's vertex map is `VertexMap::new(points)`, a valid ring over the points in order |
| Polygons.Polygon.DoubleArea | computational_geometry/src/polygon.rs:88-101 | `double_area` is the shoelace double area of the ring, whichever anchor the hash order gives |
| Polygons.Polygon.DoubleAreaFromTriangulation | computational_geometry/src/polygon.rs:103-114 | the sum of the double areas of the triangulation's coordinate triples |
| Polygons.Polygon.Edges | computational_geometry/src/polygon.rs:153-166 | the walk from the anchor returns exactly the set of ring links |
| Polygons.Polygon.DiagonalInternalExternal | computational_geometry/src/polygon.rs:186-195 | true iff no original edge that shares no endpoint with ab intersects it |
| Polygons.Polygon.Diagonal | computational_geometry/src/polygon.rs:182-184 | both cone tests and the edge test |
| Polygons.Polygon.CutEar | computational_geometry/src/polygon.rs:120-126 | one loop round: on success it returns an ear of the working map, whose neighbours before the cut are other stored vertices; the entries become Unlink(old, ear) and the set gains exactly (old prev, ear, old next) (EarCut); the map stays Valid and Progress (triangle sum plus remaining area constant) holds. On failure no working vertex is an ear, and the map, the ring and the set are unchanged |
| Polygons.RecordEar | computational_geometry/src/polygon.rs:124-125 | the cut of ear id: its neighbours are other stored vertices; the entries become Unlink(old, id) and the set becomes old + {(old prev, id, old next)} (EarCut); Progress holds, the ring shrinks by one and the set grows by one |
| Polygons.Polygon.FindEar | computational_geometry/src/polygon.rs:134-141 | Ok gives a working vertex whose working neighbours form a diagonal of the original polygon; Err only when no working vertex does |
| Polygons.Polygon.Triangulate | computational_geometry/src/polygon.rs:116-132 | the polygon is untouched; on Ok: n - 2 triangles (n >= 3) of original ids, all but one cutting a diagonal, whose double areas sum to the shoelace double area; Err only for n > 3 |
| Polygons.EdgesOfNewPolygon | computational_geometry/src/polygon.rs:296-306 | a new polygon of n points has the n edges (i, (i+1) mod n) |
| Polygons.CheckTriangulation | computational_geometry/src/polygon.rs:308-315 | with distinct coordinates, the area from the triangulation is the polygon's double area and there are n - 2 triangles |
| Polygons.TriangulationMatchesArea | computational_geometry/src/polygon.rs:289-315 | for distinct points: `double_area` is the shoelace area, `double_area_from_triangulation` equals it, and the count is n - 2 |
| LegacyTriangles.DoubleArea | src/triangle.rs:21-25 | the older formula is the newer kernel's double area of the same points |
| LegacyTriangles.AreaSign | src/triangle.rs:27-29 | in {-1,0,1}, the sign of the double area |
| LegacyTriangles.HasCollinearPoints | src/line_segment.rs:24-37 | the collinearity test the older segment code calls: zero double area, equivalently area sign 0 |
| LegacyTriangles.AreaSignSymmetries | src/triangle.rs:49-79 | rotations keep the sign, swaps flip it |
| LegacyTriangles.RepeatedVertexSign | src/triangle.rs:81-113 | a repeated vertex gives sign 0 |
| LegacyTriangles.UnitTests | src/triangle.rs:37-79 | the right triangle has double area 12; the three ccw orderings give +1, the three cw ones -1 |
| LegacyLineSegments.ProperIntersection | src/line_segment.rs:12-43 | the older test equals the newer `proper_intersects` on the same points |
| LegacyLineSegments.ProperIntersectionIff | src/line_segment.rs:24-42 | true iff each segment strictly splits the other; false whenever a triple is collinear |
| LegacyLineSegments.ProperIntersectionSymmetries | src/line_segment.rs:39-42 | symmetric in the segments and unchanged by reversing either |
| LegacyPolygons.LegacyPolygon.constructor | src/polygon.rs:18-20 | a new polygon has no vertices |
| LegacyPolygons.LegacyPolygon.AddVertex | src/polygon.rs:22-24 | appends at the end; earlier vertices keep their order |
| LegacyPolygons.LegacyPolygon.Edges | src/polygon.rs:44-52 | the n - 1 consecutive pairs, no closing edge, each starting where the previous ends |
| LegacyPolygons.LegacyPolygon.DoubleArea | src/polygon.rs:26-42 | requires a vertex; the fan over `edges()` is the shoelace double area of the closed polygon |
| LegacyPolygons.FanChainSnoc | src/polygon.rs:37-40 | each further edge adds its fan triangle to the running sum |
| LegacyPolygons.TrianglePolygon | src/polygon.rs:76-87 | three added vertices give the double area of their triangle |
| LegacyPolygons.RightTrianglePolygon | src/polygon.rs:76-87 | adding (0,0), (3,0), (0,4) gives double area 12 |
| Geometry.FoldMin | src/geometry.rs:31-33 | the fold is at most the seed and every element, and equals one of them |
| Geometry.FoldMax | src/geometry.rs:35-37 | the fold is at least the seed and every element, and equals one of them |
| Geometry.MinX | src/geometry.rs:31-33 | `f64::MAX` for no vertices; otherwise the least x, attained by a vertex |
| Geometry.MaxX | src/geometry.rs:35-37 | `f64::MIN` for no vertices; otherwise the greatest x, attained by a vertex |
| Geometry.MinY | src/geometry.rs:39-41 | `f64::MAX` for no vertices; otherwise the least y, attained by a vertex |
| Geometry.MaxY | src/geometry.rs:43-45 | `f64::MIN` for no vertices; otherwise the greatest y, attained by a vertex |
| Geometry.FirstMinimal | src/geometry.rs:47-51 | the front of a stable sort: no key below it, every earlier element strictly above it |
| Geometry.LeftmostLowestVertex | src/geometry.rs:47-51 | a vertex of the list minimising (y, x), the earliest among equal keys; panics on no vertices |
| Geometry.LeftmostHighestVertex | src/geometry.rs:53-57 | minimises (-y, x), earliest among ties |
| Geometry.RightmostLowestVertex | src/geometry.rs:59-63 | minimises (y, -x), earliest among ties |
| Geometry.RightmostHighestVertex | src/geometry.rs:65-69 | minimises (-y, -x), earliest among ties |
| Geometry.LowestLeftmostVertex | src/geometry.rs:71-75 | minimises (x, y), earliest among ties |
| Geometry.LowestRightmostVertex | src/geometry.rs:77-81 | minimises (-x, y), earliest among ties |
| Geometry.HighestLeftmostVertex | src/geometry.rs:83-87 | minimises (x, -y), earliest among ties |
| Geometry.HighestRightmostVertex | src/geometry.rs:89-93 | minimises (-x, -y), earliest among ties |
| Geometry.TiesGoToFirst | src/geometry.rs:47-51 | when the first vertex has a minimal key it is the one selected |
| Geometry.NumVertices | src/geometry.rs:27-29 | with the vertex map as implementor, the vertex count equals the size of its edge set |
| Geometry.NumEdges | src/geometry.rs:23-25 | with the vertex map as implementor, the edge count equals the vertex count |
| Geometry.CountsOfNewPolygon | src/geometry.rs:23-29 | the polygon of n points counts n vertices and n edges |
| Geometry.NeighbourId | src/geometry.rs:15-21 | Some exactly when the lookup found a vertex, holding that vertex's id |
| Stacks.Stack.New | src/data_structure.rs:24-29 | empty and unnamed |
| Stacks.Stack.WithName | src/data_structure.rs:31-36 | empty, with the name recorded |
| Stacks.Stack.Push | src/data_structure.rs:38-45 | appends on top, length + 1, name unchanged |
| Stacks.Stack.Pop | src/data_structure.rs:47-63 | None and unchanged when empty; otherwise the top element, removed; name unchanged |
| Stacks.PushThenPop | src/data_structure.rs:38-63 | push then pop returns the pushed element and restores the contents |
| Stacks.PopFresh | src/data_structure.rs:24-63 | popping a new stack, named or not, gives None |
| Stacks.LastInFirstOut | src/data_structure.rs:38-63 | two pushes pop in reverse order, then None |
| NamedVertexMaps.Insert | src/vertex_map.rs:22-24 | `IndexMap::insert`: a new id goes last, an existing id keeps its place and takes the new vertex |
| NamedVertexMaps.KeyedLastWins | src/vertex_map.rs:20-26 | the last vertex with a given id is the one stored |
| NamedVertexMaps.BuildOrder | src/vertex_map.rs:20-26 | with distinct ids, the keys are in input order |
| NamedVertexMaps.New | src/vertex_map.rs:20-26 | the loop builds the ordered map whose keys are the input ids, each holding its last vertex |
| NamedVertexMaps.Get | src/vertex_map.rs:28-30 | Some iff the id is present, with the vertex of that id |
| NamedVertexMaps.AllVertices | src/vertex_map.rs:32-34 | the stored vertices in insertion order |
| NamedVertexMaps.AllVerticesOfNew | src/vertex_map.rs:20-34 | with distinct ids, `all_vertices(new(vs)) == vs` |
| NamedVertexMaps.GetVertices | src/vertex_map.rs:36-41 | one vertex per name, in names order, each the vertex with that id; missing names panic |
| NamedVertexMaps.GetLineSegment | src/vertex_map.rs:43-49 | the segment between the vertices of the two ids; a missing id panics |
| NamedVertexMaps.Split | src/vertex_map.rs:58 | `split("\n")`: at least one piece, none holding a newline, joined back they give the text |
| NamedVertexMaps.SplitJoin | src/vertex_map.rs:58 | splitting undoes joining pieces free of the separator |
| NamedVertexMaps.FromStr | src/vertex_map.rs:56-63 | always Ok: the map built from the vertices read line by line |
| NamedVertexMaps.FromStrExample | src/vertex_map.rs:71-80 | "1 2 a\n3 4 b" gives `new([a(1,2), b(3,4)])` |
| NamedVertexMaps.NewSet | src/vertex_set.rs:12-18 | keys are the input ids, a later duplicate replaces the earlier one, each vertex under its own id |
| NamedVertexMaps.GetSetVertices | src/vertex_set.rs:20-24 | exactly one vertex per name, in names order; a missing name panics |

## Left out

- Floating point: the newer `Point` declares `f64`. Coordinates are exact
  integers here. `f64::MAX` and `f64::MIN` appear only as the fold seeds of
  `min_x`..`max_y`, as the integer value of the largest finite double.
- Geometry.MinX, Geometry.MaxX, Geometry.MinY, Geometry.MaxY: the folds
  promise a bound on every coordinate only for finite inputs (`Finite`),
  since the seed is the largest double.
- Geometry.NumVertices, Geometry.NumEdges: these are modelled with the
  newer vertex map as the implementor, so the vertices are the map's
  entries and the edges are `EdgeSet`. Their equality holds for that
  implementor. For an arbitrary implementor of the trait, the two counts
  are unrelated.
- i32 overflow of `double_area` and of the area sums is not modelled; the
  arithmetic is unbounded.
- Polygons.Polygon.Triangulate: the source panics (`expect`) when no ear is
  found. The model returns `Err(EarNotFoundError)` instead, so the case is
  visible. It proves that the error can only happen with more than three
  vertices. It does not prove that an ear always exists, which is the two-ears
  theorem for simple polygons.
- Triangulations.Triangulation.ToPoints: the result is a set, so coinciding
  triangles collapse. Equality of the two areas is proved when distinct ids
  have distinct coordinates.
- The hash-map iteration order (`anchor`, `find_ear`, the sum loops) is an
  arbitrary choice in the model. Every property holds for every order.
- `Triangle`'s `OnceCell` cache of the double area is a pure function.
- `rotate_about_origin` and `rotate_about_point` are left out (trigonometry
  on f64).
- `intersection_with_horizontal` is left out; it is unfinished.
- Convex hull, extreme points and interior points are not part of this
  model.
- Also left out, with no behaviour to state:
  - JSON loading (`Polygon::from_json`);
  - the visualiser and the rerun meshes;
  - benchmarks;
  - the id generator of src/vertex.rs (ids are parameters);
  - `_diagonal_internal_external` of src/polygon.rs, a stub.
- Stacks.Stack.Push: trace logging is not modelled; it changes neither the
  contents nor the name.
- NamedVertexMaps.FromStr: `Vertex::from_str` (the line reader) is not part
  of this model. It is a parameter, and every line must read, where the
  source unwraps.
- A concrete shoelace evaluation of the newer polygon on the test data is
  left out: the polygon test files are JSON. The area theorems cover every
  polygon.
