/** The default methods of the `Geometry` trait of src/geometry.rs, over
    what an implementor supplies: its vertex list (in its own order) and
    the results of its vertex lookups. The trait reads f64 `x`/`y` and `id`
    on a vertex; here they are the `coords.x`, `coords.y` and `id` of the
    newer kernel's vertex. The two counts take the newer vertex map as the
    implementor, whose edges are its ring links. */
module Geometry {
  import opened Wrappers
  import opened Points
  import opened Vertices
  import opened PolygonGeometry
  import opened VertexMaps
  import opened Cycles

  /** `f64::MAX`, the largest finite double: (2^53 - 1) * 2^971. */
  const F64_MAX: int := 0xfffffffffffff800000000000000000000000000000000000000000000000000000000000000000000000000000000000000000000000000000000000000000000000000000000000000000000000000000000000000000000000000000000000000000000000000000000000000000000000000000000000000000000000000

  /** Every coordinate is a finite double, so lies within +-F64_MAX. */
  predicate Finite(vs: seq<Vertex>)
  {
    forall i | 0 <= i < |vs| ::
      -F64_MAX <= vs[i].coords.x <= F64_MAX && -F64_MAX <= vs[i].coords.y <= F64_MAX
  }

  function Xs(vs: seq<Vertex>): (xs: seq<int>)
    ensures |xs| == |vs| && forall i | 0 <= i < |vs| :: xs[i] == vs[i].coords.x
  {
    seq(|vs|, i requires 0 <= i < |vs| => vs[i].coords.x)
  }

  function Ys(vs: seq<Vertex>): (ys: seq<int>)
    ensures |ys| == |vs| && forall i | 0 <= i < |vs| :: ys[i] == vs[i].coords.y
  {
    seq(|vs|, i requires 0 <= i < |vs| => vs[i].coords.y)
  }

  function Min(a: int, b: int): int { if b < a then b else a }

  function Max(a: int, b: int): int { if b > a then b else a }

  /** `fold(acc, |acc, x| acc.min(x))`: never above the seed or any element,
      and equal to the seed or to one of the elements. */
  function FoldMin(acc: int, xs: seq<int>): (r: int)
    ensures r <= acc && forall i | 0 <= i < |xs| :: r <= xs[i]
    ensures r == acc || exists i | 0 <= i < |xs| :: r == xs[i]
    decreases xs
  {
    if xs == [] then acc
    else
      var r := FoldMin(Min(acc, xs[0]), xs[1..]);
      assert forall i | 1 <= i < |xs| :: xs[i] == xs[1..][i - 1];
      r
  }

  /** `fold(acc, |acc, x| acc.max(x))`, the mirror image. */
  function FoldMax(acc: int, xs: seq<int>): (r: int)
    ensures r >= acc && forall i | 0 <= i < |xs| :: r >= xs[i]
    ensures r == acc || exists i | 0 <= i < |xs| :: r == xs[i]
    decreases xs
  {
    if xs == [] then acc
    else
      var r := FoldMax(Max(acc, xs[0]), xs[1..]);
      assert forall i | 1 <= i < |xs| :: xs[i] == xs[1..][i - 1];
      r
  }

  /** `min_x`: the least x coordinate, or `f64::MAX` when there are no
      vertices. */
  function MinX(vs: seq<Vertex>): (r: int)
    ensures vs == [] ==> r == F64_MAX
    ensures Finite(vs) && vs != [] ==>
      (forall i | 0 <= i < |vs| :: r <= vs[i].coords.x) && exists i | 0 <= i < |vs| :: r == vs[i].coords.x
  {
    FoldMin(F64_MAX, Xs(vs))
  }

  /** `max_x`: the greatest x coordinate, or `f64::MIN` (= -`f64::MAX`)
      when there are no vertices. */
  function MaxX(vs: seq<Vertex>): (r: int)
    ensures vs == [] ==> r == -F64_MAX
    ensures Finite(vs) && vs != [] ==>
      (forall i | 0 <= i < |vs| :: r >= vs[i].coords.x) && exists i | 0 <= i < |vs| :: r == vs[i].coords.x
  {
    FoldMax(-F64_MAX, Xs(vs))
  }

  /** `min_y`: the least y coordinate, or `f64::MAX` when there are no
      vertices. */
  function MinY(vs: seq<Vertex>): (r: int)
    ensures vs == [] ==> r == F64_MAX
    ensures Finite(vs) && vs != [] ==>
      (forall i | 0 <= i < |vs| :: r <= vs[i].coords.y) && exists i | 0 <= i < |vs| :: r == vs[i].coords.y
  {
    FoldMin(F64_MAX, Ys(vs))
  }

  /** `max_y`: the greatest y coordinate, or `f64::MIN` when there are no
      vertices. */
  function MaxY(vs: seq<Vertex>): (r: int)
    ensures vs == [] ==> r == -F64_MAX
    ensures Finite(vs) && vs != [] ==>
      (forall i | 0 <= i < |vs| :: r >= vs[i].coords.y) && exists i | 0 <= i < |vs| :: r == vs[i].coords.y
  {
    FoldMax(-F64_MAX, Ys(vs))
  }

  /** Sort keys compare lexicographically: first component, then second. */
  predicate KeyLess(k: (int, int), l: (int, int))
  {
    k.0 < l.0 || (k.0 == l.0 && k.1 < l.1)
  }

  /** The position `sort_by_key(key)` moves to the front: a vertex whose key
      no vertex undercuts, and, the sort being stable, the earliest such
      vertex (every one before it has a strictly larger key). A sort of an
      empty list leaves nothing at index 0, where the source panics. */
  function FirstMinimal(vs: seq<Vertex>, key: Vertex -> (int, int)): (i: nat)
    requires |vs| > 0
    ensures i < |vs|
    ensures forall j | 0 <= j < |vs| :: !KeyLess(key(vs[j]), key(vs[i]))
    ensures forall j | 0 <= j < i :: KeyLess(key(vs[i]), key(vs[j]))
    decreases |vs|
  {
    if |vs| == 1 then 0
    else
      var k := FirstMinimal(vs[1..], key) + 1;
      assert forall j | 1 <= j < |vs| :: vs[j] == vs[1..][j - 1];
      if KeyLess(key(vs[k]), key(vs[0])) then k else 0
  }

  /** The keys of the eight selectors; `Reverse` on a coordinate is its
      negation. */
  function YThenX(v: Vertex): (int, int) { (v.coords.y, v.coords.x) }
  function NegYThenX(v: Vertex): (int, int) { (-v.coords.y, v.coords.x) }
  function YThenNegX(v: Vertex): (int, int) { (v.coords.y, -v.coords.x) }
  function NegYThenNegX(v: Vertex): (int, int) { (-v.coords.y, -v.coords.x) }
  function XThenY(v: Vertex): (int, int) { (v.coords.x, v.coords.y) }
  function NegXThenY(v: Vertex): (int, int) { (-v.coords.x, v.coords.y) }
  function XThenNegY(v: Vertex): (int, int) { (v.coords.x, -v.coords.y) }
  function NegXThenNegY(v: Vertex): (int, int) { (-v.coords.x, -v.coords.y) }

  /** `leftmost_lowest_vertex`: lowest y, among those the least x, and among
      equal keys the earliest in list order. */
  function LeftmostLowestVertex(vs: seq<Vertex>): (v: Vertex)
    requires |vs| > 0
    ensures forall w | w in vs ::
      v.coords.y < w.coords.y || (v.coords.y == w.coords.y && v.coords.x <= w.coords.x)
    ensures exists i | 0 <= i < |vs| :: v == vs[i] && forall j | 0 <= j < i :: KeyLess(YThenX(v), YThenX(vs[j]))
  {
    vs[FirstMinimal(vs, YThenX)]
  }

  /** `leftmost_highest_vertex`: highest y, among those the least x, and among
      equal keys the earliest in list order. */
  function LeftmostHighestVertex(vs: seq<Vertex>): (v: Vertex)
    requires |vs| > 0
    ensures forall w | w in vs ::
      v.coords.y > w.coords.y || (v.coords.y == w.coords.y && v.coords.x <= w.coords.x)
    ensures exists i | 0 <= i < |vs| :: v == vs[i] && forall j | 0 <= j < i :: KeyLess(NegYThenX(v), NegYThenX(vs[j]))
  {
    vs[FirstMinimal(vs, NegYThenX)]
  }

  /** `rightmost_lowest_vertex`: lowest y, among those the greatest x, and among
      equal keys the earliest in list order. */
  function RightmostLowestVertex(vs: seq<Vertex>): (v: Vertex)
    requires |vs| > 0
    ensures forall w | w in vs ::
      v.coords.y < w.coords.y || (v.coords.y == w.coords.y && v.coords.x >= w.coords.x)
    ensures exists i | 0 <= i < |vs| :: v == vs[i] && forall j | 0 <= j < i :: KeyLess(YThenNegX(v), YThenNegX(vs[j]))
  {
    vs[FirstMinimal(vs, YThenNegX)]
  }

  /** `rightmost_highest_vertex`: highest y, among those the greatest x, and among
      equal keys the earliest in list order. */
  function RightmostHighestVertex(vs: seq<Vertex>): (v: Vertex)
    requires |vs| > 0
    ensures forall w | w in vs ::
      v.coords.y > w.coords.y || (v.coords.y == w.coords.y && v.coords.x >= w.coords.x)
    ensures exists i | 0 <= i < |vs| :: v == vs[i] && forall j | 0 <= j < i :: KeyLess(NegYThenNegX(v), NegYThenNegX(vs[j]))
  {
    vs[FirstMinimal(vs, NegYThenNegX)]
  }

  /** `lowest_leftmost_vertex`: least x, among those the lowest y, and among
      equal keys the earliest in list order. */
  function LowestLeftmostVertex(vs: seq<Vertex>): (v: Vertex)
    requires |vs| > 0
    ensures forall w | w in vs ::
      v.coords.x < w.coords.x || (v.coords.x == w.coords.x && v.coords.y <= w.coords.y)
    ensures exists i | 0 <= i < |vs| :: v == vs[i] && forall j | 0 <= j < i :: KeyLess(XThenY(v), XThenY(vs[j]))
  {
    vs[FirstMinimal(vs, XThenY)]
  }

  /** `lowest_rightmost_vertex`: greatest x, among those the lowest y, and among
      equal keys the earliest in list order. */
  function LowestRightmostVertex(vs: seq<Vertex>): (v: Vertex)
    requires |vs| > 0
    ensures forall w | w in vs ::
      v.coords.x > w.coords.x || (v.coords.x == w.coords.x && v.coords.y <= w.coords.y)
    ensures exists i | 0 <= i < |vs| :: v == vs[i] && forall j | 0 <= j < i :: KeyLess(NegXThenY(v), NegXThenY(vs[j]))
  {
    vs[FirstMinimal(vs, NegXThenY)]
  }

  /** `highest_leftmost_vertex`: least x, among those the highest y, and among
      equal keys the earliest in list order. */
  function HighestLeftmostVertex(vs: seq<Vertex>): (v: Vertex)
    requires |vs| > 0
    ensures forall w | w in vs ::
      v.coords.x < w.coords.x || (v.coords.x == w.coords.x && v.coords.y >= w.coords.y)
    ensures exists i | 0 <= i < |vs| :: v == vs[i] && forall j | 0 <= j < i :: KeyLess(XThenNegY(v), XThenNegY(vs[j]))
  {
    vs[FirstMinimal(vs, XThenNegY)]
  }

  /** `highest_rightmost_vertex`: greatest x, among those the highest y, and among
      equal keys the earliest in list order. */
  function HighestRightmostVertex(vs: seq<Vertex>): (v: Vertex)
    requires |vs| > 0
    ensures forall w | w in vs ::
      v.coords.x > w.coords.x || (v.coords.x == w.coords.x && v.coords.y >= w.coords.y)
    ensures exists i | 0 <= i < |vs| :: v == vs[i] && forall j | 0 <= j < i :: KeyLess(NegXThenNegY(v), NegXThenNegY(vs[j]))
  {
    vs[FirstMinimal(vs, NegXThenNegY)]
  }

  /** Ties go to the earliest vertex: when the first vertex is among the
      lowest-then-leftmost ones, it is the one selected, whatever follows. */
  lemma TiesGoToFirst(vs: seq<Vertex>)
    requires |vs| > 0
    requires forall w | w in vs :: !KeyLess(YThenX(w), YThenX(vs[0]))
    ensures LeftmostLowestVertex(vs) == vs[0]
  {
  }

  /** `num_vertices`, for the vertex map as implementor: the number of
      vertices the map holds; every vertex
      starts one edge of the ring, so it is also the number of edges. */
  function NumVertices(m: VMap): (r: nat)
    ensures r == |EdgeSet(m)|
  {
    |m|
  }

  /** `num_edges`, for the vertex map as implementor: the size of its edge
      set, which is its number of vertices. */
  function NumEdges(m: VMap): (r: nat)
    ensures r == NumVertices(m)
  {
    |EdgeSet(m)|
  }

  /** The polygon of n points counts n vertices and, its edges being the
      pairs (i, (i + 1) mod n), n edges. */
  lemma CountsOfNewPolygon(points: seq<Point>)
    requires |points| <= U32_LIMIT
    ensures NumVertices(InitialMap(points)) == |points|
    ensures NumEdges(InitialMap(points)) == |points|
  {
    InitialSize(points);
    InitialEdges(points);
  }

  /** `prev_vertex_id` and `next_vertex_id`: the id of the neighbour the
      implementor's lookup found, or None when it found none. */
  function NeighbourId(lookup: Option<Vertex>): (r: Option<VertexId>)
    ensures r.Some? <==> lookup.Some?
    ensures r.Some? ==> r.value == lookup.value.id
  {
    match lookup
    case None => None
    case Some(v) => Some(v.id)
  }
}
