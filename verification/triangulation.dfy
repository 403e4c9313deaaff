/** The triangulation container of computational_geometry/src/triangulation.rs
    (the same structure appears in src/triangulation.rs and, copied, inside
    computational_geometry/src/polygon.rs): a set of id triples plus the
    vertex map that gives the ids their coordinates. */
module Triangulations {
  import opened Points
  import opened Triangles
  import opened Vertices
  import opened Sums
  import opened Cycles
  import opened VertexMaps

  /** One triangle as three vertex ids; triples are compared as ordered
      tuples, so a rotation of a triple is a different triple. */
  datatype TriangleVertexIds = TriangleVertexIds(id1: VertexId, id2: VertexId, id3: VertexId)

  /** Raised when no vertex of the working polygon passes the ear test. */
  datatype EarNotFoundError = EarNotFoundError

  type PointTriple = (Point, Point, Point)

  /** All three ids of t are keys of m. */
  predicate HasIds(m: VMap, t: TriangleVertexIds)
  {
    t.id1 in m && t.id2 in m && t.id3 in m
  }

  /** The coordinates stored under an id (a fixed point for a missing id,
      which the callers below rule out). */
  function CoordsAt(m: VMap, k: VertexId): Point
  {
    if k in m then m[k].coords else Point(0, 0)
  }

  /** The coordinate triple of an id triple. */
  function TriangleCoords(m: VMap, t: TriangleVertexIds): PointTriple
  {
    (CoordsAt(m, t.id1), CoordsAt(m, t.id2), CoordsAt(m, t.id3))
  }

  /** No two ids of m share coordinates. */
  ghost predicate DistinctCoords(m: VMap)
  {
    forall a, b | a in m && b in m && m[a].coords == m[b].coords :: a == b
  }

  /** The set of coordinate triples of a set of id triples: never larger
      than the id triples, exactly as large when coordinates are distinct. */
  function PointsOf(m: VMap, ts: set<TriangleVertexIds>): (r: set<PointTriple>)
    requires forall t | t in ts :: HasIds(m, t)
    ensures |r| <= |ts|
    ensures DistinctCoords(m) ==> |r| == |ts|
    ensures forall t | t in ts :: TriangleCoords(m, t) in r
  {
    var r := set t | t in ts :: TriangleCoords(m, t);
    PointsOfCard(m, ts, r);
    r
  }

  lemma PointsOfCard(m: VMap, ts: set<TriangleVertexIds>, r: set<PointTriple>)
    requires forall t | t in ts :: HasIds(m, t)
    requires r == set t | t in ts :: TriangleCoords(m, t)
    ensures |r| <= |ts|
    ensures DistinctCoords(m) ==> |r| == |ts|
  {
    var g := (t: TriangleVertexIds) => TriangleCoords(m, t);
    ImageCard(ts, g);
    assert r == Image(ts, g);
    TriangleCoordsInjective(m, ts);
  }

  /** With distinct coordinates, different id triples have different
      coordinate triples. */
  lemma TriangleCoordsInjective(m: VMap, ts: set<TriangleVertexIds>)
    requires forall t | t in ts :: HasIds(m, t)
    ensures DistinctCoords(m) ==>
      forall t, u | t in ts && u in ts && TriangleCoords(m, t) == TriangleCoords(m, u) :: t == u
  {
  }

  /** Double area of a coordinate triple. */
  function PtArea(q: PointTriple): int
  {
    DoubleArea(Triangle(q.0, q.1, q.2))
  }

  /** Double area of an id triple, read through the vertex map m. */
  function TriArea(m: VMap): TriangleVertexIds -> int
  {
    t => PtArea(TriangleCoords(m, t))
  }

  /** Summing over the coordinate triples is summing over the id triples,
      provided no two ids share coordinates (otherwise coincident triangles
      would be counted once). */
  lemma PointsOfArea(m: VMap, ts: set<TriangleVertexIds>)
    requires forall t | t in ts :: HasIds(m, t)
    requires DistinctCoords(m)
    ensures SetSum(PointsOf(m, ts), PtArea) == SetSum(ts, TriArea(m))
  {
    var g := (t: TriangleVertexIds) => TriangleCoords(m, t);
    TriangleCoordsInjective(m, ts);
    assert PointsOf(m, ts) == Image(ts, g);
    SetSumInjectiveImage(ts, g, PtArea, TriArea(m));
  }

  class Triangulation {
    var triangles: set<TriangleVertexIds>
    const vmap: VertexMap

    /** `new`: no triangles yet, over the given vertex map. */
    constructor (vmap: VertexMap)
      ensures triangles == {} && this.vmap == vmap
    {
      triangles := {};
      this.vmap := vmap;
    }

    /** `insert`: set insertion; true exactly when the triple is new, in
        which case the count grows by one. */
    method Insert(value: TriangleVertexIds) returns (added: bool)
      modifies this
      ensures triangles == old(triangles) + {value}
      ensures added <==> value !in old(triangles)
      ensures |triangles| == |old(triangles)| + (if added then 1 else 0)
    {
      added := value !in triangles;
      if !added {
        assert triangles + {value} == triangles;
      }
      triangles := triangles + {value};
    }

    /** `len`: the number of distinct triples inserted. */
    function Len(): (r: nat)
      reads this
      ensures r == |triangles|
    {
      |triangles|
    }

    /** `is_empty` (src/triangulation.rs and the copy in polygon.rs). */
    function IsEmpty(): (r: bool)
      reads this
      ensures r <==> Len() == 0
      ensures r <==> triangles == {}
    {
      |triangles| == 0
    }

    /** `to_points`: the coordinate triples as a set; looking up an id that
        is not in the vertex map panics. */
    function ToPoints(): (r: set<PointTriple>)
      reads this, vmap
      requires forall t | t in triangles :: HasIds(vmap.entries, t)
      ensures |r| <= Len()
      ensures DistinctCoords(vmap.entries) ==> |r| == Len()
      ensures forall t | t in triangles :: TriangleCoords(vmap.entries, t) in r
      ensures forall q | q in r :: exists t | t in triangles :: TriangleCoords(vmap.entries, t) == q
    {
      PointsOf(vmap.entries, triangles)
    }

    /** `to_points` of src/triangulation.rs, which collects into a Vec: one
        coordinate triple per stored triangle, in the set's iteration order
        (named by the ghost result), so its length is `len`. */
    method ToPointList() returns (r: seq<PointTriple>, ghost order: seq<TriangleVertexIds>)
      requires forall t | t in triangles :: HasIds(vmap.entries, t)
      ensures |r| == Len() && |order| == Len()
      ensures forall q | q in r :: q in ToPoints()
      ensures Distinct(order) && (forall t :: t in order <==> t in triangles)
      ensures forall i | 0 <= i < |r| :: r[i] == TriangleCoords(vmap.entries, order[i])
    {
      var rest := triangles;
      r, order := [], [];
      while rest != {}
        invariant rest <= triangles
        invariant |r| == |order| && |order| + |rest| == |triangles|
        invariant Distinct(order)
        invariant forall t :: t in order <==> t in triangles && t !in rest
        invariant forall i | 0 <= i < |r| :: r[i] == TriangleCoords(vmap.entries, order[i])
        invariant forall q | q in r :: q in ToPoints()
        decreases rest
      {
        var t :| t in rest;
        var ids := t;
        var v1, v2, v3 := vmap.Get(ids.id1), vmap.Get(ids.id2), vmap.Get(ids.id3);
        r := r + [(v1.coords, v2.coords, v3.coords)];
        order := order + [t];
        rest := rest - {t};
      }
    }
  }

  /** Rotating the ids of a triangle gives a different triple. */
  lemma TriplesAreOrdered(a: VertexId, b: VertexId, c: VertexId)
    requires a != b
    ensures TriangleVertexIds(a, b, c) != TriangleVertexIds(b, c, a)
  {
  }
}
