/** The geometric predicates of computational_geometry/src/polygon.rs, as
    functions of the polygon's vertex map: its edge set, the cone test at a
    vertex, the diagonal test, and the area sums the polygon computes. */
module PolygonGeometry {
  import opened Points
  import opened Triangles
  import opened LineSegments
  import opened Vertices
  import opened Sums
  import opened ShoelaceFormula
  import opened Cycles
  import opened VertexMaps
  import opened Triangulations

  type Edge = (VertexId, VertexId)

  /** The successor of an id (the id itself when it is absent). */
  function Successor(m: VMap, k: VertexId): VertexId
  {
    if k in m then m[k].next else k
  }

  /** The directed edges of the ring: every vertex paired with its
      successor, one edge per vertex. */
  function EdgeSet(m: VMap): (r: set<Edge>)
    ensures |r| == |m|
  {
    var r := set k | k in m :: (k, m[k].next);
    EdgeSetCard(m, r);
    r
  }

  /** An edge is a stored id paired with its stored successor. */
  lemma EdgeSetMember(m: VMap, e: Edge)
    ensures e in EdgeSet(m) <==> e.0 in m && e.1 == m[e.0].next
  {
    if e.0 in m && e.1 == m[e.0].next {
      assert e == (e.0, m[e.0].next);
    }
  }

  lemma EdgeSetCard(m: VMap, r: set<Edge>)
    requires r == set k | k in m :: (k, m[k].next)
    ensures |r| == |m|
  {
    var g := (k: VertexId) => (k, Successor(m, k));
    ImageCard(m.Keys, g);
    assert r == Image(m.Keys, g);
  }

  /** The edges a freshly built polygon of n points must have:
      (i, (i + 1) mod n) for every i below n. */
  function ExpectedEdges(n: nat): set<Edge>
    requires n <= U32_LIMIT
  {
    set i: nat | i < n :: RingEdge(n, i)
  }

  /** The edge from i to the index after it, wrapping to 0 after n - 1. */
  function RingEdge(n: nat, i: nat): (e: Edge)
    requires i < n <= U32_LIMIT
    ensures e == (VertexId(i), VertexId(NextIndex(n, i)))
  {
    ShiftMod(i + 1, n);
    (VertexId(i), VertexId((i + 1) % n))
  }

  /** The edges of `VertexMap::new(points)` are exactly the expected ones,
      n of them. */
  lemma InitialEdges(points: seq<Point>)
    requires |points| <= U32_LIMIT
    ensures EdgeSet(InitialMap(points)) == ExpectedEdges(|points|)
    ensures |EdgeSet(InitialMap(points))| == |points|
  {
    var n, m := |points|, InitialMap(points);
    InitialSize(points);
    forall e
      ensures e in EdgeSet(m) <==> e in ExpectedEdges(n)
    {
      InitialEdge(points, e);
    }
  }

  lemma InitialEdge(points: seq<Point>, e: Edge)
    requires |points| <= U32_LIMIT
    ensures e in EdgeSet(InitialMap(points)) <==> e in ExpectedEdges(|points|)
  {
    var n, m := |points|, InitialMap(points);
    InitialMapKeys(points);
    EdgeSetMember(m, e);
    ExpectedEdgeMember(n, e);
  }

  lemma ExpectedEdgeMember(n: nat, e: Edge)
    requires n <= U32_LIMIT
    ensures e in ExpectedEdges(n) <==> e.0.raw < n && e == RingEdge(n, e.0.raw)
  {
    if e in ExpectedEdges(n) {
      var j: nat :| j < n && e == RingEdge(n, j);
    }
  }

  /** Distinct points give distinct coordinates to distinct ids. */
  lemma InitialDistinctCoords(points: seq<Point>)
    requires |points| <= U32_LIMIT && Distinct(points)
    ensures DistinctCoords(InitialMap(points))
  {
    var m := InitialMap(points);
    InitialMapKeys(points);
    forall a, b | a in m && b in m && m[a].coords == m[b].coords
      ensures a == b
    {
      DistinctIndex(points, a.raw, b.raw);
    }
  }

  /** `in_cone`: whether b lies in the cone at vertex a spanned by a's two
      polygon neighbours. The source first decides whether a is convex
      (its predecessor is left of or on the line from a to its successor).
      No point at a's own coordinates is in the cone. */
  function InCone(m: VMap, a: Vertex, b: Vertex): (r: bool)
    requires a.prev in m && a.next in m
    ensures b.coords == a.coords ==> !r
  {
    var ab := SegmentFromVertices(a, b);
    var ba := Reverse(ab);
    var a0, a1 := m[a.prev], m[a.next];
    if VertexLeftOn(a0, SegmentFromVertices(a, a1)) then
      VertexLeft(a0, ab) && VertexLeft(a1, ba)
    else
      !(VertexLeftOn(a1, ab) && VertexLeftOn(a0, ba))
  }

  /** What the cone test means, with p, x, q the predecessor, the vertex and
      the successor: at a convex corner b must lie strictly left of both
      boundary edges p-x and x-q; at a reflex corner it must lie strictly
      left of at least one of them. */
  lemma InConeMeaning(m: VMap, a: Vertex, b: Vertex)
    requires a.prev in m && a.next in m
    ensures var p, x, q, y := m[a.prev].coords, a.coords, m[a.next].coords, b.coords;
      && (LeftOn(q, LineSegment(p, x)) ==>
            (InCone(m, a, b) <==> Left(y, LineSegment(p, x)) && Left(y, LineSegment(x, q))))
      && (!LeftOn(q, LineSegment(p, x)) ==>
            (InCone(m, a, b) <==> Left(y, LineSegment(p, x)) || Left(y, LineSegment(x, q))))
  {
    var p, x, q, y := m[a.prev].coords, a.coords, m[a.next].coords, b.coords;
    OrientationSymmetries(x, q, p);
    OrientationSymmetries(x, y, p);
    OrientationSymmetries(y, x, q);
    OrientationSymmetries(x, y, q);
    OrientationSymmetries(y, x, p);
  }

  /** A vertex never lies in its own cone, nor does any point with its
      coordinates. */
  lemma InConeExcludesApex(m: VMap, a: Vertex, b: Vertex)
    requires a.prev in m && a.next in m
    requires b.coords == a.coords
    ensures !InCone(m, a, b)
  {
    InConeMeaning(m, a, b);
    RepeatedPointIsCollinear(m[a.prev].coords, a.coords, a.coords);
    RepeatedPointIsCollinear(a.coords, m[a.next].coords, a.coords);
  }

  /** The segment of edge e, through the coordinates of its two ids. */
  function EdgeSegment(m: VMap, e: Edge): LineSegment
    requires e.0 in m && e.1 in m
  {
    SegmentFromVertices(m[e.0], m[e.1])
  }

  /** Edge e meets ab without sharing an endpoint with it. */
  predicate CrossesEdge(m: VMap, e: Edge, ab: LineSegment)
    requires e.0 in m && e.1 in m
  {
    var s := EdgeSegment(m, e);
    !ConnectedTo(s, ab) && Intersects(s, ab)
  }

  /** `diagonal_internal_external` as a property: no polygon edge that
      shares no endpoint with ab intersects it. */
  ghost predicate ClearOfEdges(m: VMap, ab: LineSegment)
    ensures ClearOfEdges(m, ab) <==>
      forall k | k in m && m[k].next in m :: !CrossesEdge(m, (k, m[k].next), ab)
  {
    EdgeSetMembers(m);
    forall e | e in EdgeSet(m) && e.0 in m && e.1 in m :: !CrossesEdge(m, e, ab)
  }

  /** Every edge is a stored id paired with its successor, and every stored
      id gives one. */
  lemma EdgeSetMembers(m: VMap)
    ensures forall e :: e in EdgeSet(m) <==> e.0 in m && e.1 == m[e.0].next
  {
    forall e
      ensures e in EdgeSet(m) <==> e.0 in m && e.1 == m[e.0].next
    {
      EdgeSetMember(m, e);
    }
  }

  /** `diagonal`: both cone tests and the edge test. */
  ghost predicate IsDiagonal(m: VMap, a: Vertex, b: Vertex)
    requires a.prev in m && a.next in m && b.prev in m && b.next in m
    ensures IsDiagonal(m, a, b) ==> a.coords != b.coords
  {
    InCone(m, a, b) && InCone(m, b, a) && ClearOfEdges(m, SegmentFromVertices(a, b))
  }

  /** A diagonal does not depend on the direction it is read in, and joins
      two different points. */
  lemma DiagonalProperties(m: VMap, a: Vertex, b: Vertex)
    requires a.prev in m && a.next in m && b.prev in m && b.next in m
    ensures IsDiagonal(m, a, b) <==> IsDiagonal(m, b, a)
    ensures IsDiagonal(m, a, b) ==> a.coords != b.coords
  {
    var ab, ba := SegmentFromVertices(a, b), SegmentFromVertices(b, a);
    assert ba == Reverse(ab);
    ClearOfEdgesReverse(m, ab);
    if a.coords == b.coords {
      InConeExcludesApex(m, a, b);
    }
  }

  /** The edge test does not depend on the direction of the segment. */
  lemma ClearOfEdgesReverse(m: VMap, ab: LineSegment)
    ensures ClearOfEdges(m, ab) <==> ClearOfEdges(m, Reverse(ab))
  {
    forall e | e in EdgeSet(m) && e.0 in m && e.1 in m
      ensures CrossesEdge(m, e, ab) <==> CrossesEdge(m, e, Reverse(ab))
    {
      CrossesReverse(EdgeSegment(m, e), ab);
    }
  }

  lemma CrossesReverse(s: LineSegment, ab: LineSegment)
    ensures (!ConnectedTo(s, ab) && Intersects(s, ab)) <==>
      (!ConnectedTo(s, Reverse(ab)) && Intersects(s, Reverse(ab)))
  {
    ConnectedToSymmetric(s, ab);
    IntersectsProperties(s, ab);
    IntersectsProperties(ab, s);
    IntersectsProperties(s, Reverse(ab));
    IntersectsProperties(Reverse(ab), s);
  }

  /** k is a key of m whose two neighbours are keys of m too. */
  predicate HasNeighbours(m: VMap, k: VertexId)
  {
    k in m && m[k].prev in m && m[k].next in m
  }

  /** The vertex stored under k in the working map w is an ear: its
      current neighbours in w, looked up in the original map m, form a
      diagonal of the original polygon. */
  ghost predicate IsEar(m: VMap, w: VMap, k: VertexId)
  {
    && k in w && HasNeighbours(m, w[k].prev) && HasNeighbours(m, w[k].next)
    && IsDiagonal(m, m[w[k].prev], m[w[k].next])
  }

  /** The triangle (a, b, c) cuts along a diagonal a-c of the polygon m. */
  ghost predicate CutsDiagonal(m: VMap, t: TriangleVertexIds)
  {
    HasNeighbours(m, t.id1) && HasNeighbours(m, t.id3) && IsDiagonal(m, m[t.id1], m[t.id3])
  }

  /** The fan term of `double_area`: the triangle from the anchor point a to
      the edge leaving k. */
  function FanTerm(m: VMap, a: Point): VertexId -> int
  {
    k => FanArea(m, a, k)
  }

  function FanArea(m: VMap, a: Point, k: VertexId): int
  {
    DoubleArea(Triangle(a, CoordsAt(m, k), CoordsAt(m, Successor(m, k))))
  }

  /** The fan term of a key is the double area of the anchor with the
      vertex and its successor. */
  lemma FanTermAt(m: VMap, a: Point, k: VertexId, v1: Vertex, v2: Vertex)
    requires k in m && v1 == m[k] && v1.next in m && v2 == m[v1.next]
    ensures FanTerm(m, a)(k) == DoubleArea(Triangle(a, v1.coords, v2.coords))
  {
  }

  /** Summing the fan over all vertices, in any order and from any anchor
      point, gives the shoelace double area of the ring. */
  lemma FanSumIsShoelace(m: VMap, c: seq<VertexId>, a: Point)
    requires IsCycle(m, c) && |c| > 0
    ensures SetSum(m.Keys, FanTerm(m, a)) == Shoelace(CycleCoords(m, c))
  {
    var f := FanTerm(m, a);
    CycleSuccessive(m, c);
    KeysAreCycle(m, c);
    SetSumOfDistinctSeq(c, f);
    FanSeq(m, c, a);
  }

  /** Every id of c is stored, and its successor is the next id of c. */
  predicate Successive(m: VMap, c: seq<VertexId>)
  {
    forall i | 0 <= i < |c| :: c[i] in m && m[c[i]].next == c[NextIndex(|c|, i)]
  }

  lemma CycleSuccessive(m: VMap, c: seq<VertexId>)
    requires IsCycle(m, c)
    ensures Successive(m, c)
  {
  }

  /** The fan terms along the ring, summed in ring order. */
  lemma FanSeq(m: VMap, c: seq<VertexId>, a: Point)
    requires Successive(m, c) && |c| > 0
    ensures SeqSum(c, FanTerm(m, a)) == Shoelace(CycleCoords(m, c))
  {
    var ps := CycleCoords(m, c);
    FanSuffix(m, c, a, 0);
    assert c[0..] == c;
    assert ps[0..] == ps;
    FanIsShoelace(a, ps);
  }

  lemma {:induction false} FanSuffix(m: VMap, c: seq<VertexId>, a: Point, i: nat)
    requires Successive(m, c) && i < |c|
    ensures var ps, n := CycleCoords(m, c), |c|;
      SeqSum(c[i..], FanTerm(m, a)) == FanChain(a, ps[i..]) + DoubleArea(Triangle(a, ps[n - 1], ps[0]))
    decreases |c| - i
  {
    var ps, n, f := CycleCoords(m, c), |c|, FanTerm(m, a);
    assert f(c[i]) == DoubleArea(Triangle(a, ps[i], ps[NextIndex(n, i)]));
    assert c[i..][1..] == c[i + 1..];
    assert ps[i..][1..] == ps[i + 1..];
    if i == n - 1 {
      assert c[i + 1..] == [];
    } else {
      FanSuffix(m, c, a, i + 1);
    }
  }

  /** Removing vertex c[j] from the working ring w (whose ids carry the
      coordinates of the original map m) lowers the ring's shoelace area by
      exactly the double area of the triangle (prev, c[j], next). */
  lemma EarArea(m: VMap, w: VMap, c: seq<VertexId>, j: nat)
    requires IsCycle(w, c) && 2 <= |c| && j < |c|
    requires forall i | 0 <= i < |c| :: c[i] in m
    ensures var v := w[c[j]];
      Shoelace(CycleCoords(m, RemoveAt(c, j))) + TriArea(m)(TriangleVertexIds(v.prev, c[j], v.next))
        == Shoelace(CycleCoords(m, c))
  {
    CycleAt(w, c, j);
    RemoveVertexArea(CycleCoords(m, c), j);
    CycleCoordsRemoveAt(m, c, j);
  }

  /** A ring of at most three vertices is its own triangle, from any of its
      vertices. */
  lemma LastTriangleArea(m: VMap, w: VMap, c: seq<VertexId>, j: nat)
    requires IsCycle(w, c) && 1 <= |c| <= 3 && j < |c|
    requires forall i | 0 <= i < |c| :: c[i] in m
    ensures var v := w[c[j]];
      TriArea(m)(TriangleVertexIds(v.prev, c[j], v.next)) == Shoelace(CycleCoords(m, c))
  {
    CycleAt(w, c, j);
    SmallWalkIsTriangle(CycleCoords(m, c), j);
  }

  /** One round of `triangulation()`: cutting the vertex at position j out
      of the working ring w records a triangle that is new (its middle id
      was still in the ring, and every recorded triangle's middle id is
      gone from it) and moves exactly its double area from the ring to the
      recorded triangles. */
  lemma CutEarStep(m: VMap, w: VMap, c: seq<VertexId>, j: nat, ts: set<TriangleVertexIds>, total: int)
    requires IsCycle(w, c) && 2 <= |c| && j < |c|
    requires forall i | 0 <= i < |c| :: c[i] in m
    requires forall t | t in ts :: t.id2 !in w
    requires SetSum(ts, TriArea(m)) + Shoelace(CycleCoords(m, c)) == total
    ensures var v := w[c[j]];
      var t := TriangleVertexIds(v.prev, c[j], v.next);
      && t !in ts
      && SetSum(ts + {t}, TriArea(m)) + Shoelace(CycleCoords(m, RemoveAt(c, j))) == total
  {
    CycleAt(w, c, j);
    var v := w[c[j]];
    var t := TriangleVertexIds(v.prev, c[j], v.next);
    SetSumInsert(ts, TriArea(m), t);
    EarArea(m, w, c, j);
  }

  /** Every recorded triangle names vertices of m, its middle vertex is no
      longer on the working ring w, and it cuts along a diagonal of m. */
  ghost predicate EarTriangles(m: VMap, w: VMap, ts: set<TriangleVertexIds>)
  {
    forall t | t in ts :: HasIds(m, t) && t.id2 !in w && CutsDiagonal(m, t)
  }

  /** What `triangulation()` keeps between rounds, for the original map m,
      the working ring w with cycle wc and the recorded triangles ts: the
      ring uses vertices of m only, the recorded triangles are ear
      triangles, and the recorded double areas plus the ring's shoelace
      double area are the polygon's double area `total`. */
  ghost predicate Progress(m: VMap, w: VMap, wc: seq<VertexId>, ts: set<TriangleVertexIds>, total: int)
  {
    && w.Keys <= m.Keys
    && (forall i | 0 <= i < |wc| :: wc[i] in m)
    && EarTriangles(m, w, ts)
    && SetSum(ts, TriArea(m)) + Shoelace(CycleCoords(m, wc)) == total
  }

  /** A round of `triangulation()` keeps Progress: the ear's triangle is
      new, and unlinking the ear from the ring moves exactly its double
      area from the ring to the recorded triangles. */
  lemma CutEarProgress(m: VMap, w: VMap, wc: seq<VertexId>, j: nat, ts: set<TriangleVertexIds>, total: int)
    requires IsCycle(w, wc) && 2 <= |wc| && j < |wc|
    requires Progress(m, w, wc, ts, total) && IsEar(m, w, wc[j])
    ensures wc[j] in w && w[wc[j]].prev in w && w[wc[j]].prev != wc[j]
    ensures w[wc[j]].next in w && w[wc[j]].next != wc[j]
    ensures var v := w[wc[j]];
      var t := TriangleVertexIds(v.prev, wc[j], v.next);
      && t !in ts
      && Progress(m, Unlink(w, wc[j]), RemoveAt(wc, j), ts + {t}, total)
  {
    var id := wc[j];
    CycleAt(w, wc, j);
    var v := w[id];
    var t := TriangleVertexIds(v.prev, id, v.next);
    CutEarStep(m, w, wc, j, ts, total);
    var w' := Unlink(w, id);
    UnlinkSpec(w, id);
    assert HasIds(m, t) && CutsDiagonal(m, t);
    assert EarTriangles(m, w', ts + {t});
  }

  /** The final round: the last three (or fewer) vertices make one more new
      triangle. It carries all the area left on the ring, so the recorded
      double areas now add up to the total; every triangle uses ids of m,
      and all but this last one cut along a diagonal. */
  lemma LastTriangleStep(m: VMap, w: VMap, c: seq<VertexId>, j: nat, v: Vertex, ts: set<TriangleVertexIds>, total: int)
    requires IsCycle(w, c) && 1 <= |c| <= 3 && j < |c| && c[j] in w && v == w[c[j]]
    requires Progress(m, w, c, ts, total)
    ensures var t := TriangleVertexIds(v.prev, v.id, v.next);
      && t !in ts
      && (forall u | u in ts + {t} :: HasIds(m, u))
      && SetSum(ts + {t}, TriArea(m)) == total
      && (exists last | last in ts + {t} :: forall u | u in ts + {t} && u != last :: CutsDiagonal(m, u))
  {
    CycleAt(w, c, j);
    var t := TriangleVertexIds(v.prev, c[j], v.next);
    SetSumInsert(ts, TriArea(m), t);
    LastTriangleArea(m, w, c, j);
    assert HasIds(m, t);
    assert forall u | u in ts + {t} && u != t :: CutsDiagonal(m, u);
  }

  /** The position reached after t steps from j0 around a ring of n. */
  function Wrap(x: nat, n: nat): (r: nat)
    requires x < 2 * n
    ensures r < n
  {
    if x < n then x else x - n
  }

  /** The edges recorded by `edges()` after s steps of its walk from c[j0]. */
  ghost function WalkEdges(m: VMap, c: seq<VertexId>, j0: nat, s: nat): set<Edge>
    requires j0 < |c| && s <= |c|
  {
    if s == 0 then {} else WalkEdges(m, c, j0, s - 1) + {WalkEdge(m, c, j0, s - 1)}
  }

  /** The edge recorded at step t of the walk from c[j0]. */
  function WalkEdge(m: VMap, c: seq<VertexId>, j0: nat, t: nat): Edge
    requires j0 < |c| && t < |c|
  {
    var k := c[Wrap(j0 + t, |c|)];
    (k, Successor(m, k))
  }

  /** One step of the walk: the successor of the current position is the
      next position, and it is back at the start exactly after n steps. */
  lemma WalkStep(m: VMap, c: seq<VertexId>, j0: nat, s: nat)
    requires IsCycle(m, c) && j0 < |c| && s < |c|
    ensures var n := |c|;
      var w, w' := Wrap(j0 + s, n), Wrap(j0 + s + 1, n);
      && m[c[w]].id == c[w] && m[c[w]].next == c[w']
      && c[w'] in m && m[c[w']].id == c[w']
      && (c[w'] == c[j0] <==> s + 1 == n)
  {
    var n := |c|;
    var w, w' := Wrap(j0 + s, n), Wrap(j0 + s + 1, n);
    assert NextIndex(n, w) == w';
    CycleAt(m, c, w);
    CycleAt(m, c, w');
    if c[w'] == c[j0] {
      DistinctIndex(c, w', j0);
    }
  }

  /** The index on the cycle of a key of the map. */
  lemma CycleIndex(m: VMap, c: seq<VertexId>, k: VertexId) returns (j: nat)
    requires IsCycle(m, c) && k in m
    ensures j < |c| && c[j] == k && k in c && j == IndexOf(c, k)
  {
    KeyOnCycle(m, c, k);
    j := IndexOf(c, k);
  }

  /** One step of `edges()`: from the vertex reached after s steps, record
      its edge and move to its successor `next`, which is the anchor again
      exactly after n steps, when every edge has been recorded. */
  lemma WalkAdvance(m: VMap, c: seq<VertexId>, j0: nat, s: nat, current: Vertex, edges: set<Edge>, next: Vertex)
    requires IsCycle(m, c) && j0 < |c| && s < |c|
    requires current == m[c[Wrap(j0 + s, |c|)]]
    requires edges == WalkEdges(m, c, j0, s)
    requires current.next in m && next == m[current.next]
    ensures next.id == c[j0] <==> s + 1 == |c|
    ensures s + 1 < |c| ==> next == m[c[Wrap(j0 + s + 1, |c|)]]
    ensures edges + {(current.id, current.next)} == WalkEdges(m, c, j0, s + 1)
    ensures s + 1 == |c| ==> edges + {(current.id, current.next)} == EdgeSet(m)
  {
    WalkStep(m, c, j0, s);
    assert WalkEdge(m, c, j0, s) == (current.id, current.next);
    if s + 1 == |c| {
      WalkCovers(m, c, j0);
    }
  }

  /** A full walk of n steps records every edge of the ring. */
  lemma WalkCovers(m: VMap, c: seq<VertexId>, j0: nat)
    requires IsCycle(m, c) && j0 < |c|
    ensures WalkEdges(m, c, j0, |c|) == EdgeSet(m)
  {
    forall e
      ensures e in WalkEdges(m, c, j0, |c|) <==> e in EdgeSet(m)
    {
      WalkCoversEdge(m, c, j0, e);
    }
  }

  lemma WalkCoversEdge(m: VMap, c: seq<VertexId>, j0: nat, e: Edge)
    requires IsCycle(m, c) && j0 < |c|
    ensures e in WalkEdges(m, c, j0, |c|) <==> e in EdgeSet(m)
  {
    var n := |c|;
    WalkMember(m, c, j0, n, e);
    if e in WalkEdges(m, c, j0, n) {
      var t :| 0 <= t < n && e == WalkEdge(m, c, j0, t);
      WalkEdgeIsEdge(m, c, j0, t);
    }
    if e in EdgeSet(m) {
      EdgeSetMember(m, e);
      KeyOnCycle(m, c, e.0);
      var i := IndexOf(c, e.0);
      EdgeIsWalkEdge(m, c, j0, i, e);
    }
  }

  lemma WalkEdgeIsEdge(m: VMap, c: seq<VertexId>, j0: nat, t: nat)
    requires j0 < |c| && t < |c| && c[Wrap(j0 + t, |c|)] in m
    ensures WalkEdge(m, c, j0, t) in EdgeSet(m)
  {
    EdgeSetMember(m, WalkEdge(m, c, j0, t));
  }

  lemma EdgeIsWalkEdge(m: VMap, c: seq<VertexId>, j0: nat, i: nat, e: Edge)
    requires j0 < |c| && i < |c| && c[i] == e.0
    requires e.0 in m && e.1 == m[e.0].next
    ensures exists t | 0 <= t < |c| :: e == WalkEdge(m, c, j0, t)
  {
    var n := |c|;
    var t := if i >= j0 then i - j0 else i + n - j0;
    assert Wrap(j0 + t, n) == i;
    assert e == WalkEdge(m, c, j0, t);
  }

  /** The walk's edges after s steps are those recorded at steps below s. */
  lemma {:induction false} WalkMember(m: VMap, c: seq<VertexId>, j0: nat, s: nat, e: Edge)
    requires j0 < |c| && s <= |c|
    ensures e in WalkEdges(m, c, j0, s) <==> exists t | 0 <= t < s :: e == WalkEdge(m, c, j0, t)
  {
    if s > 0 {
      WalkMember(m, c, j0, s - 1, e);
    }
  }
}
