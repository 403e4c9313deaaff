/** The vertex map of computational_geometry/src/vertex_map.rs: a hash map
    from vertex id to vertex whose prev/next links form the polygon's ring.
    The ghost field `cycle` records the order in which the links visit the
    vertices; it is what lets the contracts speak about "the polygon". */
module VertexMaps {
  import opened Points
  import opened Vertices
  import opened Sums
  import opened ShoelaceFormula
  import opened Cycles

  /** The ids 0, 1, ..., n - 1 that `VertexMap::new` hands out. */
  function IdRange(n: nat): (r: seq<VertexId>)
    requires n <= U32_LIMIT
    ensures |r| == n
    ensures forall i | 0 <= i < n :: r[i] == VertexId(i)
  {
    seq(n, i requires 0 <= i < n => VertexId(i))
  }

  /** The i-th vertex built by `new`: its predecessor and successor are the
      neighbouring indices modulo the number of points. */
  function InitialVertex(points: seq<Point>, i: nat): (v: Vertex)
    requires i < |points| <= U32_LIMIT
    ensures v.coords == points[i] && v.id == VertexId(i)
    ensures v.prev == VertexId(PrevIndex(|points|, i))
    ensures v.next == VertexId(NextIndex(|points|, i))
  {
    var n := |points|;
    ShiftMod(i + n - 1, n);
    ShiftMod(i + n + 1, n);
    Vertex(points[i], VertexId(i), VertexId((i + n - 1) % n), VertexId((i + n + 1) % n))
  }

  /** The map built by `new`: every key is an id below the number of points,
      stored with its initial vertex. */
  function InitialMap(points: seq<Point>): (r: VMap)
    requires |points| <= U32_LIMIT
    ensures forall k | k in r :: k.raw < |points| && r[k] == InitialVertex(points, k.raw)
  {
    map i: nat | i < |points| :: VertexId(i) := InitialVertex(points, i)
  }

  /** The keys of the initial map are the ids below the number of points,
      each stored with its initial vertex. */
  lemma InitialMapKeys(points: seq<Point>)
    requires |points| <= U32_LIMIT
    ensures forall k {:trigger k in InitialMap(points)} :: k in InitialMap(points) <==> k.raw < |points|
    ensures forall k {:trigger InitialMap(points)[k]} | k in InitialMap(points) ::
      InitialMap(points)[k] == InitialVertex(points, k.raw)
  {
    var m := InitialMap(points);
    forall k: VertexId | k.raw < |points|
      ensures k in m
    {
      assert k == VertexId(k.raw);
    }
  }

  /** A map with the keys and entries of the initial map is the initial map. */
  lemma InitialMapAgrees(points: seq<Point>, m: VMap)
    requires |points| <= U32_LIMIT
    requires forall k {:trigger k in m} :: k in m <==> k.raw < |points|
    requires forall k {:trigger m[k]} | k in m :: m[k] == InitialVertex(points, k.raw)
    ensures m == InitialMap(points)
  {
    InitialMapKeys(points);
  }

  /** `new` links the points into one cycle in the order they were given. */
  lemma InitialIsCycle(points: seq<Point>)
    requires |points| <= U32_LIMIT
    ensures IsCycle(InitialMap(points), IdRange(|points|))
    ensures CycleCoords(InitialMap(points), IdRange(|points|)) == points
  {
    InitialSize(points);
    InitialMembers(points);
    InitialLinks(points);
    CycleIntro(InitialMap(points), IdRange(|points|));
    InitialCoords(points);
  }

  lemma InitialMembers(points: seq<Point>)
    requires |points| <= U32_LIMIT
    ensures var m, c := InitialMap(points), IdRange(|points|);
      && (forall i | 0 <= i < |c| :: c[i] in m)
      && (forall i {:trigger m[c[i]]} | 0 <= i < |c| :: m[c[i]].id == c[i])
  {
    forall i | 0 <= i < |points|
      ensures IdRange(|points|)[i] in InitialMap(points)
      ensures InitialMap(points)[IdRange(|points|)[i]].id == IdRange(|points|)[i]
    {
      InitialEntry(points, i);
    }
  }

  lemma InitialLinks(points: seq<Point>)
    requires |points| <= U32_LIMIT
    ensures InitialMembersIn(points)
    ensures CycleLinks(InitialMap(points), IdRange(|points|))
  {
    var m, c, n := InitialMap(points), IdRange(|points|), |points|;
    InitialMembers(points);
    forall i, k | 0 <= i < n && 0 <= k < n
      ensures k == NextIndex(n, i) ==> m[c[i]].next == c[k]
      ensures k == PrevIndex(n, i) ==> m[c[i]].prev == c[k]
    {
      InitialEntry(points, i);
    }
  }

  lemma InitialCoords(points: seq<Point>)
    requires |points| <= U32_LIMIT
    ensures InitialMembersIn(points)
    ensures CycleCoords(InitialMap(points), IdRange(|points|)) == points
  {
    InitialMembers(points);
    forall i | 0 <= i < |points|
      ensures CycleCoords(InitialMap(points), IdRange(|points|))[i] == points[i]
    {
      InitialEntry(points, i);
    }
  }

  /** Every id of the range is a key of the initial map. */
  predicate InitialMembersIn(points: seq<Point>)
    requires |points| <= U32_LIMIT
  {
    forall i | 0 <= i < |points| :: IdRange(|points|)[i] in InitialMap(points)
  }

  /** The i-th id of the range is a key of the initial map, holding the
      i-th point and linked to the neighbouring ids. */
  lemma InitialEntry(points: seq<Point>, i: nat)
    requires i < |points| <= U32_LIMIT
    ensures var m, c, n := InitialMap(points), IdRange(|points|), |points|;
      && c[i] == VertexId(i) && c[i] in m
      && m[c[i]].id == c[i] && m[c[i]].coords == points[i]
      && m[c[i]].next == c[NextIndex(n, i)] && m[c[i]].prev == c[PrevIndex(n, i)]
  {
    var m := InitialMap(points);
    assert m[VertexId(i)] == InitialVertex(points, i);
  }

  lemma InitialSize(points: seq<Point>)
    requires |points| <= U32_LIMIT
    ensures |InitialMap(points)| == |points|
  {
    var m, c := InitialMap(points), IdRange(|points|);
    assert m.Keys == set x | x in c by {
      InitialMapKeys(points);
      forall k | k in m
        ensures k in c
      {
        assert c[k.raw] == k;
      }
      InitialAt(points);
    }
    DistinctCard(c);
  }

  lemma InitialAt(points: seq<Point>)
    requires |points| <= U32_LIMIT
    ensures forall i | 0 <= i < |points| ::
      IdRange(|points|)[i] in InitialMap(points) &&
      InitialMap(points)[IdRange(|points|)[i]] == InitialVertex(points, i)
  {
  }

  /** The map after `remove(k)`: k is gone, its predecessor now points
      forward to k's successor and its successor back to k's predecessor. */
  function Unlink(m: VMap, k: VertexId): (r: VMap)
    requires k in m
    requires m[k].prev in m && m[k].prev != k
    requires m[k].next in m && m[k].next != k
    ensures r.Keys == m.Keys - {k}
    ensures r[m[k].prev].next == m[k].next && r[m[k].next].prev == m[k].prev
  {
    var v := m[k];
    var m1 := m - {k};
    var m2 := m1[v.prev := m1[v.prev].(next := v.next)];
    m2[v.next := m2[v.next].(prev := v.prev)]
  }

  /** What `remove` changes: exactly one key fewer, two links rewired,
      every coordinate and id untouched. */
  lemma UnlinkSpec(m: VMap, k: VertexId)
    requires k in m
    requires m[k].prev in m && m[k].prev != k
    requires m[k].next in m && m[k].next != k
    ensures var r, v := Unlink(m, k), m[k];
      && r.Keys == m.Keys - {k}
      && |r| == |m| - 1
      && r[v.prev].next == v.next
      && r[v.next].prev == v.prev
      && (forall x | x in r :: r[x].coords == m[x].coords && r[x].id == m[x].id)
      && (forall x | x in r && x != v.prev :: r[x].next == m[x].next)
      && (forall x | x in r && x != v.next :: r[x].prev == m[x].prev)
  {
    var r := Unlink(m, k);
    assert r.Keys == m.Keys - {k};
    forall x | x in r
      ensures r[x].coords == m[x].coords && r[x].id == m[x].id
    {
      UnlinkEntry(m, k, x);
    }
  }

  /** One entry of the map after `remove(k)`. */
  lemma UnlinkEntry(m: VMap, k: VertexId, x: VertexId)
    requires k in m
    requires m[k].prev in m && m[k].prev != k
    requires m[k].next in m && m[k].next != k
    ensures x in Unlink(m, k) <==> x in m && x != k
    ensures x in Unlink(m, k) ==>
      var r, v := Unlink(m, k), m[k];
      && r[x].coords == m[x].coords && r[x].id == m[x].id
      && r[x].next == (if x == v.prev then v.next else m[x].next)
      && r[x].prev == (if x == v.next then v.prev else m[x].prev)
  {
  }

  /** Position of an id on the cycle. */
  function IndexOrig(j: nat, i: nat): nat
  {
    if i < j then i else i + 1
  }

  /** How neighbours on the shortened cycle relate to neighbours on the
      original: only the two neighbours of the removed index change. */
  lemma RemovedNeighbours(n: nat, j: nat, i: nat)
    requires 2 <= n && j < n && i < n - 1
    ensures IndexOrig(j, i) != j
    ensures IndexOrig(j, NextIndex(n - 1, i)) ==
      if IndexOrig(j, i) == PrevIndex(n, j) then NextIndex(n, j) else NextIndex(n, IndexOrig(j, i))
    ensures IndexOrig(j, PrevIndex(n - 1, i)) ==
      if IndexOrig(j, i) == NextIndex(n, j) then PrevIndex(n, j) else PrevIndex(n, IndexOrig(j, i))
  {
  }

  /** Removing any vertex of a cycle of two or more leaves a cycle through
      the remaining vertices, in the same order. */
  lemma UnlinkKeepsCycle(m: VMap, c: seq<VertexId>, j: nat)
    requires IsCycle(m, c) && 2 <= |c| && j < |c|
    ensures c[j] in m
    ensures m[c[j]].prev in m && m[c[j]].prev != c[j]
    ensures m[c[j]].next in m && m[c[j]].next != c[j]
    ensures IsCycle(Unlink(m, c[j]), RemoveAt(c, j))
  {
    CycleAt(m, c, j);
    UnlinkLinks(m, c, j);
    var r, c' := Unlink(m, c[j]), RemoveAt(c, j);
    UnlinkSpec(m, c[j]);
    RemoveAtDistinct(c, j);
    CycleIntro(r, c');
  }

  /** Pointwise links of every surviving vertex. */
  lemma UnlinkLinks(m: VMap, c: seq<VertexId>, j: nat)
    requires IsCycle(m, c) && 2 <= |c| && j < |c|
    requires m[c[j]].prev in m && m[c[j]].prev != c[j]
    requires m[c[j]].next in m && m[c[j]].next != c[j]
    ensures var r, c' := Unlink(m, c[j]), RemoveAt(c, j);
      && (forall i | 0 <= i < |c'| :: c'[i] in r)
      && (forall i {:trigger r[c'[i]]} | 0 <= i < |c'| :: r[c'[i]].id == c'[i])
      && CycleLinks(r, c')
  {
    var r, c' := Unlink(m, c[j]), RemoveAt(c, j);
    forall i | 0 <= i < |c'|
      ensures c'[i] in r && r[c'[i]].id == c'[i]
    {
      UnlinkAt(m, c, j, i);
    }
    forall i, k | 0 <= i < |c'| && 0 <= k < |c'|
      ensures k == NextIndex(|c'|, i) ==> r[c'[i]].next == c'[k]
      ensures k == PrevIndex(|c'|, i) ==> r[c'[i]].prev == c'[k]
    {
      UnlinkAt(m, c, j, i);
    }
  }

  /** The links of one surviving vertex after the removal. */
  lemma UnlinkAt(m: VMap, c: seq<VertexId>, j: nat, i: nat)
    requires IsCycle(m, c) && 2 <= |c| && j < |c| && i < |c| - 1
    requires m[c[j]].prev in m && m[c[j]].prev != c[j]
    requires m[c[j]].next in m && m[c[j]].next != c[j]
    ensures var r, c' := Unlink(m, c[j]), RemoveAt(c, j);
      && c'[i] in r
      && r[c'[i]].id == c'[i]
      && r[c'[i]].next == c'[NextIndex(|c'|, i)]
      && r[c'[i]].prev == c'[PrevIndex(|c'|, i)]
  {
    var n, o := |c|, IndexOrig(j, i);
    RemovedNeighbours(n, j, i);
    CycleAt(m, c, j);
    CycleAt(m, c, o);
    if c[o] == c[PrevIndex(n, j)] {
      DistinctIndex(c, o, PrevIndex(n, j));
    }
    if c[o] == c[NextIndex(n, j)] {
      DistinctIndex(c, o, NextIndex(n, j));
    }
    if c[o] == c[j] {
      DistinctIndex(c, o, j);
    }
    UnlinkNextAt(m, c, j, i);
    UnlinkPrevAt(m, c, j, i);
  }

  /** The forward link of one surviving vertex, from the facts about the
      removed position j and the surviving position o alone. */
  lemma UnlinkNextAt(m: VMap, c: seq<VertexId>, j: nat, i: nat)
    requires 2 <= |c| && j < |c| && i < |c| - 1
    requires var n, o := |c|, IndexOrig(j, i);
      && c[j] in m && c[o] in m && c[o] != c[j]
      && m[c[j]].prev == c[PrevIndex(n, j)] && m[c[j]].next == c[NextIndex(n, j)]
      && m[c[j]].prev in m && m[c[j]].prev != c[j]
      && m[c[j]].next in m && m[c[j]].next != c[j]
      && m[c[o]].id == c[o] && m[c[o]].next == c[NextIndex(n, o)]
      && (c[o] == c[PrevIndex(n, j)] ==> o == PrevIndex(n, j))
    ensures var r, c' := Unlink(m, c[j]), RemoveAt(c, j);
      && c'[i] in r
      && r[c'[i]].id == c'[i]
      && r[c'[i]].next == c'[NextIndex(|c'|, i)]
  {
    var n, k := |c|, c[j];
    var c' := RemoveAt(c, j);
    var o := IndexOrig(j, i);
    var ni := NextIndex(n - 1, i);
    RemovedNeighbours(n, j, i);
    assert c'[i] == c[o];
    assert c'[ni] == c[IndexOrig(j, ni)];
    UnlinkEntry(m, k, c[o]);
  }

  /** The backward link of one surviving vertex. */
  lemma UnlinkPrevAt(m: VMap, c: seq<VertexId>, j: nat, i: nat)
    requires 2 <= |c| && j < |c| && i < |c| - 1
    requires var n, o := |c|, IndexOrig(j, i);
      && c[j] in m && c[o] in m && c[o] != c[j]
      && m[c[j]].prev == c[PrevIndex(n, j)] && m[c[j]].next == c[NextIndex(n, j)]
      && m[c[j]].prev in m && m[c[j]].prev != c[j]
      && m[c[j]].next in m && m[c[j]].next != c[j]
      && m[c[o]].prev == c[PrevIndex(n, o)]
      && (c[o] == c[NextIndex(n, j)] ==> o == NextIndex(n, j))
    ensures var r, c' := Unlink(m, c[j]), RemoveAt(c, j);
      && c'[i] in r
      && r[c'[i]].prev == c'[PrevIndex(|c'|, i)]
  {
    var n, k := |c|, c[j];
    var c' := RemoveAt(c, j);
    var o := IndexOrig(j, i);
    var pi := PrevIndex(n - 1, i);
    RemovedNeighbours(n, j, i);
    assert c'[i] == c[o];
    assert c'[pi] == c[IndexOrig(j, pi)];
    UnlinkEntry(m, k, c[o]);
  }

  /** An id occurs at some position of the cycle. */
  ghost function IndexOf(c: seq<VertexId>, k: VertexId): (i: nat)
    requires k in c
    ensures i < |c| && c[i] == k
  {
    var i :| 0 <= i < |c| && c[i] == k; i
  }

  /** k is below every other id of s. */
  predicate IsLeastId(s: set<VertexId>, k: VertexId)
  {
    k in s && forall j | j in s :: j == k || IdLess(k, j)
  }

  /** Adding x to a set with least element y: the smaller of x and y is
      least. */
  lemma LeastOfInsert(s: set<VertexId>, x: VertexId, y: VertexId)
    requires IsLeastId(s, y) && x !in s
    ensures IsLeastId(s + {x}, if IdLess(x, y) then x else y)
  {
  }

  /** Every non-empty set of ids has a least element. */
  lemma {:induction false} LeastIdExists(s: set<VertexId>)
    requires s != {}
    ensures exists k | k in s :: IsLeastId(s, k)
  {
    var x :| x in s;
    if s != {x} {
      var rest := s - {x};
      LeastIdExists(rest);
      var y :| y in rest && IsLeastId(rest, y);
      LeastOfInsert(rest, x, y);
      assert s == rest + {x};
    } else {
      assert IsLeastId(s, x);
    }
  }

  /** The ids of a sequence of vertices strictly increase. */
  predicate AscendingIds(vs: seq<Vertex>)
  {
    forall a, b | 0 <= a < b < |vs| :: IdLess(vs[a].id, vs[b].id)
  }

  /** The body of `VertexMap::new`: hand out the ids 0, 1, ..., n - 1,
      then store each point under its id with the ids of its neighbours. */
  method LinkPoints(points: seq<Point>) returns (m: VMap)
    requires |points| <= U32_LIMIT
    ensures m == InitialMap(points)
  {
    var n := |points|;
    var ids: seq<VertexId> := [];
    var i := 0;
    while i < n
      invariant 0 <= i <= n
      invariant ids == IdRange(i)
    {
      ids := ids + [FromUsize(i).value];
      i := i + 1;
    }
    m := map[];
    i := 0;
    while i < n
      invariant 0 <= i <= n
      invariant forall k {:trigger k in m} :: k in m <==> k.raw < i
      invariant forall k {:trigger m[k]} | k in m :: m[k] == InitialVertex(points, k.raw)
    {
      var prevId := ids[(i + n - 1) % n];
      var currId := ids[i];
      var nextId := ids[(i + n + 1) % n];
      assert Vertex(points[i], currId, prevId, nextId) == InitialVertex(points, i);
      m := m[currId := Vertex(points[i], currId, prevId, nextId)];
      i := i + 1;
    }
    InitialMapAgrees(points, m);
  }

  class VertexMap {
    var entries: VMap
    ghost var cycle: seq<VertexId>

    /** The links form one cycle through all stored vertices. */
    ghost predicate Valid()
      reads this
    {
      IsCycle(entries, cycle)
    }

    /** `VertexMap::new`: vertex i gets id i and is linked to the points
        before and after it, wrapping around at both ends. */
    constructor (points: seq<Point>)
      requires |points| <= U32_LIMIT
      ensures entries == InitialMap(points)
      ensures cycle == IdRange(|points|)
      ensures Valid()
      ensures CycleCoords(entries, cycle) == points
    {
      var m := LinkPoints(points);
      InitialIsCycle(points);
      entries := m;
      cycle := IdRange(|points|);
    }

    /** `clone`: an independent map with the same contents. */
    constructor Clone(other: VertexMap)
      ensures entries == other.entries && cycle == other.cycle
    {
      entries := other.entries;
      cycle := other.cycle;
    }

    /** `get`; looking up a missing id panics. In a valid map the vertex
        found is stored under its own id and its neighbours are present. */
    function Get(k: VertexId): (v: Vertex)
      reads this
      requires k in entries
      ensures v == entries[k]
      ensures Valid() ==> v.id == k && v.prev in entries && v.next in entries
    {
      CycleAtKeyOf(k);
      entries[k]
    }

    lemma CycleAtKeyOf(k: VertexId)
      requires k in entries
      ensures Valid() ==> entries[k].id == k && entries[k].prev in entries && entries[k].next in entries
    {
      if Valid() {
        CycleAtKey(entries, cycle, k);
      }
    }

    /** `len`: the number of vertices on the ring. */
    function Len(): (r: nat)
      reads this
      ensures r == |entries|
      ensures Valid() ==> r == |cycle|
    {
      |entries|
    }


    /** `is_empty`. */
    function IsEmpty(): (r: bool)
      reads this
      ensures r <==> Len() == 0
      ensures Valid() ==> (r <==> cycle == [])
    {
      |entries| == 0
    }

    /** `update_next`: re-point one vertex forward; nothing else changes. */
    method UpdateNext(k: VertexId, next: VertexId)
      requires k in entries
      modifies this
      ensures entries == old(entries)[k := old(entries)[k].(next := next)]
      ensures cycle == old(cycle)
    {
      entries := entries[k := entries[k].(next := next)];
    }

    /** `update_prev`: re-point one vertex backward; nothing else changes. */
    method UpdatePrev(k: VertexId, prev: VertexId)
      requires k in entries
      modifies this
      ensures entries == old(entries)[k := old(entries)[k].(prev := prev)]
      ensures cycle == old(cycle)
    {
      entries := entries[k := entries[k].(prev := prev)];
    }

    /** `remove`: unlink a vertex from the ring and return it. The source
        panics on a missing id and on a ring of one (the vertex is its own
        neighbour, which is gone by the time it is re-linked). */
    method Remove(k: VertexId) returns (v: Vertex)
      requires Valid() && k in entries && |entries| >= 2
      modifies this
      ensures v == old(entries)[k]
      ensures old(entries)[k].prev in old(entries) && old(entries)[k].prev != k
      ensures old(entries)[k].next in old(entries) && old(entries)[k].next != k
      ensures entries == Unlink(old(entries), k)
      ensures entries.Keys == old(entries).Keys - {k} && |entries| == |old(entries)| - 1
      ensures k in old(cycle) && cycle == RemoveAt(old(cycle), IndexOf(old(cycle), k))
      ensures Valid()
    {
      KeyOnCycle(entries, cycle, k);
      ghost var j := IndexOf(cycle, k);
      UnlinkKeepsCycle(entries, cycle, j);
      UnlinkSpec(entries, k);
      v := entries[k];
      entries := entries - {k};
      UpdateNext(v.prev, v.next);
      UpdatePrev(v.next, v.prev);
      cycle := RemoveAt(cycle, j);
    }

    /** `sorted_vertices`: every stored vertex once, in increasing id order.
        The vertices are drawn from the hash map in whatever order it
        yields them; the result does not depend on that order. */
    method SortedVertices() returns (r: seq<Vertex>)
      requires Valid()
      ensures |r| == |entries|
      ensures forall i | 0 <= i < |r| :: r[i].id in entries && entries[r[i].id] == r[i]
      ensures AscendingIds(r)
    {
      CycleKeyed(entries, cycle);
      var rest := entries.Keys;
      r := [];
      while rest != {}
        invariant rest <= entries.Keys
        invariant |r| + |rest| == |entries|
        invariant forall i | 0 <= i < |r| :: r[i].id in entries && entries[r[i].id] == r[i] && r[i].id !in rest
        invariant AscendingIds(r)
        invariant forall i, k | 0 <= i < |r| && k in rest :: IdLess(r[i].id, k)
        decreases rest
      {
        LeastIdExists(rest);
        var k :| k in rest && IsLeastId(rest, k);
        forall i, j | 0 <= i < |r| && j in rest - {k}
          ensures IdLess(r[i].id, j)
        {
        }
        forall i | 0 <= i < |r|
          ensures IdLess(r[i].id, k)
        {
        }
        r := r + [entries[k]];
        rest := rest - {k};
      }
    }

    /** `sorted_points`: the coordinates of `sorted_vertices`. The ghost
        result names the ids the points belong to. */
    method SortedPoints() returns (ps: seq<Point>, ghost ids: seq<VertexId>)
      requires Valid()
      ensures |ps| == |entries| && |ids| == |entries|
      ensures forall i | 0 <= i < |ps| :: exists k | k in entries :: ps[i] == entries[k].coords
      ensures forall i | 0 <= i < |ids| :: ids[i] in entries && ps[i] == entries[ids[i]].coords
      ensures forall a, b | 0 <= a < b < |ids| :: IdLess(ids[a], ids[b])
    {
      var vs := SortedVertices();
      ps := seq(|vs|, i requires 0 <= i < |vs| => vs[i].coords);
      ids := seq(|vs|, i requires 0 <= i < |vs| => vs[i].id);
    }

    /** `anchor`: some stored vertex (the first the hash map yields); the
        source panics on an empty map. */
    method Anchor() returns (v: Vertex)
      requires Valid() && |entries| > 0
      ensures v.id in entries && entries[v.id] == v
      ensures v.prev in entries && v.next in entries
    {
      var k :| k in entries;
      v := entries[k];
      CycleAtKeyOf(k);
    }
  }

  /** Ids that strictly increase and all lie below n, n of them, are
      exactly 0, 1, ..., n - 1. */
  lemma {:induction false} AscendingIdsAreRange(ids: seq<VertexId>, n: nat)
    requires |ids| == n
    requires forall i | 0 <= i < n :: ids[i].raw < n
    requires forall a, b | 0 <= a < b < n :: IdLess(ids[a], ids[b])
    ensures forall i | 0 <= i < n :: ids[i].raw == i
  {
    forall i | 0 <= i < n
      ensures ids[i].raw == i
    {
      AscendingLowerBound(ids, i);
      AscendingUpperBound(ids, n, i);
    }
  }

  lemma {:induction false} AscendingLowerBound(ids: seq<VertexId>, i: nat)
    requires i < |ids|
    requires forall a, b | 0 <= a < b < |ids| :: IdLess(ids[a], ids[b])
    ensures ids[i].raw >= i
  {
    if i > 0 {
      AscendingLowerBound(ids, i - 1);
    }
  }

  lemma {:induction false} AscendingUpperBound(ids: seq<VertexId>, n: nat, i: nat)
    requires i < |ids| == n
    requires forall k | 0 <= k < n :: ids[k].raw < n
    requires forall a, b | 0 <= a < b < |ids| :: IdLess(ids[a], ids[b])
    ensures ids[i].raw <= i
    decreases n - i
  {
    if i < n - 1 {
      AscendingUpperBound(ids, n, i + 1);
    }
  }

  /** Building a map and asking for its sorted points gives back the points
      in the order they were given. */
  method SortedPointsRoundTrip(points: seq<Point>) returns (ps: seq<Point>)
    requires |points| <= U32_LIMIT
    ensures ps == points
  {
    var vm := new VertexMap(points);
    ghost var ids;
    ps, ids := vm.SortedPoints();
    AscendingIdsAreRange(ids, |points|);
  }
}
