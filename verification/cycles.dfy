/** The ring structure of a vertex map: the prev/next links of the vertices
    in a map form one cycle through all of them. A ghost sequence `c` lists
    the vertices in the order the `next` links visit them. */
module Cycles {
  import opened Points
  import opened Vertices
  import opened Sums
  import opened ShoelaceFormula

  type VMap = map<VertexId, Vertex>

  /** Every vertex is stored under its own id, and its links point to its
      neighbours on the cycle c, which visits every key exactly once. The
      links are stated between positions i and j of c that are both already
      in view, so that the fact about one position never mentions a new one. */
  ghost predicate IsCycle(m: VMap, c: seq<VertexId>)
  {
    && Distinct(c)
    && |m| == |c|
    && (forall i | 0 <= i < |c| :: c[i] in m)
    && (forall i {:trigger m[c[i]]} | 0 <= i < |c| :: m[c[i]].id == c[i])
    && CycleLinks(m, c)
  }

  /** The next link of position i names position NextIndex(i), its prev link
      position PrevIndex(i). */
  ghost predicate CycleLinks(m: VMap, c: seq<VertexId>)
    requires forall i | 0 <= i < |c| :: c[i] in m
  {
    forall i, j {:trigger m[c[i]], c[j]} | 0 <= i < |c| && 0 <= j < |c| ::
      && (j == NextIndex(|c|, i) ==> m[c[i]].next == c[j])
      && (j == PrevIndex(|c|, i) ==> m[c[i]].prev == c[j])
  }

  /** Assembles IsCycle from its parts. */
  lemma CycleIntro(m: VMap, c: seq<VertexId>)
    requires Distinct(c) && |m| == |c|
    requires forall i | 0 <= i < |c| :: c[i] in m
    requires forall i {:trigger m[c[i]]} | 0 <= i < |c| :: m[c[i]].id == c[i]
    requires CycleLinks(m, c)
    ensures IsCycle(m, c)
  {
  }

  /** Every link of every vertex names a vertex of the map. */
  predicate Linked(m: VMap)
  {
    forall k {:trigger m[k]} | k in m :: m[k].prev in m && m[k].next in m
  }

  /** Every vertex is stored under its own id. */
  predicate KeyedById(m: VMap)
  {
    forall k {:trigger m[k]} | k in m :: m[k].id == k
  }

  /** The cycle without its j-th entry. */
  function RemoveAt<T>(c: seq<T>, j: nat): (r: seq<T>)
    requires j < |c|
    ensures |r| == |c| - 1
    ensures forall i {:trigger r[i]} | 0 <= i < |r| :: r[i] == if i < j then c[i] else c[i + 1]
  {
    c[..j] + c[j + 1..]
  }

  /** In a sequence without repetitions equal entries sit at one index. */
  lemma DistinctIndex<T>(c: seq<T>, a: nat, b: nat)
    requires Distinct(c) && a < |c| && b < |c| && c[a] == c[b]
    ensures a == b
  {
  }

  /** Removing an entry keeps the entries distinct. */
  lemma RemoveAtDistinct<T>(c: seq<T>, j: nat)
    requires Distinct(c) && j < |c|
    ensures Distinct(RemoveAt(c, j))
  {
    var r := RemoveAt(c, j);
    forall a, b | 0 <= a < b < |r|
      ensures r[a] != r[b]
    {
      assert r[a] == c[if a < j then a else a + 1];
      assert r[b] == c[if b < j then b else b + 1];
    }
  }

  /** The coordinates met along the ids of c. */
  function CycleCoords(m: VMap, c: seq<VertexId>): (ps: seq<Point>)
    requires forall i | 0 <= i < |c| :: c[i] in m
    ensures |ps| == |c|
    ensures forall i | 0 <= i < |c| :: ps[i] == m[c[i]].coords
  {
    seq(|c|, i requires 0 <= i < |c| => m[c[i]].coords)
  }

  /** A cycle determines the map's size, keys every vertex by its id, and
      keeps every link inside the map; with two or more vertices no vertex
      is its own neighbour. */
  lemma CycleFacts(m: VMap, c: seq<VertexId>)
    requires IsCycle(m, c)
    ensures |m| == |c|
    ensures Linked(m) && KeyedById(m)
    ensures |c| >= 2 ==> NoSelfLinks(m)
  {
    CycleLinked(m, c);
    CycleKeyed(m, c);
    if |c| >= 2 {
      CycleNoSelfLinks(m, c);
    }
  }

  /** No vertex is its own neighbour. */
  predicate NoSelfLinks(m: VMap)
  {
    forall k | k in m :: m[k].prev != k && m[k].next != k
  }

  lemma CycleLinked(m: VMap, c: seq<VertexId>)
    requires IsCycle(m, c)
    ensures Linked(m)
  {
    forall k | k in m
      ensures m[k].prev in m && m[k].next in m
    {
      CycleAtKey(m, c, k);
    }
  }

  lemma CycleKeyed(m: VMap, c: seq<VertexId>)
    requires IsCycle(m, c)
    ensures KeyedById(m)
  {
    forall k | k in m
      ensures m[k].id == k
    {
      CycleAtKey(m, c, k);
    }
  }

  lemma CycleNoSelfLinks(m: VMap, c: seq<VertexId>)
    requires IsCycle(m, c) && |c| >= 2
    ensures NoSelfLinks(m)
  {
    forall k | k in m
      ensures m[k].prev != k && m[k].next != k
    {
      CycleAtKey(m, c, k);
    }
  }

  lemma CycleAtKey(m: VMap, c: seq<VertexId>, k: VertexId)
    requires IsCycle(m, c)
    requires k in m
    ensures m[k].id == k
    ensures m[k].next in m && m[k].prev in m
    ensures |c| >= 2 ==> m[k].next != k && m[k].prev != k
  {
    KeyOnCycle(m, c, k);
    var i :| 0 <= i < |c| && c[i] == k;
    CycleAt(m, c, i);
  }

  /** The keys of the map are exactly the ids on the cycle. */
  lemma KeyOnCycle(m: VMap, c: seq<VertexId>, k: VertexId)
    requires IsCycle(m, c)
    ensures k in m <==> k in c
  {
    KeysAreCycle(m, c);
  }

  lemma KeysAreCycle(m: VMap, c: seq<VertexId>)
    requires IsCycle(m, c)
    ensures m.Keys == set x | x in c
  {
    var s := set x | x in c;
    DistinctCard(c);
    assert s <= m.Keys;
    assert |m.Keys - s| == 0;
  }

  /** The neighbours of the i-th vertex of a cycle. */
  lemma CycleAt(m: VMap, c: seq<VertexId>, i: nat)
    requires IsCycle(m, c)
    requires i < |c|
    ensures c[i] in m && m[c[i]].id == c[i]
    ensures m[c[i]].next == c[NextIndex(|c|, i)] && m[c[i]].prev == c[PrevIndex(|c|, i)]
    ensures m[c[i]].next in m && m[c[i]].prev in m
    ensures |c| >= 2 ==> m[c[i]].next != c[i] && m[c[i]].prev != c[i]
  {
    var nx, pv := NextIndex(|c|, i), PrevIndex(|c|, i);
    assert c[nx] in c && c[pv] in c;
  }


  /** Dropping an id from the cycle drops its point from the coordinates. */
  lemma CycleCoordsRemoveAt(m: VMap, c: seq<VertexId>, j: nat)
    requires forall i | 0 <= i < |c| :: c[i] in m
    requires j < |c|
    ensures CycleCoords(m, RemoveAt(c, j)) == RemoveAt(CycleCoords(m, c), j)
  {
  }

  /** Maps that agree on the coordinates of the ids in c give the same walk. */
  lemma CycleCoordsAgree(m: VMap, m': VMap, c: seq<VertexId>)
    requires forall i | 0 <= i < |c| :: c[i] in m && c[i] in m' && m[c[i]].coords == m'[c[i]].coords
    ensures CycleCoords(m, c) == CycleCoords(m', c)
  {
  }
}
