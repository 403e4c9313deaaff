/** The shoelace (surveyor's) formula for the double signed area of a closed
    polygonal walk, and the algebra that the polygon's area and its
    triangulation rely on: a fan of triangles from any anchor sums to it, and
    cutting one vertex out of the walk removes exactly the double area of the
    triangle it formed with its two neighbours. */
module ShoelaceFormula {
  import opened Points
  import opened Triangles

  /** The index after / before i on a cycle of length n. */
  function NextIndex(n: nat, i: nat): (r: nat)
    requires i < n
    ensures r < n
  {
    if i + 1 == n then 0 else i + 1
  }

  function PrevIndex(n: nat, i: nat): (r: nat)
    requires i < n
    ensures r < n
  {
    if i == 0 then n - 1 else i - 1
  }

  /** Reducing a number in [0, 2n] modulo n. */
  lemma ShiftMod(x: int, n: int)
    requires 0 < n && 0 <= x <= 2 * n
    ensures x % n == if x < n then x else if x < 2 * n then x - n else 0
  {
    if x < n {
      assert x == 0 * n + x;
    } else if x < 2 * n {
      assert x == 1 * n + (x - n);
    } else {
      assert x == 2 * n + 0;
    }
  }

  /** Sum of the cross products of consecutive points of an open walk. */
  function Chain(ps: seq<Point>): int
  {
    if |ps| < 2 then 0 else Cross(ps[0], ps[1]) + Chain(ps[1..])
  }

  /** Double signed area of the closed walk ps[0], ..., ps[n-1], ps[0]. */
  function Shoelace(ps: seq<Point>): int
  {
    if ps == [] then 0 else Chain(ps) + Cross(ps[|ps| - 1], ps[0])
  }

  /** Sum of the double areas of the triangles (a, ps[i], ps[i+1]) over the
      open walk. */
  function FanChain(a: Point, ps: seq<Point>): int
  {
    if |ps| < 2 then 0 else DoubleArea(Triangle(a, ps[0], ps[1])) + FanChain(a, ps[1..])
  }

  /** Cross products are antisymmetric. */
  lemma CrossAntisymmetric(p: Point, q: Point)
    ensures Cross(p, q) == -Cross(q, p) && Cross(p, p) == 0
  {
  }

  lemma {:induction false} ChainAppend(s: seq<Point>, t: seq<Point>)
    requires |s| > 0 && |t| > 0
    ensures Chain(s + t) == Chain(s) + Cross(s[|s| - 1], t[0]) + Chain(t)
  {
    if |s| == 1 {
      assert (s + t)[1..] == t;
    } else {
      assert (s + t)[1..] == s[1..] + t;
      ChainAppend(s[1..], t);
    }
  }

  /** A fan from any point telescopes to the chain plus two boundary terms. */
  lemma {:induction false} FanChainIsChain(a: Point, ps: seq<Point>)
    requires |ps| > 0
    ensures FanChain(a, ps) == Chain(ps) + Cross(a, ps[0]) - Cross(a, ps[|ps| - 1])
  {
    if |ps| >= 2 {
      FanChainIsChain(a, ps[1..]);
      DoubleAreaIsShoelace(Triangle(a, ps[0], ps[1]));
      CrossAntisymmetric(a, ps[1]);
    }
  }

  /** The closed fan from any anchor equals the shoelace sum: the polygon's
      double area does not depend on the anchor. */
  lemma FanIsShoelace(a: Point, ps: seq<Point>)
    requires |ps| > 0
    ensures FanChain(a, ps) + DoubleArea(Triangle(a, ps[|ps| - 1], ps[0])) == Shoelace(ps)
  {
    FanChainIsChain(a, ps);
    DoubleAreaIsShoelace(Triangle(a, ps[|ps| - 1], ps[0]));
    CrossAntisymmetric(a, ps[0]);
  }

  /** The open fan anchored at the walk's own first point already equals the
      shoelace sum: the missing closing triangle (ps[0], ps[n-1], ps[0]) is
      degenerate. */
  lemma OpenFanIsShoelace(ps: seq<Point>)
    requires |ps| > 0
    ensures FanChain(ps[0], ps) == Shoelace(ps)
  {
    FanIsShoelace(ps[0], ps);
    RepeatedPointIsCollinear(ps[0], ps[|ps| - 1], ps[0]);
  }

  /** Cutting vertex j out of a closed walk removes exactly the double area of
      the triangle (previous, j, next). */
  lemma RemoveVertexArea(ps: seq<Point>, j: nat)
    requires j < |ps|
    ensures var n := |ps|;
      Shoelace(ps[..j] + ps[j + 1..]) +
        DoubleArea(Triangle(ps[PrevIndex(n, j)], ps[j], ps[NextIndex(n, j)])) == Shoelace(ps)
  {
    var n := |ps|;
    DoubleAreaIsShoelace(Triangle(ps[PrevIndex(n, j)], ps[j], ps[NextIndex(n, j)]));
    if n == 1 {
      assert ps[..j] + ps[j + 1..] == [];
    } else if j == 0 {
      assert ps[..j] + ps[j + 1..] == ps[1..];
      RemoveFirstArea(ps);
    } else if j == n - 1 {
      assert ps[..j] + ps[j + 1..] == ps[..n - 1];
      RemoveLastArea(ps);
    } else {
      RemoveMiddleArea(ps, j);
    }
  }

  lemma RemoveFirstArea(ps: seq<Point>)
    requires 2 <= |ps|
    ensures Shoelace(ps[1..]) + Cross(ps[|ps| - 1], ps[0]) + Cross(ps[0], ps[1]) + Cross(ps[1], ps[|ps| - 1])
      == Shoelace(ps)
  {
    var n := |ps|;
    assert ps == [ps[0]] + ps[1..];
    ChainAppend([ps[0]], ps[1..]);
    CrossAntisymmetric(ps[1], ps[n - 1]);
  }

  lemma RemoveLastArea(ps: seq<Point>)
    requires 2 <= |ps|
    ensures var n := |ps|;
      Shoelace(ps[..n - 1]) + Cross(ps[n - 2], ps[n - 1]) + Cross(ps[n - 1], ps[0]) + Cross(ps[0], ps[n - 2])
      == Shoelace(ps)
  {
    var n := |ps|;
    assert ps == ps[..n - 1] + [ps[n - 1]];
    ChainAppend(ps[..n - 1], [ps[n - 1]]);
    CrossAntisymmetric(ps[0], ps[n - 2]);
  }

  lemma RemoveMiddleArea(ps: seq<Point>, j: nat)
    requires 0 < j < |ps| - 1
    ensures Shoelace(ps[..j] + ps[j + 1..]) + Cross(ps[j - 1], ps[j]) + Cross(ps[j], ps[j + 1]) + Cross(ps[j + 1], ps[j - 1])
      == Shoelace(ps)
  {
    var a, b, v := ps[..j], ps[j + 1..], ps[j];
    assert ps == a + ([v] + b);
    ChainAppend(a, [v] + b);
    ChainAppend([v], b);
    ChainAppend(a, b);
    CrossAntisymmetric(b[0], a[j - 1]);
  }

  /** A closed walk of at most three points is its own triangle, seen from
      any of its vertices. */
  lemma SmallWalkIsTriangle(ps: seq<Point>, j: nat)
    requires 1 <= |ps| <= 3 && j < |ps|
    ensures var n := |ps|;
      Shoelace(ps) == DoubleArea(Triangle(ps[PrevIndex(n, j)], ps[j], ps[NextIndex(n, j)]))
  {
    var n := |ps|;
    DoubleAreaIsShoelace(Triangle(ps[PrevIndex(n, j)], ps[j], ps[NextIndex(n, j)]));
    CrossAntisymmetric(ps[0], ps[n - 1]);
    if n == 3 {
      assert ps[1..][1..] == [ps[2]];
      assert Chain(ps[1..]) == Cross(ps[1], ps[2]);
      assert Shoelace(ps) == Cross(ps[0], ps[1]) + Cross(ps[1], ps[2]) + Cross(ps[2], ps[0]);
    } else if n == 2 {
      assert Chain(ps[1..]) == 0;
      assert Shoelace(ps) == Cross(ps[0], ps[1]) + Cross(ps[1], ps[0]);
    }
  }
}
