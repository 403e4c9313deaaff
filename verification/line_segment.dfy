/** Segments between two points and the area-sign predicates built on them
    (computational_geometry/src/line_segment.rs). The point-side predicates
    `between`, `left` and `left_on` of computational_geometry/src/point.rs are
    declared here too: they are phrased over a segment, and the source's
    point -> segment -> triangle -> point references would otherwise form a
    cycle of modules. */
module LineSegments {
  import opened Points
  import opened Triangles

  datatype LineSegment = LineSegment(p1: Point, p2: Point)

  /** The same segment traversed from p2 to p1: the endpoints swap, and the
      segment stays vertical or horizontal if it was. */
  function Reverse(s: LineSegment): (r: LineSegment)
    ensures r.p1 == s.p2 && r.p2 == s.p1
    ensures IsVertical(r) == IsVertical(s) && IsHorizontal(r) == IsHorizontal(s)
  {
    LineSegment(s.p2, s.p1)
  }

  /** The segment is parallel to the y axis: its endpoints and the point one
      unit above p1 are collinear. */
  function IsVertical(s: LineSegment): (r: bool)
    ensures r <==> DoubleArea(Triangle(s.p1, s.p2, Point(s.p1.x, s.p1.y + 1))) == 0
  {
    s.p1.x == s.p2.x
  }

  /** The segment is parallel to the x axis: its endpoints and the point one
      unit right of p1 are collinear. */
  function IsHorizontal(s: LineSegment): (r: bool)
    ensures r <==> DoubleArea(Triangle(s.p1, s.p2, Point(s.p1.x + 1, s.p1.y))) == 0
  {
    s.p1.y == s.p2.y
  }

  /** Reversal is an involution that keeps both the vertical and horizontal
      tests, and a segment is both vertical and horizontal exactly when its
      endpoints coincide. */
  lemma ReverseProperties(s: LineSegment)
    ensures Reverse(Reverse(s)) == s
    ensures Reverse(s).p1 == s.p2 && Reverse(s).p2 == s.p1
    ensures IsVertical(Reverse(s)) == IsVertical(s)
    ensures IsHorizontal(Reverse(s)) == IsHorizontal(s)
    ensures IsVertical(s) && IsHorizontal(s) <==> s.p1 == s.p2
  {
  }

  /** Membership in the half-open range lo..hi (Rust's `Range::contains`). */
  function InRange(lo: int, hi: int, v: int): bool
  {
    lo <= v < hi
  }

  /** `c` lies on the segment ab: the three points are collinear and the
      coordinate that is compared (y for a vertical ab, x otherwise) lies in
      the half-open range between the endpoints', taken in either direction. */
  function Between(c: Point, a: Point, b: Point): (r: bool)
    ensures r ==> HasCollinearPoints(Triangle(a, b, c)) && a != b
  {
    if !HasCollinearPoints(Triangle(a, b, c)) then false
    else if IsVertical(LineSegment(a, b)) then InRange(a.y, b.y, c.y) || InRange(b.y, a.y, c.y)
    else InRange(a.x, b.x, c.x) || InRange(b.x, a.x, c.x)
  }

  /** `p` lies strictly to the left of the directed line through ab: the
      triangle ab p is counter-clockwise. */
  function Left(p: Point, ab: LineSegment): (r: bool)
    ensures r <==> AreaSign(Triangle(ab.p1, ab.p2, p)) == 1
  {
    DoubleArea(Triangle(ab.p1, ab.p2, p)) > 0
  }

  /** `p` lies to the left of, or on, the directed line through ab: the
      triangle ab p is not clockwise, so p is not strictly left of ba. */
  function LeftOn(p: Point, ab: LineSegment): (r: bool)
    ensures r <==> AreaSign(Triangle(ab.p1, ab.p2, p)) >= 0
    ensures r <==> !Left(p, Reverse(ab))
  {
    OrientationSymmetries(ab.p1, ab.p2, p);
    DoubleArea(Triangle(ab.p1, ab.p2, p)) >= 0
  }

  /** Left implies LeftOn; failing LeftOn means lying strictly left of the
      reversed segment; and the two sides of a line exclude each other. */
  lemma SidesOfALine(p: Point, ab: LineSegment)
    ensures Left(p, ab) ==> LeftOn(p, ab)
    ensures !LeftOn(p, ab) <==> Left(p, Reverse(ab))
    ensures !(Left(p, ab) && Left(p, Reverse(ab)))
    ensures LeftOn(p, ab) && LeftOn(p, Reverse(ab)) <==> HasCollinearPoints(Triangle(ab.p1, ab.p2, p))
  {
    OrientationSymmetries(ab.p1, ab.p2, p);
  }

  /** The closed segment ab: collinear with a and b and inside their bounding box. */
  ghost predicate OnSegment(c: Point, a: Point, b: Point)
  {
    && DoubleArea(Triangle(a, b, c)) == 0
    && (a.x <= c.x <= b.x || b.x <= c.x <= a.x)
    && (a.y <= c.y <= b.y || b.y <= c.y <= a.y)
  }

  /** Cancelling a positive factor from a product preserves order. */
  lemma CancelPositive(d: int, u: int, v: int)
    requires d > 0
    ensures d * u < d * v <==> u < v
    ensures d * u == d * v <==> u == v
  {
    if u < v {
      assert d * v - d * u == d * (v - u);
    } else if v < u {
      assert d * u - d * v == d * (u - v);
    }
  }

  /** Along a non-vertical line, a point whose x lies between the endpoints'
      has its y between theirs too. */
  lemma CollinearProjection(a: Point, b: Point, c: Point)
    requires a.x < b.x && a.x <= c.x <= b.x
    requires DoubleArea(Triangle(a, b, c)) == 0
    ensures a.y <= c.y <= b.y || b.y <= c.y <= a.y
    ensures c.x == b.x ==> c == b
    ensures c.x == a.x ==> c == a
  {
    var d, t, h, u := b.x - a.x, c.x - a.x, b.y - a.y, c.y - a.y;
    assert d * u == t * h;
    if h >= 0 {
      ScaledBetween(d, t, h, u);
    } else {
      ScaledBetween(d, t, -h, -u);
    }
  }

  /** The integer core of CollinearProjection: if u/h == t/d with
      0 <= t <= d, then u lies between 0 and h. */
  lemma ScaledBetween(d: int, t: int, h: int, u: int)
    requires d > 0 && 0 <= t <= d && h >= 0
    requires d * u == t * h
    ensures 0 <= u <= h
    ensures t == d ==> u == h
    ensures t == 0 ==> u == 0
  {
    assert 0 <= t * h <= d * h by {
      assert d * h - t * h == (d - t) * h;
    }
    assert d * 0 == 0;
    CancelPositive(d, u, 0);
    CancelPositive(d, u, h);
  }


  /** A point that is `between` a and b lies on the closed segment ab, and it
      is never the endpoint with the larger compared coordinate. */
  lemma BetweenIsOnSegment(c: Point, a: Point, b: Point)
    requires Between(c, a, b)
    ensures OnSegment(c, a, b)
    ensures a != b
    ensures IsVertical(LineSegment(a, b)) ==> c.y != (if a.y < b.y then b.y else a.y)
    ensures !IsVertical(LineSegment(a, b)) ==> c.x != (if a.x < b.x then b.x else a.x)
  {
    OrientationSymmetries(a, b, c);
    if a.x == b.x {
      assert DoubleArea(Triangle(a, b, c)) == -((c.x - a.x) * (b.y - a.y));
      assert a.y != b.y;
    } else if a.x < b.x {
      CollinearProjection(a, b, c);
    } else {
      CollinearProjection(b, a, c);
    }
  }

  /** Every point of the closed segment other than its endpoints is `between`
      them. */
  lemma InteriorIsBetween(c: Point, a: Point, b: Point)
    requires OnSegment(c, a, b) && c != a && c != b
    ensures Between(c, a, b)
  {
    OrientationSymmetries(a, b, c);
    if a.x == b.x {
      assert c.x == a.x;
    } else if a.x < b.x {
      CollinearProjection(a, b, c);
    } else {
      CollinearProjection(b, a, c);
    }
  }

  /** `between` does not depend on the order of the two endpoints, needs the
      three points collinear, and is false for a degenerate segment. */
  lemma BetweenBasics(c: Point, a: Point, b: Point)
    ensures Between(c, a, b) == Between(c, b, a)
    ensures Between(c, a, b) ==> HasCollinearPoints(Triangle(a, b, c))
    ensures !Between(c, a, a)
  {
    OrientationSymmetries(a, b, c);
  }

  /** The cases of the source's tests: on the diagonal through (0,0), (1,1),
      (2,2) and on the vertical through (0,0), (0,1), (0,2), the middle point is
      between the outer two, the lower endpoint counts as between, and the
      points outside are not between. */
  lemma BetweenExamples()
    ensures var p0, p1, p2 := Point(0, 0), Point(1, 1), Point(2, 2);
      Between(p1, p0, p2) && Between(p1, p2, p1) && !Between(p0, p1, p2)
      && !Between(p0, p2, p1) && !Between(p2, p0, p1) && !Between(p2, p1, p0)
    ensures var p0, p1, p2 := Point(0, 0), Point(0, 1), Point(0, 2);
      Between(p1, p0, p2) && Between(p1, p2, p1) && !Between(p0, p1, p2)
      && !Between(p0, p2, p1) && !Between(p2, p0, p1) && !Between(p2, p1, p0)
  {
  }

  /** `p` and `q` lie strictly on opposite sides of the line through s. */
  ghost predicate StrictlyOpposite(s: LineSegment, p: Point, q: Point)
  {
    (Left(p, s) && Left(q, Reverse(s))) || (Left(q, s) && Left(p, Reverse(s)))
  }

  /** The segments cross at a single point interior to both: no three of
      the four endpoints are collinear and each segment splits the other. */
  function ProperIntersects(ab: LineSegment, cd: LineSegment): (r: bool)
    ensures r ==> Left(cd.p1, ab) != Left(cd.p2, ab) && Left(ab.p1, cd) != Left(ab.p2, cd)
    ensures r ==> !HasCollinearPoints(Triangle(ab.p1, ab.p2, cd.p1))
                  && !HasCollinearPoints(Triangle(ab.p1, ab.p2, cd.p2))
                  && !HasCollinearPoints(Triangle(cd.p1, cd.p2, ab.p1))
                  && !HasCollinearPoints(Triangle(cd.p1, cd.p2, ab.p2))
  {
    var a, b, c, d := ab.p1, ab.p2, cd.p1, cd.p2;
    var abc, abd := Triangle(a, b, c), Triangle(a, b, d);
    var cda, cdb := Triangle(c, d, a), Triangle(c, d, b);
    var hasCollinearPoints :=
      HasCollinearPoints(abc) || HasCollinearPoints(abd) ||
      HasCollinearPoints(cda) || HasCollinearPoints(cdb);
    if hasCollinearPoints then false
    else
      var abSplitsCd := AreaSign(abc) * AreaSign(abd) < 0;
      var cdSplitsAb := AreaSign(cda) * AreaSign(cdb) < 0;
      abSplitsCd && cdSplitsAb
  }

  /** Proper intersection means: c and d lie strictly on opposite sides of ab,
      and a and b strictly on opposite sides of cd. In particular it is false
      as soon as one of the triples abc, abd, cda, cdb is collinear. */
  lemma ProperIntersectsIff(ab: LineSegment, cd: LineSegment)
    ensures ProperIntersects(ab, cd) <==>
      StrictlyOpposite(ab, cd.p1, cd.p2) && StrictlyOpposite(cd, ab.p1, ab.p2)
    ensures (HasCollinearPoints(Triangle(ab.p1, ab.p2, cd.p1)) ||
             HasCollinearPoints(Triangle(ab.p1, ab.p2, cd.p2)) ||
             HasCollinearPoints(Triangle(cd.p1, cd.p2, ab.p1)) ||
             HasCollinearPoints(Triangle(cd.p1, cd.p2, ab.p2))) ==> !ProperIntersects(ab, cd)
  {
    OrientationSymmetries(ab.p1, ab.p2, cd.p1);
    OrientationSymmetries(ab.p1, ab.p2, cd.p2);
    OrientationSymmetries(cd.p1, cd.p2, ab.p1);
    OrientationSymmetries(cd.p1, cd.p2, ab.p2);
  }

  /** Proper intersection does not depend on which segment is asked, nor on
      the direction of either segment. */
  lemma ProperIntersectsSymmetries(ab: LineSegment, cd: LineSegment)
    ensures ProperIntersects(ab, cd) == ProperIntersects(cd, ab)
    ensures ProperIntersects(ab, cd) == ProperIntersects(Reverse(ab), cd)
    ensures ProperIntersects(ab, cd) == ProperIntersects(ab, Reverse(cd))
  {
    OrientationSymmetries(ab.p1, ab.p2, cd.p1);
    OrientationSymmetries(ab.p1, ab.p2, cd.p2);
    OrientationSymmetries(cd.p1, cd.p2, ab.p1);
    OrientationSymmetries(cd.p1, cd.p2, ab.p2);
  }

  /** The segments touch at an endpoint of one of them; such a touch is
      never also a proper crossing. */
  function ImproperIntersects(ab: LineSegment, cd: LineSegment): (r: bool)
    ensures r ==> HasCollinearPoints(Triangle(ab.p1, ab.p2, cd.p1))
                  || HasCollinearPoints(Triangle(ab.p1, ab.p2, cd.p2))
                  || HasCollinearPoints(Triangle(cd.p1, cd.p2, ab.p1))
                  || HasCollinearPoints(Triangle(cd.p1, cd.p2, ab.p2))
    ensures r ==> !ProperIntersects(ab, cd)
  {
    var a, b, c, d := ab.p1, ab.p2, cd.p1, cd.p2;
    BetweenBasics(c, a, b);
    BetweenBasics(d, a, b);
    BetweenBasics(a, c, d);
    BetweenBasics(b, c, d);
    Between(c, a, b) || Between(d, a, b) || Between(a, c, d) || Between(b, c, d)
  }

  /** An improper intersection is symmetric and direction-blind, puts an
      endpoint of one segment on the other closed segment, and excludes a
      proper intersection. */
  lemma ImproperIntersectsProperties(ab: LineSegment, cd: LineSegment)
    ensures ImproperIntersects(ab, cd) == ImproperIntersects(cd, ab)
    ensures ImproperIntersects(ab, cd) == ImproperIntersects(Reverse(ab), cd)
    ensures ImproperIntersects(ab, cd) ==>
      OnSegment(cd.p1, ab.p1, ab.p2) || OnSegment(cd.p2, ab.p1, ab.p2) ||
      OnSegment(ab.p1, cd.p1, cd.p2) || OnSegment(ab.p2, cd.p1, cd.p2)
    ensures ImproperIntersects(ab, cd) ==> !ProperIntersects(ab, cd)
  {
    var a, b, c, d := ab.p1, ab.p2, cd.p1, cd.p2;
    BetweenBasics(c, a, b);
    BetweenBasics(d, a, b);
    BetweenBasics(a, c, d);
    BetweenBasics(b, c, d);
    if Between(c, a, b) { BetweenIsOnSegment(c, a, b); }
    if Between(d, a, b) { BetweenIsOnSegment(d, a, b); }
    if Between(a, c, d) { BetweenIsOnSegment(a, c, d); }
    if Between(b, c, d) { BetweenIsOnSegment(b, c, d); }
  }

  /** The segments meet, either properly or improperly; the two kinds
      exclude each other, so exactly one of them holds. */
  function Intersects(ab: LineSegment, cd: LineSegment): (r: bool)
    ensures r <==> ProperIntersects(ab, cd) != ImproperIntersects(ab, cd)
  {
    ProperIntersects(ab, cd) || ImproperIntersects(ab, cd)
  }

  /** Intersection is symmetric; a non-degenerate segment meets itself
      improperly but not properly. */
  lemma IntersectsProperties(ab: LineSegment, cd: LineSegment)
    ensures Intersects(ab, cd) == Intersects(cd, ab)
    ensures Intersects(ab, cd) == Intersects(Reverse(ab), cd)
    ensures ab.p1 != ab.p2 ==>
      !ProperIntersects(ab, ab) && ImproperIntersects(ab, ab) && Intersects(ab, ab)
  {
    ProperIntersectsSymmetries(ab, cd);
    ImproperIntersectsProperties(ab, cd);
    var a, b := ab.p1, ab.p2;
    if a != b {
      RepeatedPointIsCollinear(a, b, a);
      if a.x == b.x {
        assert InRange(a.y, b.y, a.y) || InRange(b.y, a.y, b.y);
      } else {
        assert InRange(a.x, b.x, a.x) || InRange(b.x, a.x, b.x);
      }
    }
  }

  /** `p` is one of the segment's endpoints. */
  function IncidentTo(s: LineSegment, p: Point): (r: bool)
    ensures r ==> HasCollinearPoints(Triangle(s.p1, s.p2, p))
  {
    s.p1 == p || s.p2 == p
  }

  /** The two segments share an endpoint. */
  function ConnectedTo(s: LineSegment, cd: LineSegment): (r: bool)
    ensures r ==> HasCollinearPoints(Triangle(s.p1, s.p2, cd.p1)) || HasCollinearPoints(Triangle(s.p1, s.p2, cd.p2))
  {
    IncidentTo(s, cd.p1) || IncidentTo(s, cd.p2)
  }

  /** Connection means sharing an endpoint, so it is symmetric and blind to
      direction. */
  lemma ConnectedToSymmetric(s: LineSegment, t: LineSegment)
    ensures ConnectedTo(s, t) <==> s.p1 == t.p1 || s.p1 == t.p2 || s.p2 == t.p1 || s.p2 == t.p2
    ensures ConnectedTo(s, t) == ConnectedTo(t, s)
    ensures ConnectedTo(s, t) == ConnectedTo(Reverse(s), t)
    ensures ConnectedTo(s, t) == ConnectedTo(s, Reverse(t))
  {
  }

  /** The source's four intersection tests: a crossing, a touch at an
      endpoint, disjoint segments, and a segment against itself. */
  lemma IntersectionExamples()
    ensures var ab, cd := LineSegment(Point(6, 4), Point(0, 4)), LineSegment(Point(1, 0), Point(4, 6));
      ProperIntersects(ab, cd) && ProperIntersects(cd, ab) && !ImproperIntersects(ab, cd)
      && !ImproperIntersects(cd, ab) && Intersects(ab, cd) && Intersects(cd, ab)
    ensures var ab, cd := LineSegment(Point(6, 6), Point(0, 6)), LineSegment(Point(1, 0), Point(4, 6));
      !ProperIntersects(ab, cd) && !ProperIntersects(cd, ab) && ImproperIntersects(ab, cd)
      && ImproperIntersects(cd, ab) && Intersects(ab, cd) && Intersects(cd, ab)
    ensures var ab, cd := LineSegment(Point(6, 4), Point(4, 4)), LineSegment(Point(1, 0), Point(4, 6));
      !ProperIntersects(ab, cd) && !ProperIntersects(cd, ab) && !ImproperIntersects(ab, cd)
      && !ImproperIntersects(cd, ab) && !Intersects(ab, cd) && !Intersects(cd, ab)
    ensures var ab := LineSegment(Point(6, 4), Point(4, 4));
      !ProperIntersects(ab, ab) && ImproperIntersects(ab, ab) && Intersects(ab, ab)
  {
  }
}
