/** The older segment test of src/line_segment.rs: a segment between two
    legacy vertices and its proper-intersection test, which is the newer
    kernel's test read on the vertices' coordinates. */
module LegacyLineSegments {
  import opened Points
  import opened LegacyTriangles
  import LineSegments

  datatype LegacySegment = LegacySegment(a: LegacyVertex, b: LegacyVertex)

  /** The kernel segment between the same two points. */
  function AsSegment(s: LegacySegment): LineSegments.LineSegment
  {
    LineSegments.LineSegment(Coords(s.a), Coords(s.b))
  }

  /** `proper_intersection`: false as soon as one of the triangles abc, abd,
      cda, cdb is collinear; otherwise ab must split cd and cd split ab (the
      two area signs of each pair multiply to a negative number). */
  function ProperIntersection(ls1: LegacySegment, ls2: LegacySegment): (r: bool)
    ensures r == LineSegments.ProperIntersects(AsSegment(ls1), AsSegment(ls2))
  {
    var a, b, c, d := ls1.a, ls1.b, ls2.a, ls2.b;
    var abc, abd := LegacyTriangle(a, b, c), LegacyTriangle(a, b, d);
    var cda, cdb := LegacyTriangle(c, d, a), LegacyTriangle(c, d, b);
    var hasCollinearPoints :=
      HasCollinearPoints(abc) || HasCollinearPoints(abd) ||
      HasCollinearPoints(cda) || HasCollinearPoints(cdb);
    if hasCollinearPoints then false
    else
      var abSplitsCd := AreaSign(abc) * AreaSign(abd) < 0;
      var cdSplitsAb := AreaSign(cda) * AreaSign(cdb) < 0;
      abSplitsCd && cdSplitsAb
  }

  /** Proper intersection holds exactly when c and d lie strictly on
      opposite sides of ab and a and b strictly on opposite sides of cd; a
      collinear triple rules it out. */
  lemma ProperIntersectionIff(ls1: LegacySegment, ls2: LegacySegment)
    ensures ProperIntersection(ls1, ls2) <==>
      && LineSegments.StrictlyOpposite(AsSegment(ls1), Coords(ls2.a), Coords(ls2.b))
      && LineSegments.StrictlyOpposite(AsSegment(ls2), Coords(ls1.a), Coords(ls1.b))
    ensures (|| HasCollinearPoints(LegacyTriangle(ls1.a, ls1.b, ls2.a))
             || HasCollinearPoints(LegacyTriangle(ls1.a, ls1.b, ls2.b))
             || HasCollinearPoints(LegacyTriangle(ls2.a, ls2.b, ls1.a))
             || HasCollinearPoints(LegacyTriangle(ls2.a, ls2.b, ls1.b)))
            ==> !ProperIntersection(ls1, ls2)
  {
    LineSegments.ProperIntersectsIff(AsSegment(ls1), AsSegment(ls2));
  }

  /** The test is symmetric in its two segments and blind to the direction
      of either: the two signs of a pair flip together. */
  lemma ProperIntersectionSymmetries(ls1: LegacySegment, ls2: LegacySegment)
    ensures ProperIntersection(ls1, ls2) == ProperIntersection(ls2, ls1)
    ensures ProperIntersection(ls1, ls2) == ProperIntersection(LegacySegment(ls1.b, ls1.a), ls2)
    ensures ProperIntersection(ls1, ls2) == ProperIntersection(ls1, LegacySegment(ls2.b, ls2.a))
  {
    LineSegments.ProperIntersectsSymmetries(AsSegment(ls1), AsSegment(ls2));
  }
}
