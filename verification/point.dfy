/** A point of the plane with exact integer coordinates
    (computational_geometry/src/point.rs). */
module Points {

  /** The coordinates are unbounded integers: the kernel's arithmetic is exact. */
  datatype Point = Point(x: int, y: int)

  /** The cross product of the position vectors of `p` and `q`: twice the signed
      area of the triangle (origin, p, q). The shoelace formula sums it. */
  function Cross(p: Point, q: Point): int
  {
    p.x * q.y - q.x * p.y
  }
}
