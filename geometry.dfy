/** Three-dimensional coordinates, as rows of the coordinate arrays. */
module Geometry {

  datatype Coord = Coord(x: real, y: real, z: real)

  /** Sum over the three axes of the squared coordinate difference. */
  function SqDist(a: Coord, b: Coord): (d: real)
    ensures d >= 0.0
    ensures a == b ==> d == 0.0
  {
    (a.x - b.x) * (a.x - b.x) + (a.y - b.y) * (a.y - b.y) + (a.z - b.z) * (a.z - b.z)
  }

  /** Every coordinate divided by `k`. */
  function Divide(c: Coord, k: real): Coord
    requires k != 0.0
  {
    Coord(c.x / k, c.y / k, c.z / k)
  }
}
