/** World-space vectors and axis-aligned boxes, the parts of three.js's Vector3 and Box3
    that the simulation relies on. Coordinates are reals; rounding of IEEE doubles is
    not modelled. */
module Geometry {

  datatype Vec3 = Vec3(x: real, y: real, z: real)

  function Add(a: Vec3, b: Vec3): Vec3 { Vec3(a.x + b.x, a.y + b.y, a.z + b.z) }

  function Sub(a: Vec3, b: Vec3): Vec3 { Vec3(a.x - b.x, a.y - b.y, a.z - b.z) }

  function Scale(v: Vec3, s: real): Vec3 { Vec3(v.x * s, v.y * s, v.z * s) }

  /** The square of Vector3.distanceTo; thresholds are compared squared. */
  function Dist2(a: Vec3, b: Vec3): real
  {
    (a.x - b.x) * (a.x - b.x) + (a.y - b.y) * (a.y - b.y) + (a.z - b.z) * (a.z - b.z)
  }

  /** A Box3, given by its two corners. */
  datatype Box = Box(min: Vec3, max: Vec3)

  /** Box3.setFromCenterAndSize: the box of the given size centred on `c`. */
  function FromCenterAndSize(c: Vec3, size: Vec3): Box
  {
    Box(Sub(c, Scale(size, 0.5)), Add(c, Scale(size, 0.5)))
  }

  /** Box3.intersectsBox: the boxes are not separated along any axis (touching faces
      count as an intersection). */
  predicate Intersects(a: Box, b: Box)
  {
    !(b.max.x < a.min.x || b.min.x > a.max.x ||
      b.max.y < a.min.y || b.min.y > a.max.y ||
      b.max.z < a.min.z || b.min.z > a.max.z)
  }

  /** The 1 x 2 x 1 box that the player and the enemy test against walls. */
  const EntitySize: Vec3 := Vec3(1.0, 2.0, 1.0)

  function EntityBox(c: Vec3): Box { FromCenterAndSize(c, EntitySize) }

  /** World coordinate of the centre of tile index `t` along one axis. */
  function TileCenter(t: int, wallSize: real, offset: real): real
  {
    t as real * wallSize + offset
  }

  /** The offset that centres a `size`-tile-wide maze on the world origin:
      -size * wallSize / 2 + wallSize / 2. */
  function Offset(size: int, wallSize: real): real
  {
    -(size as real) * wallSize / 2.0 + wallSize / 2.0
  }

  /** The tile centres of a maze straddle the origin symmetrically: the centre of tile 0
      and the centre of tile size-1 are opposite. */
  lemma OffsetCentresMaze(size: int, wallSize: real)
    ensures TileCenter(0, wallSize, Offset(size, wallSize))
         == -TileCenter(size - 1, wallSize, Offset(size, wallSize))
  {
  }
}
