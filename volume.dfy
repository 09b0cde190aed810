// Axis-aligned bounding boxes of the agent spatial index: the volume type the
// bounding-volume tree is instantiated with. Coordinates are exact reals
// standing in for the source's 32-bit floats.
module Volumes {

  datatype Vec3 = Vec3(x: real, y: real, z: real)

  function Add3(a: Vec3, b: Vec3): Vec3 { Vec3(a.x + b.x, a.y + b.y, a.z + b.z) }
  function Sub3(a: Vec3, b: Vec3): Vec3 { Vec3(a.x - b.x, a.y - b.y, a.z - b.z) }
  function Min(a: real, b: real): real { if a <= b then a else b }
  function Max(a: real, b: real): real { if a >= b then a else b }
  function Abs(a: real): real { if a < 0.0 then -a else a }

  /** A box with corners `min` and `max` (float3 Min, Max). */
  datatype AABB = AABB(min: Vec3, max: Vec3)

  /** The all-zero box, the value `default(AABB)` has in the source. */
  const Zero: AABB := AABB(Vec3(0.0, 0.0, 0.0), Vec3(0.0, 0.0, 0.0))

  /** The corners are ordered on every axis. */
  predicate WellFormed(a: AABB)
  {
    a.min.x <= a.max.x && a.min.y <= a.max.y && a.min.z <= a.max.z
  }

  /** `outer` contains `inner` on every axis. */
  predicate Encloses(outer: AABB, inner: AABB)
  {
    outer.min.x <= inner.min.x && outer.min.y <= inner.min.y && outer.min.z <= inner.min.z &&
    inner.max.x <= outer.max.x && inner.max.y <= outer.max.y && inner.max.z <= outer.max.z
  }

  /** Twice the sum of the three face areas (AABB.SurfaceArea). */
  function SurfaceArea(a: AABB): real
  {
    var d := Sub3(a.max, a.min);
    2.0 * (d.x * d.y + d.y * d.z + d.z * d.x)
  }

  /** Componentwise min of the minima and max of the maxima (AABB.Union). */
  function Union(a: AABB, b: AABB): (u: AABB)
    ensures Encloses(u, a) && Encloses(u, b)
  {
    AABB(Vec3(Min(a.min.x, b.min.x), Min(a.min.y, b.min.y), Min(a.min.z, b.min.z)),
         Vec3(Max(a.max.x, b.max.x), Max(a.max.y, b.max.y), Max(a.max.z, b.max.z)))
  }

  /**
   * AABB.Overlap(AABB): on every axis `a`'s maximum lies strictly above `b`'s
   * minimum and `a`'s minimum lies at or below `b`'s maximum.
   */
  predicate Overlap(a: AABB, b: AABB)
  {
    a.max.x > b.min.x && a.max.y > b.min.y && a.max.z > b.min.z &&
    a.min.x <= b.max.x && a.min.y <= b.max.y && a.min.z <= b.max.z
  }

  /** Sum over the axes of the distance from `p` to the box centre (AABB.DistanceToPoint). */
  function DistanceToPoint(a: AABB, p: Vec3): (d: real)
    ensures d >= 0.0
  {
    Abs(p.x - (a.max.x + a.min.x) * 0.5) + Abs(p.y - (a.max.y + a.min.y) * 0.5) + Abs(p.z - (a.max.z + a.min.z) * 0.5)
  }

  /** The union is the smallest box that encloses both operands. */
  lemma UnionIsLeast(a: AABB, b: AABB, c: AABB)
    requires Encloses(c, a) && Encloses(c, b)
    ensures Encloses(c, Union(a, b))
  {
  }

  /** Union reads its operands symmetrically. */
  lemma UnionCommutes(a: AABB, b: AABB)
    ensures Union(a, b) == Union(b, a)
  {
  }

  lemma EnclosesTransitive(a: AABB, b: AABB, c: AABB)
    requires Encloses(a, b) && Encloses(b, c)
    ensures Encloses(a, c)
  {
  }

  lemma UnionWellFormed(a: AABB, b: AABB)
    requires WellFormed(a) || WellFormed(b)
    ensures WellFormed(Union(a, b))
  {
  }

  /** A box that encloses one overlapping `q` overlaps `q` as well. */
  lemma OverlapMonotone(outer: AABB, inner: AABB, q: AABB)
    requires Encloses(outer, inner) && Overlap(inner, q)
    ensures Overlap(outer, q)
  {
  }

  lemma MulMonotone(a: real, b: real, c: real, d: real)
    requires 0.0 <= a <= c && 0.0 <= b <= d
    ensures a * b <= c * d
  {
    assert a * b <= c * b;
    assert c * b <= c * d;
  }

  /** Surface area can only grow from a well-formed box to a box enclosing it. */
  lemma SurfaceAreaMonotone(outer: AABB, inner: AABB)
    requires WellFormed(inner) && Encloses(outer, inner)
    ensures SurfaceArea(inner) <= SurfaceArea(outer)
  {
    var di, do := Sub3(inner.max, inner.min), Sub3(outer.max, outer.min);
    MulMonotone(di.x, di.y, do.x, do.y);
    MulMonotone(di.y, di.z, do.y, do.z);
    MulMonotone(di.z, di.x, do.z, do.x);
  }

  /** A well-formed box has a non-negative surface area. */
  lemma SurfaceAreaNonNegative(a: AABB)
    requires WellFormed(a)
    ensures SurfaceArea(a) >= 0.0
  {
    var d := Sub3(a.max, a.min);
    MulMonotone(0.0, 0.0, d.x, d.y);
    MulMonotone(0.0, 0.0, d.y, d.z);
    MulMonotone(0.0, 0.0, d.z, d.x);
  }
}
