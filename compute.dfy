/** The data ver29_GPU/Scene.hpp hands to its culling compute shader: the
    per-instance box records of the `aabbs` buffer, the six frustum planes
    packed as `vec4`s, and the number of work groups to dispatch. */
module Compute {
  import opened LinAlg
  import opened Geometry

  /** `aabo_for_ssbo`: the two corners, each followed by a padding float so
      that every `vec3` occupies 16 bytes. */
  datatype AabbForSsbo = AabbForSsbo(min: Vec3, padding1: real, max: Vec3, padding2: real)

  /** Bytes per record as laid out for the shader (two `vec3` + two floats). */
  const AABB_RECORD_BYTES: nat := 2 * (3 * 4 + 4)

  /** The record `initialize` stores for a world box: corners with zero padding. */
  function PackBox(b: AABB): (r: AabbForSsbo)
    ensures r.padding1 == 0.0 && r.padding2 == 0.0
    ensures UnpackBox(r) == (b.pMin, b.pMax)
  {
    AabbForSsbo(b.pMin, 0.0, b.pMax, 0.0)
  }

  /** What the shader reads back from a record: the two corners. */
  function UnpackBox(r: AabbForSsbo): (Vec3, Vec3) {
    (r.min, r.max)
  }

  /** The record keeps the whole box when the box is consistent: its center
      and extents are determined by the corners. */
  lemma PackBoxKeepsBox(b: AABB)
    requires Consistent(b)
    ensures FromMinMax(UnpackBox(PackBox(b)).0, UnpackBox(PackBox(b)).1) == b
  {
  }

  /** A plane as the shader reads it: `xyz` the normal, `w` the distance. */
  function PackPlane(pl: Plane): Vec4 {
    Vec4(pl.normal.x, pl.normal.y, pl.normal.z, pl.distance)
  }

  function UnpackPlane(v: Vec4): Plane {
    Plane(Vec3(v.x, v.y, v.z), v.w)
  }

  /** `frustumPlanes[6]` in `draw_instance_compute`: top, bottom, left,
      right, near, far. */
  function PackFrustumPlanes(f: Frustum): (p: seq<Vec4>)
    ensures |p| == 6
    ensures forall k :: 0 <= k < 6 ==> UnpackPlane(p[k]) == Faces(f)[k]
  {
    [PackPlane(f.top), PackPlane(f.bottom), PackPlane(f.left),
     PackPlane(f.right), PackPlane(f.near), PackPlane(f.far)]
  }

  /** The frustum the shader sees when it reads the six `vec4`s in that order. */
  function UnpackFrustum(p: seq<Vec4>): Frustum
    requires |p| == 6
  {
    Frustum(top := UnpackPlane(p[0]), bottom := UnpackPlane(p[1]), right := UnpackPlane(p[3]),
            left := UnpackPlane(p[2]), far := UnpackPlane(p[5]), near := UnpackPlane(p[4]))
  }

  /** Reading the packed planes back in the documented order gives the
      frustum that was packed. */
  lemma PackFrustumRoundTrip(f: Frustum)
    ensures UnpackFrustum(PackFrustumPlanes(f)) == f
  {
  }

  /** Every box passes the unpacked frustum exactly when it passes the
      original, so the packed order loses nothing. */
  lemma PackedTestAgrees(b: AABB, f: Frustum)
    ensures IsOnFrustum(b, UnpackFrustum(PackFrustumPlanes(f))) == IsOnFrustum(b, f)
  {
    PackFrustumRoundTrip(f);
  }

  /** `local_size_x` of the compute shader. */
  const WORK_GROUP_SIZE: nat := 256

  /** 2^32: `unsigned int` arithmetic is modulo this. */
  const U32: nat := 0x1_0000_0000

  /** `numGroups = (totalInstances + workGroupSize - 1) / workGroupSize`
      as written, in 32-bit unsigned arithmetic: the sum wraps. */
  function NumGroupsAsWritten(total: nat): nat
    requires total < U32
  {
    ((total + WORK_GROUP_SIZE - 1) % U32) / WORK_GROUP_SIZE
  }

  /** At the largest instance count the sum wraps to 254 and no work group
      is dispatched although there are instances to cull. */
  lemma NumGroupsWraps()
    ensures NumGroupsAsWritten(U32 - 1) == 0
    ensures NumGroupsAsWritten(U32 - 1) * WORK_GROUP_SIZE < U32 - 1
  {
  }

  /** The ceiling division the code intends: enough groups of 256 to cover
      every instance, and no group more. */
  function NumGroups(total: nat): (groups: nat)
    ensures groups * WORK_GROUP_SIZE >= total
    ensures total > 0 ==> (groups - 1) * WORK_GROUP_SIZE < total
    ensures total == 0 ==> groups == 0
  {
    (total + WORK_GROUP_SIZE - 1) / WORK_GROUP_SIZE
  }

  /** Without wrap-around (every count up to 2^32 - 256) the code computes
      the intended value. */
  lemma NumGroupsAgree(total: nat)
    requires total <= U32 - WORK_GROUP_SIZE
    ensures NumGroupsAsWritten(total) == NumGroups(total)
  {
  }
}
