/** Boxes, planes and the view frustum of ver28_CPU/BVH.hpp: the `AABB`
    class with its two constructors, `Union`, `maxExtent`, the plane/box
    test, the six-plane frustum built from a camera, `generateAABB` and the
    world-space re-fit of `Entity::getGlobalAABB`. Coordinates are reals;
    the square root inside `glm::normalize` and `tanf` are inputs. */
module Geometry {
  import opened LinAlg

  /** std::numeric_limits<float>::max(), (2 - 2^-23) * 2^127. */
  const FLT_MAX: real := 340282346638528859811704183484516925440.0
  /** std::numeric_limits<float>::min(): the smallest POSITIVE normal float, 2^-126. */
  const FLT_MIN: real := 1.0 / 85070591730234615865843651857942052864.0

  /** Center / half-extent box that also keeps its two corners. */
  datatype AABB = AABB(center: Vec3, extents: Vec3, pMin: Vec3, pMax: Vec3)

  /** The two representations of `b` describe the same box. */
  ghost predicate Consistent(b: AABB) {
    b.center == Scale(Add(b.pMax, b.pMin), 0.5) && b.extents == Sub(b.pMax, b.center)
  }

  /** A consistent box whose extents are non-negative. */
  ghost predicate WellFormed(b: AABB) {
    Consistent(b) && LessEq(b.pMin, b.pMax)
  }

  /** Corner-wise containment: `inner` lies inside `outer`. */
  ghost predicate Contains(outer: AABB, inner: AABB) {
    LessEq(outer.pMin, inner.pMin) && LessEq(inner.pMax, outer.pMax)
  }

  ghost predicate InBox(p: Vec3, b: AABB) {
    LessEq(b.pMin, p) && LessEq(p, b.pMax)
  }

  /** `AABB(min, max)`: center is the midpoint, extents `max - center`. */
  function FromMinMax(min: Vec3, max: Vec3): (b: AABB)
    ensures Consistent(b) && b.pMin == min && b.pMax == max
    ensures Sub(b.center, b.extents) == min && Add(b.center, b.extents) == max
    ensures LessEq(min, max) <==> LessEq(Vec3(0.0, 0.0, 0.0), b.extents)
  {
    var c := Scale(Add(max, min), 0.5);
    AABB(c, Vec3(max.x - c.x, max.y - c.y, max.z - c.z), min, max)
  }

  /** `AABB(center, iI, iJ, iK)`: corners are `center -/+ extents`. */
  function FromCenter(c: Vec3, i: real, j: real, k: real): (b: AABB)
    ensures Consistent(b) && b.center == c && b.extents == Vec3(i, j, k)
    ensures (0.0 <= i && 0.0 <= j && 0.0 <= k) <==> WellFormed(b)
  {
    AABB(c, Vec3(i, j, k), Vec3(c.x - i, c.y - j, c.z - k), Vec3(c.x + i, c.y + j, c.z + k))
  }

  /** Rebuilding a box from its corners gives back its center and extents. */
  lemma CenterRoundTrip(c: Vec3, i: real, j: real, k: real)
    ensures var b := FromCenter(c, i, j, k); FromMinMax(b.pMin, b.pMax) == b
  {
  }

  /** Rebuilding a box from its center and extents gives back its corners. */
  lemma CornerRoundTrip(min: Vec3, max: Vec3)
    ensures var b := FromMinMax(min, max);
            FromCenter(b.center, b.extents.x, b.extents.y, b.extents.z) == b
  {
  }

  /** `Union(b1, b2)`: component-wise min of the minima, max of the maxima. */
  function Union(b1: AABB, b2: AABB): (u: AABB)
    ensures Consistent(u) && Contains(u, b1) && Contains(u, b2)
    ensures forall c: AABB :: Contains(c, b1) && Contains(c, b2) ==> Contains(c, u)
    ensures WellFormed(b1) && WellFormed(b2) ==> WellFormed(u)
  {
    FromMinMax(Vec3(Min(b1.pMin.x, b2.pMin.x), Min(b1.pMin.y, b2.pMin.y), Min(b1.pMin.z, b2.pMin.z)),
               Vec3(Max(b1.pMax.x, b2.pMax.x), Max(b1.pMax.y, b2.pMax.y), Max(b1.pMax.z, b2.pMax.z)))
  }

  lemma UnionCommutes(b1: AABB, b2: AABB)
    ensures Union(b1, b2) == Union(b2, b1)
  {
  }

  /** A consistent box united with itself is itself. */
  lemma UnionIdempotent(b: AABB)
    requires Consistent(b)
    ensures Union(b, b) == b
  {
  }

  lemma ContainsTransitive(a: AABB, b: AABB, c: AABB)
    requires Contains(a, b) && Contains(b, c)
    ensures Contains(a, c)
  {
  }

  function Diagonal(b: AABB): Vec3 { Sub(b.pMax, b.pMin) }

  /** `maxExtent`: the axis of the longest side of the diagonal. Ties go to
      the LATER axis: x wins only when strictly longer than y and z. */
  function MaxExtent(b: AABB): (axis: nat)
    ensures axis < 3
    ensures forall k :: 0 <= k < 3 ==> Component(Diagonal(b), k) <= Component(Diagonal(b), axis)
    ensures forall k :: axis < k < 3 ==> Component(Diagonal(b), k) < Component(Diagonal(b), axis)
  {
    var d := Diagonal(b);
    if d.x > d.y && d.x > d.z then 0
    else if d.y > d.z then 1
    else 2
  }

  /** Unit normal and offset; "inside" is `dot(normal, p) - distance >= 0`. */
  datatype Plane = Plane(normal: Vec3, distance: real)

  function SignedDistance(pl: Plane, p: Vec3): real {
    Dot(pl.normal, p) - pl.distance
  }

  /** `Plane(p1, norm)`: `normalize` stands for glm::normalize. */
  function PlaneThrough(p: Vec3, norm: Vec3, normalize: Vec3 -> Vec3): (pl: Plane)
    ensures pl.normal == normalize(norm)
    ensures SignedDistance(pl, p) == 0.0
  {
    var n := normalize(norm);
    Plane(n, Dot(n, p))
  }

  /** `AABB::isOnOrAbovePlane`: the projected radius of the box onto the
      normal against the signed distance of its center. */
  predicate IsOnOrAbovePlane(b: AABB, pl: Plane) {
    -Radius(b.extents, pl.normal) <= SignedDistance(pl, b.center)
  }

  /** Projection interval radius of half-extents `e` onto `n`. */
  function Radius(e: Vec3, n: Vec3): real {
    Dot(e, AbsVec(n))
  }

  /** The componentwise absolute value of a normal. */
  function AbsVec(n: Vec3): Vec3 {
    Vec3(Abs(n.x), Abs(n.y), Abs(n.z))
  }

  /** Per-axis reach of a box along a normal component. */
  function SupportAxis(n: real, lo: real, hi: real): real {
    if n >= 0.0 then n * hi else n * lo
  }

  /** The largest value of `dot(normal, p)` over the corners of `b`. */
  function Support(b: AABB, n: Vec3): real {
    SupportAxis(n.x, b.pMin.x, b.pMax.x) + SupportAxis(n.y, b.pMin.y, b.pMax.y)
    + SupportAxis(n.z, b.pMin.z, b.pMax.z)
  }

  /** The corner of `b` reaching furthest along `n`. */
  function SupportCorner(b: AABB, n: Vec3): (p: Vec3)
    ensures InBox(p, b) || !LessEq(b.pMin, b.pMax)
    ensures Dot(n, p) == Support(b, n)
  {
    Vec3(if n.x >= 0.0 then b.pMax.x else b.pMin.x,
         if n.y >= 0.0 then b.pMax.y else b.pMin.y,
         if n.z >= 0.0 then b.pMax.z else b.pMin.z)
  }

  lemma SupportAxisCenter(n: real, c: real, e: real)
    ensures n * c + e * Abs(n) == SupportAxis(n, c - e, c + e)
  {
    if n >= 0.0 {
      calc { n * c + e * Abs(n); n * c + n * e; n * (c + e); }
    } else {
      calc { n * c + e * Abs(n); n * c - n * e; n * (c - e); }
    }
  }

  /** The center/radius test equals comparing the support with the offset. */
  lemma PlaneTestIsSupport(b: AABB, pl: Plane)
    requires Consistent(b)
    ensures IsOnOrAbovePlane(b, pl) <==> Support(b, pl.normal) >= pl.distance
  {
    assert b.pMin == Sub(b.center, b.extents) && b.pMax == Add(b.center, b.extents);
    SupportAxisCenter(pl.normal.x, b.center.x, b.extents.x);
    SupportAxisCenter(pl.normal.y, b.center.y, b.extents.y);
    SupportAxisCenter(pl.normal.z, b.center.z, b.extents.z);
  }

  lemma SupportAxisBounds(n: real, lo: real, x: real, hi: real)
    requires lo <= x <= hi
    ensures n * x <= SupportAxis(n, lo, hi)
  {
    if n >= 0.0 {
      assert n * (hi - x) >= 0.0;
    } else {
      assert (-n) * (x - lo) >= 0.0;
    }
  }

  lemma SumLessEq(x1: real, x2: real, x3: real, y1: real, y2: real, y3: real)
    requires x1 <= y1 && x2 <= y2 && x3 <= y3
    ensures x1 + x2 + x3 <= y1 + y2 + y3
  {
  }

  lemma SupportAxisMonotone(n: real, lo: real, hi: real, lo': real, hi': real)
    requires lo' <= lo && hi <= hi'
    ensures SupportAxis(n, lo, hi) <= SupportAxis(n, lo', hi')
  {
    if n >= 0.0 {
      assert n * (hi' - hi) >= 0.0;
    } else {
      assert (-n) * (lo - lo') >= 0.0;
    }
  }

  /** Exactness of the plane test: a well-formed box passes iff some point
      of it lies on or above the plane. In particular a zero-extent box
      centred on the plane passes, and a box lying entirely behind it fails. */
  lemma PlaneTestExact(b: AABB, pl: Plane)
    requires WellFormed(b)
    ensures IsOnOrAbovePlane(b, pl) <==> exists p :: InBox(p, b) && SignedDistance(pl, p) >= 0.0
  {
    PlaneTestIsSupport(b, pl);
    if IsOnOrAbovePlane(b, pl) {
      assert InBox(SupportCorner(b, pl.normal), b) && SignedDistance(pl, SupportCorner(b, pl.normal)) >= 0.0;
    }
    forall p | InBox(p, b) && SignedDistance(pl, p) >= 0.0
      ensures IsOnOrAbovePlane(b, pl)
    {
      SupportBounds(b, pl.normal, p);
    }
  }

  /** No point of a box reaches further along `n` than its support. */
  lemma SupportBounds(b: AABB, n: Vec3, p: Vec3)
    requires InBox(p, b)
    ensures Dot(n, p) <= Support(b, n)
  {
    SupportAxisBounds(n.x, b.pMin.x, p.x, b.pMax.x);
    SupportAxisBounds(n.y, b.pMin.y, p.y, b.pMax.y);
    SupportAxisBounds(n.z, b.pMin.z, p.z, b.pMax.z);
    SumLessEq(n.x * p.x, n.y * p.y, n.z * p.z, SupportAxis(n.x, b.pMin.x, b.pMax.x),
              SupportAxis(n.y, b.pMin.y, b.pMax.y), SupportAxis(n.z, b.pMin.z, b.pMax.z));
  }

  /** Monotonicity: a box containing a passing box passes too. */
  lemma PlaneTestMonotone(outer: AABB, inner: AABB, pl: Plane)
    requires Consistent(outer) && Consistent(inner) && Contains(outer, inner)
    requires IsOnOrAbovePlane(inner, pl)
    ensures IsOnOrAbovePlane(outer, pl)
  {
    PlaneTestIsSupport(inner, pl);
    PlaneTestIsSupport(outer, pl);
    SupportAxisMonotone(pl.normal.x, inner.pMin.x, inner.pMax.x, outer.pMin.x, outer.pMax.x);
    SupportAxisMonotone(pl.normal.y, inner.pMin.y, inner.pMax.y, outer.pMin.y, outer.pMax.y);
    SupportAxisMonotone(pl.normal.z, inner.pMin.z, inner.pMax.z, outer.pMin.z, outer.pMax.z);
  }

  /** Scaling a plane's normal and offset by a positive factor does not
      change the test, so the length `normalize` produces does not matter. */
  lemma PlaneTestScaleInvariant(b: AABB, n: Vec3, d: real, k: real)
    requires k > 0.0
    ensures IsOnOrAbovePlane(b, Plane(Scale(n, k), d * k)) == IsOnOrAbovePlane(b, Plane(n, d))
  {
    RadiusScale(b.extents, n, k);
    DistanceScale(b.center, n, d, k);
    ScaledTest(Radius(b.extents, n), SignedDistance(Plane(n, d), b.center),
               Radius(b.extents, Scale(n, k)), SignedDistance(Plane(Scale(n, k), d * k), b.center), k);
  }

  /** Scaling both sides of the center/radius comparison by `k > 0` keeps it. */
  lemma ScaledTest(r: real, s: real, r': real, s': real, k: real)
    requires k > 0.0 && r' == r * k && s' == s * k
    ensures (-r' <= s') == (-r <= s)
  {
    ScaledLessEq(-r, s, k);
    assert -r' == -r * k;
  }

  lemma RadiusScale(e: Vec3, n: Vec3, k: real)
    requires k > 0.0
    ensures Radius(e, Scale(n, k)) == Radius(e, n) * k
  {
    AbsVecScale(n, k);
    DotScale(e, AbsVec(n), k);
  }

  lemma AbsVecScale(n: Vec3, k: real)
    requires k > 0.0
    ensures AbsVec(Scale(n, k)) == Scale(AbsVec(n), k)
  {
    AbsScale(n.x, k);
    AbsScale(n.y, k);
    AbsScale(n.z, k);
  }

  lemma DotScale(a: Vec3, v: Vec3, k: real)
    ensures Dot(a, Scale(v, k)) == Dot(a, v) * k
  {
  }

  lemma DistanceScale(c: Vec3, n: Vec3, d: real, k: real)
    ensures SignedDistance(Plane(Scale(n, k), d * k), c) == SignedDistance(Plane(n, d), c) * k
  {
  }

  lemma AbsScale(a: real, k: real)
    requires k > 0.0
    ensures Abs(a * k) == Abs(a) * k
  {
    if a < 0.0 { assert a * k < 0.0; } else { assert a * k >= 0.0; }
  }

  lemma ScaledLessEq(x: real, y: real, k: real)
    requires k > 0.0
    ensures x * k <= y * k <==> x <= y
  {
    if x <= y { assert (y - x) * k >= 0.0; }
    else { assert (x - y) * k > 0.0; }
  }

  /** The six planes; field order as the source declares them. */
  datatype Frustum = Frustum(top: Plane, bottom: Plane, right: Plane, left: Plane,
                             far: Plane, near: Plane)

  /** The faces in the order the GPU path packs them: top, bottom, left,
      right, near, far. */
  function Faces(f: Frustum): (s: seq<Plane>)
    ensures |s| == 6
  {
    [f.top, f.bottom, f.left, f.right, f.near, f.far]
  }

  /** `isOnFrustum`: the box passes all six planes (tested left, right,
      top, bottom, near, far; the order only decides the early exit). */
  predicate IsOnFrustum(b: AABB, f: Frustum)
    ensures IsOnFrustum(b, f) <==> forall pl | pl in Faces(f) :: IsOnOrAbovePlane(b, pl)
  {
    IsOnOrAbovePlane(b, f.left) && IsOnOrAbovePlane(b, f.right) &&
    IsOnOrAbovePlane(b, f.top) && IsOnOrAbovePlane(b, f.bottom) &&
    IsOnOrAbovePlane(b, f.near) && IsOnOrAbovePlane(b, f.far)
  }

  lemma FrustumTestMonotone(outer: AABB, inner: AABB, f: Frustum)
    requires Consistent(outer) && Consistent(inner) && Contains(outer, inner)
    requires IsOnFrustum(inner, f)
    ensures IsOnFrustum(outer, f)
  {
    PlaneTestMonotone(outer, inner, f.left);
    PlaneTestMonotone(outer, inner, f.right);
    PlaneTestMonotone(outer, inner, f.top);
    PlaneTestMonotone(outer, inner, f.bottom);
    PlaneTestMonotone(outer, inner, f.near);
    PlaneTestMonotone(outer, inner, f.far);
  }

  /** The camera state the frustum construction reads. */
  datatype Camera = Camera(position: Vec3, front: Vec3, right: Vec3, up: Vec3)

  /** `createFrustumFromCamera`. The side planes use `zFar * front`, a
      direction relative to the camera, and all pass through the camera. */
  function CreateFrustumFromCamera(cam: Camera, aspect: real, fovY: real, zNear: real, zFar: real,
                                   tan: real -> real, normalize: Vec3 -> Vec3): (f: Frustum)
    ensures SignedDistance(f.left, cam.position) == 0.0
    ensures SignedDistance(f.right, cam.position) == 0.0
    ensures SignedDistance(f.top, cam.position) == 0.0
    ensures SignedDistance(f.bottom, cam.position) == 0.0
    ensures SignedDistance(f.near, Add(cam.position, Scale(cam.front, zNear))) == 0.0
    ensures SignedDistance(f.far, Add(cam.position, Scale(cam.front, zFar))) == 0.0
    ensures f.near.normal == normalize(cam.front) && f.far.normal == normalize(Neg(cam.front))
  {
    var halfVSide := zFar * tan(fovY * 0.5);
    var halfHSide := halfVSide * aspect;
    var frontMultFar := Scale(cam.front, zFar);
    Frustum(
      top := PlaneThrough(cam.position, Cross(Neg(cam.right), Add(frontMultFar, Scale(cam.up, halfVSide))), normalize),
      bottom := PlaneThrough(cam.position, Cross(cam.right, Sub(frontMultFar, Scale(cam.up, halfVSide))), normalize),
      right := PlaneThrough(cam.position, Cross(cam.up, Add(frontMultFar, Scale(cam.right, halfHSide))), normalize),
      left := PlaneThrough(cam.position, Cross(Sub(frontMultFar, Scale(cam.right, halfHSide)), cam.up), normalize),
      far := PlaneThrough(Add(cam.position, frontMultFar), Neg(cam.front), normalize),
      near := PlaneThrough(Add(cam.position, Scale(cam.front, zNear)), cam.front, normalize))
  }

  /** `glm::normalize` as it acts on a non-zero vector: a scaling by the
      positive factor `invLen(v)` (the inverse of the length). */
  ghost predicate ScalesPositively(normalize: Vec3 -> Vec3, invLen: Vec3 -> real) {
    forall v :: v != Vec3(0.0, 0.0, 0.0) ==> invLen(v) > 0.0 && normalize(v) == Scale(v, invLen(v))
  }

  /** A right-handed camera basis looking along a non-zero `front` (one of
      positive squared length): an orthonormal camera with
      `Right = Front x WorldUp` and `Up = Right x Front` has
      `Right x Up == -Front`. */
  ghost predicate RightHanded(cam: Camera) {
    Cross(cam.right, cam.up) == Neg(cam.front) && Dot(cam.front, cam.front) > 0.0
  }

  /** With a positive scaling for `normalize` and a right-handed camera,
      near and far have opposite normals along `front`, and a point on the
      view axis at depth `t` is on the inner side of all six planes exactly
      when `zNear <= t <= zFar`: every plane faces into the viewing volume. */
  lemma ViewAxisInFrustum(cam: Camera, aspect: real, fovY: real, zNear: real, zFar: real,
                          tan: real -> real, normalize: Vec3 -> Vec3, invLen: Vec3 -> real, t: real)
    requires ScalesPositively(normalize, invLen) && RightHanded(cam)
    requires 0.0 < zNear && 0.0 < aspect && 0.0 < tan(fovY * 0.5)
    ensures var f := CreateFrustumFromCamera(cam, aspect, fovY, zNear, zFar, tan, normalize);
            f.near.normal == Scale(cam.front, invLen(cam.front))
            && f.far.normal == Scale(cam.front, -invLen(Neg(cam.front)))
    ensures var f := CreateFrustumFromCamera(cam, aspect, fovY, zNear, zFar, tan, normalize);
            (forall pl | pl in Faces(f) :: SignedDistance(pl, Add(cam.position, Scale(cam.front, t))) >= 0.0)
            <==> zNear <= t <= zFar
  {
    var f := CreateFrustumFromCamera(cam, aspect, fovY, zNear, zFar, tan, normalize);
    var pt := Add(cam.position, Scale(cam.front, t));
    NearFarFaces(cam, aspect, fovY, zNear, zFar, tan, normalize, invLen, t);
    if zNear <= t <= zFar {
      SideFaces(cam, aspect, fovY, zNear, zFar, tan, normalize, invLen, t);
    }
    AllFaces(f, pt);
  }

  /** A point is on the inner side of every face exactly when it is on the
      inner side of each of the six. */
  lemma AllFaces(f: Frustum, pt: Vec3)
    ensures (forall pl | pl in Faces(f) :: SignedDistance(pl, pt) >= 0.0)
            <==> (&& SignedDistance(f.top, pt) >= 0.0 && SignedDistance(f.bottom, pt) >= 0.0
                  && SignedDistance(f.left, pt) >= 0.0 && SignedDistance(f.right, pt) >= 0.0
                  && SignedDistance(f.near, pt) >= 0.0 && SignedDistance(f.far, pt) >= 0.0)
  {
    assert Faces(f) == [f.top, f.bottom, f.left, f.right, f.near, f.far];
  }

  /** Near and far, of `ViewAxisInFrustum`. */
  lemma NearFarFaces(cam: Camera, aspect: real, fovY: real, zNear: real, zFar: real,
                     tan: real -> real, normalize: Vec3 -> Vec3, invLen: Vec3 -> real, t: real)
    requires ScalesPositively(normalize, invLen) && RightHanded(cam)
    ensures var f := CreateFrustumFromCamera(cam, aspect, fovY, zNear, zFar, tan, normalize);
            var pt := Add(cam.position, Scale(cam.front, t));
            && f.near.normal == Scale(cam.front, invLen(cam.front))
            && f.far.normal == Scale(cam.front, -invLen(Neg(cam.front)))
            && (SignedDistance(f.near, pt) >= 0.0 <==> zNear <= t)
            && (SignedDistance(f.far, pt) >= 0.0 <==> t <= zFar)
  {
    var f := CreateFrustumFromCamera(cam, aspect, fovY, zNear, zFar, tan, normalize);
    var F, p := cam.front, cam.position;
    assert F != Vec3(0.0, 0.0, 0.0) && Neg(F) != Vec3(0.0, 0.0, 0.0);
    var l1, l2 := invLen(F), invLen(Neg(F));
    assert f.near == Plane(Scale(F, l1), Dot(Scale(F, l1), Add(p, Scale(F, zNear))));
    assert f.far == Plane(Scale(Neg(F), l2), Dot(Scale(Neg(F), l2), Add(p, Scale(F, zFar))));
    NearFarAlongAxis(F, p, zNear, zFar, t, l1, l2);
  }

  /** The four side planes, of `ViewAxisInFrustum`. */
  lemma SideFaces(cam: Camera, aspect: real, fovY: real, zNear: real, zFar: real,
                  tan: real -> real, normalize: Vec3 -> Vec3, invLen: Vec3 -> real, t: real)
    requires ScalesPositively(normalize, invLen) && RightHanded(cam)
    requires 0.0 < zNear <= t <= zFar && 0.0 < aspect && 0.0 < tan(fovY * 0.5)
    ensures var f := CreateFrustumFromCamera(cam, aspect, fovY, zNear, zFar, tan, normalize);
            var pt := Add(cam.position, Scale(cam.front, t));
            && SignedDistance(f.left, pt) >= 0.0 && SignedDistance(f.right, pt) >= 0.0
            && SignedDistance(f.top, pt) >= 0.0 && SignedDistance(f.bottom, pt) >= 0.0
  {
    FrustumSides(cam, aspect, fovY, zNear, zFar, tan, normalize);
    var hv, hh := HalfSides(zFar, tan(fovY * 0.5), aspect);
    var f := CreateFrustumFromCamera(cam, aspect, fovY, zNear, zFar, tan, normalize);
    var F, R, U, p := cam.front, cam.right, cam.up, cam.position;
    assert f.left == PlaneThrough(p, Cross(Sub(Scale(F, zFar), Scale(R, hh)), U), normalize);
    assert f.right == PlaneThrough(p, Cross(U, Add(Scale(F, zFar), Scale(R, hh))), normalize);
    assert f.top == PlaneThrough(p, Cross(Neg(R), Add(Scale(F, zFar), Scale(U, hv))), normalize);
    assert f.bottom == PlaneThrough(p, Cross(R, Sub(Scale(F, zFar), Scale(U, hv))), normalize);
    SidesAlongAxis(normalize, invLen, F, R, U, p, zFar, hh, hv, t);
  }

  /** For any positive half sizes, the four side planes through `p` hold
      every point of the axis `p + t F`, `t >= 0`, on their inner side. */
  lemma SidesAlongAxis(normalize: Vec3 -> Vec3, invLen: Vec3 -> real, F: Vec3, R: Vec3, U: Vec3, p: Vec3,
                       z: real, hh: real, hv: real, t: real)
    requires ScalesPositively(normalize, invLen) && Cross(R, U) == Neg(F) && 0.0 < Dot(F, F)
    requires 0.0 < hh && 0.0 < hv && 0.0 <= t
    ensures SignedDistance(PlaneThrough(p, Cross(Sub(Scale(F, z), Scale(R, hh)), U), normalize), Add(p, Scale(F, t))) >= 0.0
    ensures SignedDistance(PlaneThrough(p, Cross(U, Add(Scale(F, z), Scale(R, hh))), normalize), Add(p, Scale(F, t))) >= 0.0
    ensures SignedDistance(PlaneThrough(p, Cross(Neg(R), Add(Scale(F, z), Scale(U, hv))), normalize), Add(p, Scale(F, t))) >= 0.0
    ensures SignedDistance(PlaneThrough(p, Cross(R, Sub(Scale(F, z), Scale(U, hv))), normalize), Add(p, Scale(F, t))) >= 0.0
  {
    SideNormalsAlongAxis(F, R, U, z, hh, hv);
    SideAlongAxis(normalize, invLen, Cross(Sub(Scale(F, z), Scale(R, hh)), U), F, p, hh, t);
    SideAlongAxis(normalize, invLen, Cross(U, Add(Scale(F, z), Scale(R, hh))), F, p, hh, t);
    SideAlongAxis(normalize, invLen, Cross(Neg(R), Add(Scale(F, z), Scale(U, hv))), F, p, hv, t);
    SideAlongAxis(normalize, invLen, Cross(R, Sub(Scale(F, z), Scale(U, hv))), F, p, hv, t);
  }

  /** The side planes of `CreateFrustumFromCamera`, with the half sizes
      written out. */
  lemma FrustumSides(cam: Camera, aspect: real, fovY: real, zNear: real, zFar: real,
                     tan: real -> real, normalize: Vec3 -> Vec3)
    ensures var f := CreateFrustumFromCamera(cam, aspect, fovY, zNear, zFar, tan, normalize);
            var F, R, U, tv := cam.front, cam.right, cam.up, tan(fovY * 0.5);
            && f.left == PlaneThrough(cam.position, Cross(Sub(Scale(F, zFar), Scale(R, zFar * tv * aspect)), U), normalize)
            && f.right == PlaneThrough(cam.position, Cross(U, Add(Scale(F, zFar), Scale(R, zFar * tv * aspect))), normalize)
            && f.top == PlaneThrough(cam.position, Cross(Neg(R), Add(Scale(F, zFar), Scale(U, zFar * tv))), normalize)
            && f.bottom == PlaneThrough(cam.position, Cross(R, Sub(Scale(F, zFar), Scale(U, zFar * tv))), normalize)
  {
  }

  /** The half height and half width of the far plane, both positive. */
  lemma HalfSides(zFar: real, tv: real, aspect: real) returns (hv: real, hh: real)
    requires 0.0 < zFar && 0.0 < tv && 0.0 < aspect
    ensures hv == zFar * tv && hh == zFar * tv * aspect && 0.0 < hv && 0.0 < hh
  {
    PositiveProduct(zFar, tv);
    PositiveProduct(zFar * tv, aspect);
    hv, hh := zFar * tv, zFar * tv * aspect;
  }

  lemma PositiveProduct(a: real, b: real)
    requires 0.0 < a && 0.0 < b
    ensures 0.0 < a * b
  {
  }

  /** The unnormalized side normals all lean towards `front`, by `hh` or
      `hv` times its squared length, when `R x U == -F`. */
  lemma SideNormalsAlongAxis(F: Vec3, R: Vec3, U: Vec3, zFar: real, hh: real, hv: real)
    requires Cross(R, U) == Neg(F)
    ensures Dot(Cross(Sub(Scale(F, zFar), Scale(R, hh)), U), F) == hh * Dot(F, F)
    ensures Dot(Cross(U, Add(Scale(F, zFar), Scale(R, hh))), F) == hh * Dot(F, F)
    ensures Dot(Cross(Neg(R), Add(Scale(F, zFar), Scale(U, hv))), F) == hv * Dot(F, F)
    ensures Dot(Cross(R, Sub(Scale(F, zFar), Scale(U, hv))), F) == hv * Dot(F, F)
  {
    TripleExpansions(F, R, U, zFar, hh, hv);
    assert Dot(Cross(R, U), F) == -Dot(F, F);
  }

  /** The triple products of the side normals with `F`, expanded by
      linearity; the terms along `F` itself vanish. */
  lemma TripleExpansions(F: Vec3, R: Vec3, U: Vec3, z: real, h: real, v: real)
    ensures Dot(Cross(Sub(Scale(F, z), Scale(R, h)), U), F) == -h * Dot(Cross(R, U), F)
    ensures Dot(Cross(U, Add(Scale(F, z), Scale(R, h))), F) == -h * Dot(Cross(R, U), F)
    ensures Dot(Cross(Neg(R), Add(Scale(F, z), Scale(U, v))), F) == -v * Dot(Cross(R, U), F)
    ensures Dot(Cross(R, Sub(Scale(F, z), Scale(U, v))), F) == -v * Dot(Cross(R, U), F)
  {
    LeftTriple(F, R, U, z, h);
    RightTriple(F, R, U, z, h);
    TopTriple(F, R, U, z, v);
    BottomTriple(F, R, U, z, v);
  }

  lemma LeftTriple(F: Vec3, R: Vec3, U: Vec3, z: real, h: real)
    ensures Dot(Cross(Sub(Scale(F, z), Scale(R, h)), U), F) == -h * Dot(Cross(R, U), F)
  {
    TripleLinear(U, F, R, F, z, h);
    TripleSigns(F, U, F);
    VanishingTerm(z, h, Dot(Cross(F, U), F), Dot(Cross(R, U), F));
  }

  lemma BottomTriple(F: Vec3, R: Vec3, U: Vec3, z: real, v: real)
    ensures Dot(Cross(R, Sub(Scale(F, z), Scale(U, v))), F) == -v * Dot(Cross(R, U), F)
  {
    TripleLinear(R, F, U, F, z, v);
    TripleSigns(R, F, F);
    VanishingTerm(z, v, Dot(Cross(R, F), F), Dot(Cross(R, U), F));
  }

  lemma RightTriple(F: Vec3, R: Vec3, U: Vec3, z: real, h: real)
    ensures Dot(Cross(U, Add(Scale(F, z), Scale(R, h))), F) == -h * Dot(Cross(R, U), F)
  {
    TripleLinear(U, F, R, F, z, h);
    TripleSigns(F, U, F);
    TripleSigns(R, U, F);
    OppositeTerm(z, h, Dot(Cross(U, F), F), Dot(Cross(U, R), F), Dot(Cross(R, U), F));
  }

  lemma TopTriple(F: Vec3, R: Vec3, U: Vec3, z: real, v: real)
    ensures Dot(Cross(Neg(R), Add(Scale(F, z), Scale(U, v))), F) == -v * Dot(Cross(R, U), F)
  {
    TripleLinear(Neg(R), F, U, F, z, v);
    TripleSigns(R, F, F);
    TripleSigns(R, U, F);
    OppositeTerm(z, v, Dot(Cross(Neg(R), F), F), Dot(Cross(Neg(R), U), F), Dot(Cross(R, U), F));
  }

  lemma VanishingTerm(z: real, h: real, a: real, x: real)
    requires a == 0.0
    ensures z * a - h * x == -h * x
  {
  }

  lemma OppositeTerm(z: real, h: real, a: real, b: real, x: real)
    requires a == 0.0 && b == -x
    ensures z * a + h * b == -h * x
  {
  }

  /** The triple product `Dot(Cross(a, c), e)` written over coordinates. */
  function Triple(ax: real, ay: real, az: real, cx: real, cy: real, cz: real,
                  ex: real, ey: real, ez: real): real
  {
    (ay * cz - az * cy) * ex + (az * cx - ax * cz) * ey + (ax * cy - ay * cx) * ez
  }

  /** The triple product is linear in its first and in its second vector. */
  lemma TripleLinear(a: Vec3, b: Vec3, c: Vec3, e: Vec3, k: real, h: real)
    ensures Dot(Cross(Sub(Scale(b, k), Scale(c, h)), a), e)
            == k * Dot(Cross(b, a), e) - h * Dot(Cross(c, a), e)
    ensures Dot(Cross(a, Add(Scale(b, k), Scale(c, h))), e)
            == k * Dot(Cross(a, b), e) + h * Dot(Cross(a, c), e)
    ensures Dot(Cross(a, Sub(Scale(b, k), Scale(c, h))), e)
            == k * Dot(Cross(a, b), e) - h * Dot(Cross(a, c), e)
  {
    TripleLinearFirst(a, b, c, e, k, h);
    TripleLinearSecondAdd(a, b, c, e, k, h);
    TripleLinearSecondSub(a, b, c, e, k, h);
  }

  lemma TripleLinearFirst(a: Vec3, b: Vec3, c: Vec3, e: Vec3, k: real, h: real)
    ensures Dot(Cross(Sub(Scale(b, k), Scale(c, h)), a), e)
            == k * Dot(Cross(b, a), e) - h * Dot(Cross(c, a), e)
  {
    var s := Sub(Scale(b, k), Scale(c, h));
    TripleCoordinates(s, a, e);
    TripleCoordinates(b, a, e);
    TripleCoordinates(c, a, e);
    ScalarTripleLinear(s.x, s.y, s.z, b.x, b.y, b.z, c.x, c.y, c.z, a.x, a.y, a.z, e.x, e.y, e.z, k, -h);
  }

  lemma TripleLinearSecondAdd(a: Vec3, b: Vec3, c: Vec3, e: Vec3, k: real, h: real)
    ensures Dot(Cross(a, Add(Scale(b, k), Scale(c, h))), e)
            == k * Dot(Cross(a, b), e) + h * Dot(Cross(a, c), e)
  {
    var s := Add(Scale(b, k), Scale(c, h));
    TripleCoordinates(a, s, e);
    TripleCoordinates(a, b, e);
    TripleCoordinates(a, c, e);
    ScalarTripleLinear(s.x, s.y, s.z, b.x, b.y, b.z, c.x, c.y, c.z, a.x, a.y, a.z, e.x, e.y, e.z, k, h);
  }

  lemma TripleLinearSecondSub(a: Vec3, b: Vec3, c: Vec3, e: Vec3, k: real, h: real)
    ensures Dot(Cross(a, Sub(Scale(b, k), Scale(c, h))), e)
            == k * Dot(Cross(a, b), e) - h * Dot(Cross(a, c), e)
  {
    var s := Sub(Scale(b, k), Scale(c, h));
    TripleCoordinates(a, s, e);
    TripleCoordinates(a, b, e);
    TripleCoordinates(a, c, e);
    ScalarTripleLinear(s.x, s.y, s.z, b.x, b.y, b.z, c.x, c.y, c.z, a.x, a.y, a.z, e.x, e.y, e.z, k, -h);
  }

  lemma TripleCoordinates(a: Vec3, c: Vec3, e: Vec3)
    ensures Dot(Cross(a, c), e) == Triple(a.x, a.y, a.z, c.x, c.y, c.z, e.x, e.y, e.z)
  {
  }

  /** Over coordinates: when `s = k b + h c`, the triple product with `s`
      in the first or the second place is the same combination of those
      with `b` and with `c`. */
  lemma ScalarTripleLinear(sx: real, sy: real, sz: real, bx: real, b_y: real, bz: real,
                           cx: real, cy: real, cz: real, ax: real, ay: real, az: real,
                           ex: real, ey: real, ez: real, k: real, h: real)
    requires sx == bx * k + cx * h && sy == b_y * k + cy * h && sz == bz * k + cz * h
    ensures Triple(sx, sy, sz, ax, ay, az, ex, ey, ez)
            == k * Triple(bx, b_y, bz, ax, ay, az, ex, ey, ez) + h * Triple(cx, cy, cz, ax, ay, az, ex, ey, ez)
    ensures Triple(ax, ay, az, sx, sy, sz, ex, ey, ez)
            == k * Triple(ax, ay, az, bx, b_y, bz, ex, ey, ez) + h * Triple(ax, ay, az, cx, cy, cz, ex, ey, ez)
  {
  }

  /** Swapping or negating a vector of the triple product flips its sign,
      and a repeated vector makes it vanish. */
  lemma TripleSigns(a: Vec3, b: Vec3, e: Vec3)
    ensures Dot(Cross(b, a), e) == -Dot(Cross(a, b), e)
    ensures Dot(Cross(Neg(a), b), e) == -Dot(Cross(a, b), e)
    ensures Dot(Cross(a, b), a) == 0.0 && Dot(Cross(a, b), b) == 0.0
  {
  }

  /** A side plane through the camera, whose raw normal leans towards
      `front`, has every point of the view axis at depth `t >= 0` on its
      inner side. */
  lemma SideAlongAxis(normalize: Vec3 -> Vec3, invLen: Vec3 -> real, raw: Vec3, F: Vec3, p: Vec3, h: real, t: real)
    requires ScalesPositively(normalize, invLen) && 0.0 < Dot(F, F)
    requires Dot(raw, F) == h * Dot(F, F) && 0.0 < h && 0.0 <= t
    ensures SignedDistance(PlaneThrough(p, raw, normalize), Add(p, Scale(F, t))) >= 0.0
  {
    PositiveProduct(h, Dot(F, F));
    assert raw != Vec3(0.0, 0.0, 0.0);
    var l := invLen(raw);
    var n := Scale(raw, l);
    assert normalize(raw) == n && l > 0.0;
    RayFromPoint(n, p, F, 0.0, t);
    assert Add(p, Scale(F, 0.0)) == p;
    DotScaleLeft(raw, F, l);
    PositiveProduct(l, h * Dot(F, F));
    NonNegativeProduct(t, l * (h * Dot(F, F)));
  }

  lemma NonNegativeProduct(a: real, b: real)
    requires 0.0 <= a && 0.0 <= b
    ensures 0.0 <= a * b
  {
  }

  lemma DotScaleLeft(v: Vec3, a: Vec3, k: real)
    ensures Dot(Scale(v, k), a) == k * Dot(v, a)
  {
  }

  /** Along the ray `p + t F`, the plane with normal `n` through `p + s F`
      is at signed distance `(t - s) (n . F)`. */
  lemma RayFromPoint(n: Vec3, p: Vec3, F: Vec3, s: real, t: real)
    ensures SignedDistance(Plane(n, Dot(n, Add(p, Scale(F, s)))), Add(p, Scale(F, t))) == (t - s) * Dot(n, F)
  {
  }

  /** The near plane admits exactly the depths from `zNear` on, the far
      plane exactly those up to `zFar`. */
  lemma NearFarAlongAxis(F: Vec3, p: Vec3, zNear: real, zFar: real, t: real, l1: real, l2: real)
    requires 0.0 < Dot(F, F) && 0.0 < l1 && 0.0 < l2
    ensures SignedDistance(Plane(Scale(F, l1), Dot(Scale(F, l1), Add(p, Scale(F, zNear)))), Add(p, Scale(F, t))) >= 0.0
            <==> zNear <= t
    ensures SignedDistance(Plane(Scale(Neg(F), l2), Dot(Scale(Neg(F), l2), Add(p, Scale(F, zFar)))), Add(p, Scale(F, t))) >= 0.0
            <==> t <= zFar
  {
    var q := Dot(F, F);
    RayFromPoint(Scale(F, l1), p, F, zNear, t);
    DotScaleLeft(F, F, l1);
    PositiveProduct(l1, q);
    SignOfProduct(t - zNear, l1 * q);
    RayFromPoint(Scale(Neg(F), l2), p, F, zFar, t);
    DotScaleLeft(Neg(F), F, l2);
    assert Dot(Neg(F), F) == -q;
    PositiveProduct(l2, q);
    assert (t - zFar) * (l2 * -q) == (zFar - t) * (l2 * q);
    SignOfProduct(zFar - t, l2 * q);
  }

  lemma SignOfProduct(a: real, c: real)
    requires 0.0 < c
    ensures a * c >= 0.0 <==> a >= 0.0
  {
    if a < 0.0 {
      assert a * c < 0.0;
    }
  }

  /** All vertex positions of a model, mesh after mesh. */
  function Flatten(meshes: seq<seq<Vec3>>): seq<Vec3>
  {
    if meshes == [] then [] else Flatten(meshes[..|meshes| - 1]) + meshes[|meshes| - 1]
  }

  lemma FlattenMember(meshes: seq<seq<Vec3>>, i: nat, j: nat)
    requires i < |meshes| && j < |meshes[i]|
    ensures meshes[i][j] in Flatten(meshes)
  {
    if i < |meshes| - 1 {
      FlattenMember(meshes[..|meshes| - 1], i, j);
    }
  }

  /** The running minimum of `generateAABB`, component by component. */
  function MinOver(vs: seq<Vec3>, init: Vec3): Vec3 {
    if vs == [] then init
    else
      var p := MinOver(vs[..|vs| - 1], init);
      var v := vs[|vs| - 1];
      Vec3(Min(p.x, v.x), Min(p.y, v.y), Min(p.z, v.z))
  }

  /** The running maximum of `generateAABB`, component by component. */
  function MaxOver(vs: seq<Vec3>, init: Vec3): Vec3 {
    if vs == [] then init
    else
      var p := MaxOver(vs[..|vs| - 1], init);
      var v := vs[|vs| - 1];
      Vec3(Max(p.x, v.x), Max(p.y, v.y), Max(p.z, v.z))
  }

  /** The running minimum lies below the start value and every vertex, the
      running maximum above them. */
  lemma {:induction false} OverBounds(vs: seq<Vec3>, lo: Vec3, hi: Vec3)
    ensures LessEq(MinOver(vs, lo), lo) && forall v | v in vs :: LessEq(MinOver(vs, lo), v)
    ensures LessEq(hi, MaxOver(vs, hi)) && forall v | v in vs :: LessEq(v, MaxOver(vs, hi))
  {
    if vs != [] {
      var init := vs[..|vs| - 1];
      OverBounds(init, lo, hi);
      assert forall u | u in vs :: u in init || u == vs[|vs| - 1];
    }
  }

  /** Each component of the running minimum and maximum is attained: it is
      the start value or a coordinate of some vertex. */
  lemma {:induction false} OverAttained(vs: seq<Vec3>, lo: Vec3, hi: Vec3)
    ensures var m := MinOver(vs, lo);
            (m.x == lo.x || exists v | v in vs :: m.x == v.x)
            && (m.y == lo.y || exists v | v in vs :: m.y == v.y)
            && (m.z == lo.z || exists v | v in vs :: m.z == v.z)
    ensures var m := MaxOver(vs, hi);
            (m.x == hi.x || exists v | v in vs :: m.x == v.x)
            && (m.y == hi.y || exists v | v in vs :: m.y == v.y)
            && (m.z == hi.z || exists v | v in vs :: m.z == v.z)
  {
    if vs != [] {
      var init := vs[..|vs| - 1];
      OverAttained(init, lo, hi);
      assert forall u | u in init :: u in vs;
    }
  }

  /** The box `generateAABB` returns for the vertex positions of a model. */
  function ModelBox(meshes: seq<seq<Vec3>>): AABB {
    FromMinMax(MinOver(Flatten(meshes), Vec3(FLT_MAX, FLT_MAX, FLT_MAX)),
               MaxOver(Flatten(meshes), Vec3(FLT_MIN, FLT_MIN, FLT_MIN)))
  }

  /** Every vertex of every mesh lies in the model box; the maximum never
      drops below the start value FLT_MIN (so an all-negative model still
      gets a positive maximum), nor the minimum above FLT_MAX. */
  lemma ModelBoxBounds(meshes: seq<seq<Vec3>>)
    ensures var b := ModelBox(meshes);
            (forall i, j :: 0 <= i < |meshes| && 0 <= j < |meshes[i]| ==> InBox(meshes[i][j], b))
            && FLT_MIN <= b.pMax.x && FLT_MIN <= b.pMax.y && FLT_MIN <= b.pMax.z
            && b.pMin.x <= FLT_MAX && b.pMin.y <= FLT_MAX && b.pMin.z <= FLT_MAX
  {
    OverBounds(Flatten(meshes), Vec3(FLT_MAX, FLT_MAX, FLT_MAX), Vec3(FLT_MIN, FLT_MIN, FLT_MIN));
    forall i, j | 0 <= i < |meshes| && 0 <= j < |meshes[i]|
      ensures InBox(meshes[i][j], ModelBox(meshes))
    {
      FlattenMember(meshes, i, j);
    }
  }

  /** One more vertex of the current mesh folds into the running bounds. */
  lemma MinMaxStep(done: seq<Vec3>, mesh: seq<Vec3>, j: nat, lo: Vec3, hi: Vec3)
    requires j < |mesh|
    ensures var p, v := MinOver(done + mesh[..j], lo), mesh[j];
            MinOver(done + mesh[..j + 1], lo) == Vec3(Min(p.x, v.x), Min(p.y, v.y), Min(p.z, v.z))
    ensures var p, v := MaxOver(done + mesh[..j], hi), mesh[j];
            MaxOver(done + mesh[..j + 1], hi) == Vec3(Max(p.x, v.x), Max(p.y, v.y), Max(p.z, v.z))
  {
    var vs := done + mesh[..j + 1];
    assert vs[..|vs| - 1] == done + mesh[..j];
  }

  lemma FlattenStep(meshes: seq<seq<Vec3>>, i: nat)
    requires i < |meshes|
    ensures Flatten(meshes[..i + 1]) == Flatten(meshes[..i]) + meshes[i]
  {
    assert meshes[..i + 1][..i] == meshes[..i];
  }

  /** `generateAABB`: one pass over the vertices of every mesh. */
  method GenerateAABB(meshes: seq<seq<Vec3>>) returns (b: AABB)
    ensures b == ModelBox(meshes)
  {
    var lo, hi := Vec3(FLT_MAX, FLT_MAX, FLT_MAX), Vec3(FLT_MIN, FLT_MIN, FLT_MIN);
    var minAABB, maxAABB := lo, hi;
    for i := 0 to |meshes|
      invariant minAABB == MinOver(Flatten(meshes[..i]), lo)
      invariant maxAABB == MaxOver(Flatten(meshes[..i]), hi)
    {
      ghost var done := Flatten(meshes[..i]);
      assert done + meshes[i][..0] == done;
      for j := 0 to |meshes[i]|
        invariant minAABB == MinOver(done + meshes[i][..j], lo)
        invariant maxAABB == MaxOver(done + meshes[i][..j], hi)
      {
        var p := meshes[i][j];
        MinMaxStep(done, meshes[i], j, lo, hi);
        minAABB := Vec3(Min(minAABB.x, p.x), Min(minAABB.y, p.y), Min(minAABB.z, p.z));
        maxAABB := Vec3(Max(maxAABB.x, p.x), Max(maxAABB.y, p.y), Max(maxAABB.z, p.z));
      }
      FlattenStep(meshes, i);
      assert meshes[i][..|meshes[i]|] == meshes[i];
    }
    assert meshes[..|meshes|] == meshes;
    b := FromMinMax(minAABB, maxAABB);
  }

  /** Basis columns of a model matrix (`getRight`, `getUp`, `getBackward`). */
  function Right(m: Mat4): Vec3 { XYZ(m.c0) }
  function Up(m: Mat4): Vec3 { XYZ(m.c1) }
  function Backward(m: Mat4): Vec3 { XYZ(m.c2) }
  /** `getForward` is the negated third column. */
  function Forward(m: Mat4): Vec3 { Neg(Backward(m)) }

  /** Half-extent of the re-fit box along one world axis: the row
      `(a, b, c)` of the upper 3x3 block, in absolute value, against the
      local half-extents. */
  function RowExtent(a: real, b: real, c: real, e: Vec3): (r: real)
    ensures 0.0 <= r
  {
    AbsSum(a * e.x, b * e.y, c * e.z)
  }

  function AbsSum(x: real, y: real, z: real): (r: real)
    ensures 0.0 <= r
  {
    Abs(x) + Abs(y) + Abs(z)
  }

  /** The half-extents of `getGlobalAABB` on the three world axes. */
  function WorldExtents(m: Mat4, e: Vec3): Vec3 {
    Vec3(RowExtent(m.c0.x, m.c1.x, m.c2.x, e),
         RowExtent(m.c0.y, m.c1.y, m.c2.y, e),
         RowExtent(m.c0.z, m.c1.z, m.c2.z, e))
  }

  /** `Entity::getGlobalAABB` (and the first half of
      `AABB::isOnFrustum(frustum, transform)`): the transformed center with
      the world half-extents. */
  function Refit(local: AABB, m: Mat4): (g: AABB)
    ensures WellFormed(g)
    ensures g.center == XYZ(MulVec(m, Point(local.center)))
    ensures g.extents == WorldExtents(m, local.extents)
  {
    var w := WorldExtents(m, local.extents);
    FromCenter(XYZ(MulVec(m, Point(local.center))), w.x, w.y, w.z)
  }

  lemma AbsNegFactor(a: real, b: real)
    ensures Abs(-a * b) == Abs(a * b)
  {
    assert -a * b == -(a * b);
  }

  /** Summing the absolute projections of the scaled right, up and forward
      vectors on one axis gives that axis' `RowExtent`. */
  lemma ProjectionRow(a: real, b: real, c: real, pa: real, pb: real, pc: real, e: Vec3)
    requires pa == a * e.x && pb == b * e.y && pc == -c * e.z
    ensures Abs(pa) + Abs(pb) + Abs(pc) == RowExtent(a, b, c, e)
  {
    AbsNegFactor(c, e.z);
  }

  /** `WorldExtents` is what the source computes: scale the right, up and
      forward basis vectors by the local half-extents and sum, per world
      axis, the absolute dot products with that axis. */
  lemma WorldExtentsAsProjections(m: Mat4, e: Vec3)
    ensures var right, up, forward := Scale(Right(m), e.x), Scale(Up(m), e.y), Scale(Forward(m), e.z);
            WorldExtents(m, e)
              == Vec3(Abs(Dot(Vec3(1.0, 0.0, 0.0), right)) + Abs(Dot(Vec3(1.0, 0.0, 0.0), up))
                        + Abs(Dot(Vec3(1.0, 0.0, 0.0), forward)),
                      Abs(Dot(Vec3(0.0, 1.0, 0.0), right)) + Abs(Dot(Vec3(0.0, 1.0, 0.0), up))
                        + Abs(Dot(Vec3(0.0, 1.0, 0.0), forward)),
                      Abs(Dot(Vec3(0.0, 0.0, 1.0), right)) + Abs(Dot(Vec3(0.0, 0.0, 1.0), up))
                        + Abs(Dot(Vec3(0.0, 0.0, 1.0), forward)))
  {
    var right, up, forward := Scale(Right(m), e.x), Scale(Up(m), e.y), Scale(Forward(m), e.z);
    var i, j, k := Vec3(1.0, 0.0, 0.0), Vec3(0.0, 1.0, 0.0), Vec3(0.0, 0.0, 1.0);
    ProjectionRow(m.c0.x, m.c1.x, m.c2.x, Dot(i, right), Dot(i, up), Dot(i, forward), e);
    ProjectionRow(m.c0.y, m.c1.y, m.c2.y, Dot(j, right), Dot(j, up), Dot(j, forward), e);
    ProjectionRow(m.c0.z, m.c1.z, m.c2.z, Dot(k, right), Dot(k, up), Dot(k, forward), e);
  }

  /** Negating the third column leaves the row extent unchanged. */
  lemma RowExtentFlip(a: real, b: real, c: real, e: Vec3)
    ensures RowExtent(a, b, -c, e) == RowExtent(a, b, c, e)
  {
    AbsNegFactor(c, e.z);
  }

  /** The sign of the third basis column does not affect the extents, so
      `getForward` (the negated column) and `getBackward` give one box. */
  lemma RefitIgnoresForwardSign(local: AABB, m: Mat4)
    ensures var flipped := Mat4(m.c0, m.c1, Vec4(-m.c2.x, -m.c2.y, -m.c2.z, m.c2.w), m.c3);
            Refit(local, flipped).extents == Refit(local, m).extents
  {
    RowExtentFlip(m.c0.x, m.c1.x, m.c2.x, local.extents);
    RowExtentFlip(m.c0.y, m.c1.y, m.c2.y, local.extents);
    RowExtentFlip(m.c0.z, m.c1.z, m.c2.z, local.extents);
  }

  /** A unit row picks one non-negative half-extent. */
  lemma RowExtentUnit(e: Vec3)
    requires 0.0 <= e.x && 0.0 <= e.y && 0.0 <= e.z
    ensures RowExtent(1.0, 0.0, 0.0, e) == e.x
    ensures RowExtent(0.0, 1.0, 0.0, e) == e.y
    ensures RowExtent(0.0, 0.0, 1.0, e) == e.z
  {
  }

  /** Under the identity matrix a well-formed box is its own world box. */
  lemma RefitIdentity(local: AABB)
    requires WellFormed(local)
    ensures Refit(local, Identity()) == local
  {
    RowExtentUnit(local.extents);
    assert Refit(local, Identity()).extents == local.extents;
    assert Refit(local, Identity()).center == local.center;
  }

  /** Vertex of `getVertice`: `center +/- extents` on each axis. */
  function Vertex(b: AABB, hx: bool, hy: bool, hz: bool): Vec3 {
    Vec3(if hx then b.center.x + b.extents.x else b.center.x - b.extents.x,
         if hy then b.center.y + b.extents.y else b.center.y - b.extents.y,
         if hz then b.center.z + b.extents.z else b.center.z - b.extents.z)
  }

  /** Row `(a, b, c, t)` of a matrix applied to a point. */
  function RowAt(a: real, b: real, c: real, t: real, p: Vec3): real {
    a * p.x + b * p.y + c * p.z + t * 1.0
  }

  /** The offset `+p` or `-p` of one vertex coordinate from the center. */
  function Signed(h: bool, p: real): real {
    if h then p else -p
  }

  /** One term of a row applied to a vertex coordinate `c +/- e`. */
  lemma VertexTerm(a: real, c: real, e: real, h: bool)
    ensures a * (if h then c + e else c - e) == a * c + Signed(h, a * e)
  {
  }

  /** A row applied to a vertex is the row applied to the center plus one
      signed offset per axis. */
  lemma RowAtVertex(a: real, b: real, c: real, t: real, box: AABB, hx: bool, hy: bool, hz: bool)
    ensures RowAt(a, b, c, t, Vertex(box, hx, hy, hz))
              == RowAt(a, b, c, t, box.center) + Signed(hx, a * box.extents.x)
                 + Signed(hy, b * box.extents.y) + Signed(hz, c * box.extents.z)
  {
    VertexTerm(a, box.center.x, box.extents.x, hx);
    VertexTerm(b, box.center.y, box.extents.y, hy);
    VertexTerm(c, box.center.z, box.extents.z, hz);
  }

  /** One world coordinate of a transformed vertex lies within `RowExtent`
      of the transformed center's coordinate; the vertex that picks each
      sign to match reaches the upper end, the one that picks each sign
      against reaches the lower end. */
  lemma RowVertex(a: real, b: real, c: real, t: real, box: AABB, hx: bool, hy: bool, hz: bool)
    ensures var s, r := RowAt(a, b, c, t, box.center), RowExtent(a, b, c, box.extents);
            var v := RowAt(a, b, c, t, Vertex(box, hx, hy, hz));
            s - r <= v <= s + r
            && ((hx == (a * box.extents.x >= 0.0) && hy == (b * box.extents.y >= 0.0)
                 && hz == (c * box.extents.z >= 0.0)) ==> v == s + r)
            && ((hx == (a * box.extents.x < 0.0) && hy == (b * box.extents.y < 0.0)
                 && hz == (c * box.extents.z < 0.0)) ==> v == s - r)
  {
    RowAtVertex(a, b, c, t, box, hx, hy, hz);
    SignedSumBound(RowAt(a, b, c, t, box.center), RowAt(a, b, c, t, Vertex(box, hx, hy, hz)),
                   RowExtent(a, b, c, box.extents),
                   a * box.extents.x, b * box.extents.y, c * box.extents.z, hx, hy, hz);
  }

  /** A sum of three signed terms lies within the sum of their absolute
      values of its base; it reaches the upper end when every sign matches
      its term's and the lower end when every sign opposes it. */
  lemma SignedSumBound(s: real, v: real, r: real, px: real, py: real, pz: real, hx: bool, hy: bool, hz: bool)
    requires v == s + Signed(hx, px) + Signed(hy, py) + Signed(hz, pz)
    requires r == AbsSum(px, py, pz)
    ensures s - r <= v <= s + r
    ensures (hx == (px >= 0.0) && hy == (py >= 0.0) && hz == (pz >= 0.0)) ==> v == s + r
    ensures (hx == (px < 0.0) && hy == (py < 0.0) && hz == (pz < 0.0)) ==> v == s - r
  {
  }

  /** A transformed point, row by row. */
  lemma MulPointRows(m: Mat4, p: Vec3)
    ensures XYZ(MulVec(m, Point(p)))
              == Vec3(RowAt(m.c0.x, m.c1.x, m.c2.x, m.c3.x, p),
                      RowAt(m.c0.y, m.c1.y, m.c2.y, m.c3.y, p),
                      RowAt(m.c0.z, m.c1.z, m.c2.z, m.c3.z, p))
  {
  }

  /** The re-fit box bounds all eight transformed vertices of the local box. */
  lemma RefitBoundsVertices(local: AABB, m: Mat4, hx: bool, hy: bool, hz: bool)
    ensures InBox(XYZ(MulVec(m, Point(Vertex(local, hx, hy, hz)))), Refit(local, m))
  {
    MulPointRows(m, local.center);
    MulPointRows(m, Vertex(local, hx, hy, hz));
    RowVertex(m.c0.x, m.c1.x, m.c2.x, m.c3.x, local, hx, hy, hz);
    RowVertex(m.c0.y, m.c1.y, m.c2.y, m.c3.y, local, hx, hy, hz);
    RowVertex(m.c0.z, m.c1.z, m.c2.z, m.c3.z, local, hx, hy, hz);
  }

  /** The re-fit box is tight: on every world axis the vertex whose signs
      follow that row of the matrix reaches the maximum and the vertex whose
      signs oppose it reaches the minimum, so with `RefitBoundsVertices` the
      box is exactly the min/max box of the eight transformed corners. */
  lemma RefitTight(local: AABB, m: Mat4, hx: bool, hy: bool, hz: bool)
    ensures var e := local.extents;
            (hx == (m.c0.x * e.x >= 0.0) && hy == (m.c1.x * e.y >= 0.0) && hz == (m.c2.x * e.z >= 0.0))
            ==> XYZ(MulVec(m, Point(Vertex(local, hx, hy, hz)))).x == Refit(local, m).pMax.x
    ensures var e := local.extents;
            (hx == (m.c0.y * e.x >= 0.0) && hy == (m.c1.y * e.y >= 0.0) && hz == (m.c2.y * e.z >= 0.0))
            ==> XYZ(MulVec(m, Point(Vertex(local, hx, hy, hz)))).y == Refit(local, m).pMax.y
    ensures var e := local.extents;
            (hx == (m.c0.z * e.x >= 0.0) && hy == (m.c1.z * e.y >= 0.0) && hz == (m.c2.z * e.z >= 0.0))
            ==> XYZ(MulVec(m, Point(Vertex(local, hx, hy, hz)))).z == Refit(local, m).pMax.z
    ensures var e := local.extents;
            (hx == (m.c0.x * e.x < 0.0) && hy == (m.c1.x * e.y < 0.0) && hz == (m.c2.x * e.z < 0.0))
            ==> XYZ(MulVec(m, Point(Vertex(local, hx, hy, hz)))).x == Refit(local, m).pMin.x
    ensures var e := local.extents;
            (hx == (m.c0.y * e.x < 0.0) && hy == (m.c1.y * e.y < 0.0) && hz == (m.c2.y * e.z < 0.0))
            ==> XYZ(MulVec(m, Point(Vertex(local, hx, hy, hz)))).y == Refit(local, m).pMin.y
    ensures var e := local.extents;
            (hx == (m.c0.z * e.x < 0.0) && hy == (m.c1.z * e.y < 0.0) && hz == (m.c2.z * e.z < 0.0))
            ==> XYZ(MulVec(m, Point(Vertex(local, hx, hy, hz)))).z == Refit(local, m).pMin.z
  {
    MulPointRows(m, local.center);
    MulPointRows(m, Vertex(local, hx, hy, hz));
    RowVertex(m.c0.x, m.c1.x, m.c2.x, m.c3.x, local, hx, hy, hz);
    RowVertex(m.c0.y, m.c1.y, m.c2.y, m.c3.y, local, hx, hy, hz);
    RowVertex(m.c0.z, m.c1.z, m.c2.z, m.c3.z, local, hx, hy, hz);
  }

  /** `AABB::isOnFrustum(frustum, transform)`: re-fit, then the six-plane test. */
  predicate IsOnFrustumTransformed(local: AABB, f: Frustum, m: Mat4)
  {
    IsOnFrustum(Refit(local, m), f)
  }

  /** With the identity transform the transformed test is the plain test. */
  lemma TransformedIdentity(local: AABB, f: Frustum)
    requires WellFormed(local)
    ensures IsOnFrustumTransformed(local, f, Identity()) <==> IsOnFrustum(local, f)
  {
    RefitIdentity(local);
  }
}
