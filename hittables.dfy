/**
 * Ray-object intersection from src/hittable.rs: the hit record, the sphere test and the
 * scan over a list of objects for the nearest hit. `f32::sqrt` is the parameter `sqrt`.
 */
module Hittables {
  import opened Options
  import opened Vectors
  import opened Rays
  import opened Arith

  datatype HitRecord = HitRecord(point: Vec3, normal: Vec3, t: real, frontFace: bool)

  /** HitRecord::new: every field zero and not front-facing. */
  function EmptyRecord(): HitRecord {
    HitRecord(Zero(), Zero(), 0.0, false)
  }

  /**
   * HitRecord::set_face_normal. The record is a local copy in the source, so the update
   * in place is a functional update here. The stored normal faces against the ray and
   * has the length of the outward normal; point and t are untouched.
   */
  function SetFaceNormal(rec: HitRecord, ray: Ray, outwardNormal: Vec3): (r: HitRecord)
    ensures r.point == rec.point && r.t == rec.t
    ensures r.frontFace <==> Dot(ray.direction, outwardNormal) < 0.0
    ensures r.normal == (if r.frontFace then outwardNormal else Neg(outwardNormal))
    ensures Dot(ray.direction, r.normal) <= 0.0
    ensures LengthSquared(r.normal) == LengthSquared(outwardNormal)
  {
    var frontFace := Dot(ray.direction, outwardNormal) < 0.0;
    rec.(frontFace := frontFace, normal := if frontFace then outwardNormal else Neg(outwardNormal))
  }

  datatype Sphere = Sphere(center: Vec3, radius: real)

  /** HittableObject: the closed set of shapes, of which the sphere is the only one. */
  datatype HittableObject = SphereObject(sphere: Sphere)

  /** `point` lies on the surface of the sphere. */
  predicate OnSurface(s: Sphere, point: Vec3) {
    LengthSquared(Sub(point, s.center)) == s.radius * s.radius
  }

  // The sphere test writes |origin + t direction - center|^2 = radius^2 as
  // a t^2 + 2 halfB t + c = 0.

  function QuadA(ray: Ray): real {
    LengthSquared(ray.direction)
  }

  function QuadHalfB(s: Sphere, ray: Ray): real {
    Dot(Sub(ray.origin, s.center), ray.direction)
  }

  function QuadC(s: Sphere, ray: Ray): real {
    LengthSquared(Sub(ray.origin, s.center)) - s.radius * s.radius
  }

  function Discriminant(s: Sphere, ray: Ray): real {
    QuadHalfB(s, ray) * QuadHalfB(s, ray) - QuadA(ray) * QuadC(s, ray)
  }

  /**
   * A positive discriminant can only come from a moving ray and a sphere of non-zero
   * radius, so the sphere test never divides by zero.
   */
  lemma DiscriminantPositive(s: Sphere, ray: Ray)
    requires Discriminant(s, ray) > 0.0
    ensures QuadA(ray) > 0.0 && s.radius != 0.0
  {
    var oc := Sub(ray.origin, s.center);
    var a, hb, r := QuadA(ray), QuadHalfB(s, ray), s.radius;
    CauchySchwarz(oc, ray.direction);
    assert hb * hb <= LengthSquared(oc) * a;
    assert Discriminant(s, ray) == hb * hb - a * LengthSquared(oc) + a * (r * r);
    assert a * (r * r) > 0.0;
    ZeroFactor(a, r * r);
    ZeroFactor(r, r);
  }

  /** The smaller root `(-halfB - sqrt(discriminant)) / a`, the only one the source tries. */
  function NearRoot(s: Sphere, ray: Ray, sqrt: real -> real): real
    requires IsSqrt(sqrt)
    requires Discriminant(s, ray) > 0.0
  {
    DiscriminantPositive(s, ray);
    (-QuadHalfB(s, ray) - sqrt(Discriminant(s, ray))) / QuadA(ray)
  }

  /** The offset from the center at parameter t, as the quadratic in t. */
  lemma OffsetQuadratic(s: Sphere, ray: Ray, t: real)
    ensures LengthSquared(Sub(At(ray, t), s.center)) - s.radius * s.radius
            == QuadA(ray) * t * t + 2.0 * QuadHalfB(s, ray) * t + QuadC(s, ray)
  {
    QuadCoefficients(s, ray);
    OffsetAlongRay(ray, s.center, t);
  }

  /**
   * The bodies of QuadA, QuadHalfB and QuadC as equations. It states nothing new; it is
   * called first so that the solver rewrites with them before expanding the products.
   */
  lemma QuadCoefficients(s: Sphere, ray: Ray)
    ensures QuadA(ray) == LengthSquared(ray.direction)
    ensures QuadHalfB(s, ray) == Dot(Sub(ray.origin, s.center), ray.direction)
    ensures QuadC(s, ray) == LengthSquared(Sub(ray.origin, s.center)) - s.radius * s.radius
  {
  }

  /** The near root solves the quadratic, so the point it gives lies on the sphere. */
  lemma NearRootOnSurface(s: Sphere, ray: Ray, sqrt: real -> real)
    requires IsSqrt(sqrt)
    requires Discriminant(s, ray) > 0.0
    ensures OnSurface(s, At(ray, NearRoot(s, ray, sqrt)))
  {
    DiscriminantPositive(s, ray);
    SmallerRootSolves(QuadA(ray), QuadHalfB(s, ray), QuadC(s, ray), sqrt(Discriminant(s, ray)));
    RootOnSurface(s, ray, NearRoot(s, ray, sqrt));
  }

  /** A root of the quadratic in t gives a point on the sphere. */
  lemma RootOnSurface(s: Sphere, ray: Ray, t: real)
    requires QuadA(ray) * t * t + 2.0 * QuadHalfB(s, ray) * t + QuadC(s, ray) == 0.0
    ensures OnSurface(s, At(ray, t))
  {
    OffsetQuadratic(s, ray, t);
  }

  /** Every parameter at which the ray meets the sphere is at least the near root. */
  lemma NearRootIsNearest(s: Sphere, ray: Ray, sqrt: real -> real, t: real)
    requires IsSqrt(sqrt)
    requires Discriminant(s, ray) > 0.0
    requires OnSurface(s, At(ray, t))
    ensures NearRoot(s, ray, sqrt) <= t
  {
    DiscriminantPositive(s, ray);
    OffsetQuadratic(s, ray, t);
    SmallerRootLeast(QuadA(ray), QuadHalfB(s, ray), QuadC(s, ray), sqrt(Discriminant(s, ray)), t);
  }

  /** A point on the sphere, less the center and divided by the radius, has unit length. */
  lemma UnitOutwardNormal(s: Sphere, point: Vec3)
    requires s.radius != 0.0 && OnSurface(s, point)
    ensures LengthSquared(Div(Sub(point, s.center), s.radius)) == 1.0
  {
    var v := Sub(point, s.center);
    LengthSquaredScale(v, 1.0 / s.radius);
    assert Div(v, s.radius) == MulScalar(v, 1.0 / s.radius);
    InverseSquare(s.radius);
  }

  /**
   * The record the sphere test fills for parameter t: the point `ray.at(t)` and the
   * outward normal `(point - center) / radius`, oriented by SetFaceNormal.
   */
  function SphereRecord(s: Sphere, ray: Ray, t: real): (r: HitRecord)
    requires s.radius != 0.0
    ensures r.t == t && r.point == At(ray, t)
    ensures var outward := Div(Sub(r.point, s.center), s.radius);
            (r.frontFace <==> Dot(ray.direction, outward) < 0.0)
            && r.normal == (if r.frontFace then outward else Neg(outward))
  {
    var point := At(ray, t);
    SetFaceNormal(EmptyRecord().(t := t, point := point), ray, Div(Sub(point, s.center), s.radius))
  }

  /**
   * The sphere test starts from HitRecord::new and overwrites every field, so the
   * starting values never reach a hit: any starting record gives the same result.
   */
  lemma SphereRecordOverwrites(s: Sphere, ray: Ray, t: real, start: HitRecord)
    requires s.radius != 0.0
    ensures var point := At(ray, t);
            SetFaceNormal(start.(t := t, point := point), ray, Div(Sub(point, s.center), s.radius))
            == SphereRecord(s, ray, t)
  {
  }

  /**
   * HittableObject::hit for a sphere. Only the near root is tried: the second range
   * check in the source repeats the first, so the far root never produces a hit.
   */
  function ObjectHit(obj: HittableObject, ray: Ray, tMin: real, tMax: real, sqrt: real -> real)
    : (r: Option<HitRecord>)
    requires IsSqrt(sqrt)
    ensures r.Some? <==>
              Discriminant(obj.sphere, ray) > 0.0
              && tMin < NearRoot(obj.sphere, ray, sqrt) < tMax
    ensures r.Some? ==>
              Discriminant(obj.sphere, ray) > 0.0
              && r.value.t == NearRoot(obj.sphere, ray, sqrt)
              && tMin < r.value.t < tMax
              && r.value.point == At(ray, r.value.t)
    ensures r.Some? ==>
              obj.sphere.radius != 0.0 && r.value == SphereRecord(obj.sphere, ray, r.value.t)
  {
    var s := obj.sphere;
    if Discriminant(s, ray) > 0.0 then
      var temp := NearRoot(s, ray, sqrt);
      if temp < tMax && temp > tMin then
        DiscriminantPositive(s, ray);
        Some(SphereRecord(s, ray, temp))
      else
        None
    else
      None
  }

  /**
   * A hit lies on the sphere, carries a unit normal that faces against the ray, and
   * no point of the ray meets the sphere before it.
   */
  lemma HitGeometry(obj: HittableObject, ray: Ray, tMin: real, tMax: real, sqrt: real -> real)
    requires IsSqrt(sqrt)
    requires ObjectHit(obj, ray, tMin, tMax, sqrt).Some?
    ensures var rec := ObjectHit(obj, ray, tMin, tMax, sqrt).value;
            OnSurface(obj.sphere, rec.point)
            && LengthSquared(rec.normal) == 1.0
            && Dot(ray.direction, rec.normal) <= 0.0
            && (forall t :: OnSurface(obj.sphere, At(ray, t)) ==> rec.t <= t)
  {
    var s := obj.sphere;
    var rec := ObjectHit(obj, ray, tMin, tMax, sqrt).value;
    DiscriminantPositive(s, ray);
    NearRootOnSurface(s, ray, sqrt);
    UnitOutwardNormal(s, rec.point);
    forall t | OnSurface(s, At(ray, t))
      ensures rec.t <= t
    {
      NearRootIsNearest(s, ray, sqrt, t);
    }
  }

  /** A non-positive discriminant is always a miss. */
  lemma NoDiscriminantNoHit(obj: HittableObject, ray: Ray, tMin: real, tMax: real, sqrt: real -> real)
    requires IsSqrt(sqrt)
    requires Discriminant(obj.sphere, ray) <= 0.0
    ensures ObjectHit(obj, ray, tMin, tMax, sqrt) == None
  {
  }

  /**
   * Shrinking the upper bound to `c` keeps exactly the hits whose t is below `c`, and
   * keeps them unchanged.
   */
  lemma HitNarrowing(obj: HittableObject, ray: Ray, tMin: real, tMax: real, c: real, sqrt: real -> real)
    requires IsSqrt(sqrt)
    requires c <= tMax
    ensures var wide := ObjectHit(obj, ray, tMin, tMax, sqrt);
            ObjectHit(obj, ray, tMin, c, sqrt)
            == (if wide.Some? && wide.value.t < c then wide else None)
  {
  }

  /** The discriminant from known coefficients, for evaluating concrete cases. */
  lemma DiscriminantFrom(s: Sphere, ray: Ray, a: real, hb: real, c: real, d: real)
    requires QuadA(ray) == a && QuadHalfB(s, ray) == hb && QuadC(s, ray) == c
    requires d == hb * hb - a * c
    ensures Discriminant(s, ray) == d
  {
  }

  /** The near root from known coefficients and square root, for evaluating concrete cases. */
  lemma NearRootFrom(s: Sphere, ray: Ray, sqrt: real -> real, a: real, hb: real, root: real)
    requires IsSqrt(sqrt) && Discriminant(s, ray) > 0.0
    requires QuadA(ray) == a && QuadHalfB(s, ray) == hb && sqrt(Discriminant(s, ray)) == root
    ensures a != 0.0 && NearRoot(s, ray, sqrt) == (-hb - root) / a
  {
    DiscriminantPositive(s, ray);
  }

  lemma ExampleNearestHitCoefficients()
    ensures QuadA(Ray(Vec3(0.0, 0.0, 2.0), Vec3(0.0, 0.0, -1.0))) == 1.0
    ensures QuadHalfB(Sphere(Zero(), 1.0), Ray(Vec3(0.0, 0.0, 2.0), Vec3(0.0, 0.0, -1.0))) == -2.0
    ensures QuadC(Sphere(Zero(), 1.0), Ray(Vec3(0.0, 0.0, 2.0), Vec3(0.0, 0.0, -1.0))) == 3.0
  {
    assert LengthSquared(Vec3(0.0, 0.0, -1.0)) == 1.0;
    assert Sub(Vec3(0.0, 0.0, 2.0), Zero()) == Vec3(0.0, 0.0, 2.0);
    assert Dot(Vec3(0.0, 0.0, 2.0), Vec3(0.0, 0.0, -1.0)) == -2.0;
    assert LengthSquared(Vec3(0.0, 0.0, 2.0)) == 4.0;
  }

  lemma ExampleNearestHitDiscriminant()
    ensures Discriminant(Sphere(Zero(), 1.0), Ray(Vec3(0.0, 0.0, 2.0), Vec3(0.0, 0.0, -1.0))) == 1.0
  {
    ExampleNearestHitCoefficients();
    DiscriminantFrom(Sphere(Zero(), 1.0), Ray(Vec3(0.0, 0.0, 2.0), Vec3(0.0, 0.0, -1.0)), 1.0, -2.0, 3.0, 1.0);
  }

  lemma ExampleNearestHitRecord()
    ensures SphereRecord(Sphere(Zero(), 1.0), Ray(Vec3(0.0, 0.0, 2.0), Vec3(0.0, 0.0, -1.0)), 1.0)
         == HitRecord(Vec3(0.0, 0.0, 1.0), Vec3(0.0, 0.0, 1.0), 1.0, true)
  {
  }

  /**
   * The unit sphere at the origin seen from (0,0,2) looking down the z axis: the hit is
   * at t = 1, at the point (0,0,1), with normal (0,0,1) on the front face.
   */
  lemma ExampleNearestHit(sqrt: real -> real)
    requires IsSqrt(sqrt)
    ensures ObjectHit(SphereObject(Sphere(Zero(), 1.0)), Ray(Vec3(0.0, 0.0, 2.0), Vec3(0.0, 0.0, -1.0)),
                      0.001, 1000.0, sqrt)
         == Some(HitRecord(Vec3(0.0, 0.0, 1.0), Vec3(0.0, 0.0, 1.0), 1.0, true))
  {
    ExampleNearRoot(sqrt);
    ExampleNearestHitRecord();
  }

  lemma ExampleNearRoot(sqrt: real -> real)
    requires IsSqrt(sqrt)
    ensures Discriminant(Sphere(Zero(), 1.0), Ray(Vec3(0.0, 0.0, 2.0), Vec3(0.0, 0.0, -1.0))) == 1.0
    ensures NearRoot(Sphere(Zero(), 1.0), Ray(Vec3(0.0, 0.0, 2.0), Vec3(0.0, 0.0, -1.0)), sqrt) == 1.0
  {
    ExampleNearestHitCoefficients();
    ExampleNearestHitDiscriminant();
    SqrtOfSquare(sqrt, 1.0, 1.0);
    NearRootFrom(Sphere(Zero(), 1.0), Ray(Vec3(0.0, 0.0, 2.0), Vec3(0.0, 0.0, -1.0)), sqrt, 1.0, -2.0, 1.0);
  }

  lemma ExampleFarRootAt()
    ensures At(Ray(Vec3(0.0, 0.0, 2.0), Vec3(0.0, 0.0, -1.0)), 3.0) == Vec3(0.0, 0.0, -1.0)
  {
  }

  lemma ExampleFarRootOffset()
    ensures Sub(Vec3(0.0, 0.0, -1.0), Zero()) == Vec3(0.0, 0.0, -1.0)
  {
    assert Zero() == Vec3(0.0, 0.0, 0.0);
  }

  lemma ExampleFarRootLength()
    ensures LengthSquared(Vec3(0.0, 0.0, -1.0)) == 1.0
  {
  }

  lemma ExampleFarRootPoint()
    ensures OnSurface(Sphere(Zero(), 1.0), Vec3(0.0, 0.0, -1.0))
  {
    ExampleFarRootOffset();
    ExampleFarRootLength();
    OnSurfaceFrom(Sphere(Zero(), 1.0), Vec3(0.0, 0.0, -1.0), Vec3(0.0, 0.0, -1.0), 1.0, 1.0);
  }

  lemma OnSurfaceFrom(s: Sphere, point: Vec3, offset: Vec3, l: real, r: real)
    requires Sub(point, s.center) == offset && LengthSquared(offset) == l
    requires s.radius == r && l == r * r
    ensures OnSurface(s, point)
  {
  }

  /**
   * The same ray and sphere with the range (2, 10): the ray leaves the sphere at t = 3,
   * inside the range, but the near root 1 is not, and the far root is never tried, so
   * the test reports a miss.
   */
  lemma ExampleFarRootNeverUsed(sqrt: real -> real)
    requires IsSqrt(sqrt)
    ensures At(Ray(Vec3(0.0, 0.0, 2.0), Vec3(0.0, 0.0, -1.0)), 3.0) == Vec3(0.0, 0.0, -1.0)
    ensures OnSurface(Sphere(Zero(), 1.0), Vec3(0.0, 0.0, -1.0))
    ensures ObjectHit(SphereObject(Sphere(Zero(), 1.0)), Ray(Vec3(0.0, 0.0, 2.0), Vec3(0.0, 0.0, -1.0)),
                      2.0, 10.0, sqrt)
         == None
  {
    ExampleFarRootAt();
    ExampleFarRootPoint();
    ExampleNearRoot(sqrt);
  }

  /**
   * HittableList: the scene's objects in insertion order. `hit` scans them once,
   * narrowing the range to the closest hit found so far.
   */
  class HittableList {
    var objects: seq<HittableObject>

    /** `objects[k]` gives the nearest hit in (tMin, tMax), and every earlier object hits strictly later. */
    ghost predicate FirstNearest(k: int, rec: HitRecord, ray: Ray, tMin: real, tMax: real, sqrt: real -> real)
      reads this
      requires IsSqrt(sqrt)
    {
      0 <= k < |objects|
      && ObjectHit(objects[k], ray, tMin, tMax, sqrt) == Some(rec)
      && (forall j :: 0 <= j < k ==>
            ObjectHit(objects[j], ray, tMin, tMax, sqrt).None?
            || ObjectHit(objects[j], ray, tMin, tMax, sqrt).value.t > rec.t)
      && (forall j :: k < j < |objects| ==>
            ObjectHit(objects[j], ray, tMin, tMax, sqrt).None?
            || ObjectHit(objects[j], ray, tMin, tMax, sqrt).value.t >= rec.t)
    }

    /** HittableList::new: an empty list. */
    constructor ()
      ensures objects == []
    {
      objects := [];
    }

    /** HittableList::add: appends one object at the end. */
    method Add(item: HittableObject)
      modifies this
      ensures objects == old(objects) + [item]
    {
      objects := objects + [item];
    }

    /**
     * HittableList::hit. No object hits in the range exactly when the result is None;
     * otherwise the result is the hit with the smallest t, the earliest such object
     * winning a tie.
     */
    method Hit(ray: Ray, tMin: real, tMax: real, sqrt: real -> real) returns (r: Option<HitRecord>)
      requires IsSqrt(sqrt)
      ensures r.None? <==>
                forall j :: 0 <= j < |objects| ==> ObjectHit(objects[j], ray, tMin, tMax, sqrt).None?
      ensures r.Some? ==> tMin < r.value.t < tMax
      ensures r.Some? ==> exists k :: FirstNearest(k, r.value, ray, tMin, tMax, sqrt)
    {
      var rec := EmptyRecord();
      var hitAnything := false;
      var closestSoFar := tMax;
      ghost var k := 0;
      for i := 0 to |objects|
        invariant closestSoFar <= tMax
        invariant !hitAnything ==> closestSoFar == tMax
        invariant !hitAnything ==>
                    forall j :: 0 <= j < i ==> ObjectHit(objects[j], ray, tMin, tMax, sqrt).None?
        invariant hitAnything ==> 0 <= k < i && closestSoFar == rec.t
        invariant hitAnything ==> ObjectHit(objects[k], ray, tMin, tMax, sqrt) == Some(rec)
        invariant hitAnything ==>
                    forall j :: 0 <= j < k ==>
                      ObjectHit(objects[j], ray, tMin, tMax, sqrt).None?
                      || ObjectHit(objects[j], ray, tMin, tMax, sqrt).value.t > rec.t
        invariant hitAnything ==>
                    forall j :: k < j < i ==>
                      ObjectHit(objects[j], ray, tMin, tMax, sqrt).None?
                      || ObjectHit(objects[j], ray, tMin, tMax, sqrt).value.t >= rec.t
      {
        HitNarrowing(objects[i], ray, tMin, tMax, closestSoFar, sqrt);
        match ObjectHit(objects[i], ray, tMin, closestSoFar, sqrt)
        case Some(h) =>
          hitAnything := true;
          closestSoFar := h.t;
          rec := h;
          k := i;
        case None =>
      }
      if hitAnything {
        assert FirstNearest(k, rec, ray, tMin, tMax, sqrt);
        return Some(rec);
      } else {
        return None;
      }
    }
  }
}
