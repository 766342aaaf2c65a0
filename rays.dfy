/**
 * The `Ray` value type of src/ray.rs: an origin and a direction. `Ray::new` is the
 * datatype constructor, which stores both fields unchanged.
 */
module Rays {
  import opened Vectors

  datatype Ray = Ray(origin: Vec3, direction: Vec3)

  /** Ray::at: the point `origin + t * direction`; its offset from the origin is `t * direction`. */
  function At(ray: Ray, t: real): (p: Vec3)
    ensures Sub(p, ray.origin) == ScalarMul(t, ray.direction)
  {
    Add(ray.origin, ScalarMul(t, ray.direction))
  }

  lemma AtZero(ray: Ray)
    ensures At(ray, 0.0) == ray.origin
  {
  }

  lemma AtOne(ray: Ray)
    ensures At(ray, 1.0) == Add(ray.origin, ray.direction)
  {
  }

  /** Moving the parameter by `s` moves the point by `s * direction`. */
  lemma AtShift(ray: Ray, t: real, s: real)
    ensures At(ray, t + s) == Add(At(ray, t), ScalarMul(s, ray.direction))
  {
  }

  /** Seen from a point `c`, the ray is the ray from `origin - c` in the same direction. */
  lemma AtOffset(ray: Ray, c: Vec3, t: real)
    ensures Sub(At(ray, t), c) == Add(Sub(ray.origin, c), ScalarMul(t, ray.direction))
  {
  }

  /** The squared distance from `c` along the ray is a quadratic in the parameter. */
  lemma OffsetAlongRay(ray: Ray, c: Vec3, t: real)
    ensures LengthSquared(Sub(At(ray, t), c))
         == LengthSquared(Sub(ray.origin, c)) + 2.0 * t * Dot(Sub(ray.origin, c), ray.direction)
            + t * t * LengthSquared(ray.direction)
  {
    AtOffset(ray, c, t);
    LengthSquaredAlongLine(Sub(ray.origin, c), ray.direction, t);
  }
}
