/**
 * Surface materials from src/material.rs: Schlick's reflectance polynomial, the three
 * material kinds and `scatter`. The random draws, `f32::sqrt`, `f32::cos`, `f32::sin`
 * and `Vec3::refract` are parameters.
 */
module Materials {
  import opened Arith
  import opened Vectors
  import opened Rays
  import opened Hittables

  /** f32::powi for a non-negative exponent. */
  function Pow(x: real, n: nat): real {
    if n == 0 then 1.0 else x * Pow(x, n - 1)
  }

  /** A power of a number in [0, 1] stays in [0, 1]. */
  lemma {:induction false} PowUnitInterval(x: real, n: nat)
    requires 0.0 <= x <= 1.0
    ensures 0.0 <= Pow(x, n) <= 1.0
  {
    if n > 0 {
      PowUnitInterval(x, n - 1);
      UnitProduct(x, Pow(x, n - 1));
    }
  }

  lemma {:induction false} PowZero(n: nat)
    requires n > 0
    ensures Pow(0.0, n) == 0.0
  {
    ZeroFactor(0.0, Pow(0.0, n - 1));
  }

  /** Reflectance at normal incidence: `((1 - k) / (1 + k))^2`. */
  function R0(refIdx: real): (r: real)
    requires refIdx != -1.0
    ensures 0.0 <= r
  {
    var q := (1.0 - refIdx) / (1.0 + refIdx);
    SquareSign(q);
    q * q
  }

  /** With a positive index ratio the reflectance at normal incidence is below one. */
  lemma R0BelowOne(refIdx: real)
    requires refIdx > 0.0
    ensures R0(refIdx) < 1.0
  {
    var q := (1.0 - refIdx) / (1.0 + refIdx);
    assert q * (1.0 + refIdx) == 1.0 - refIdx;
    assert (1.0 + refIdx) * (1.0 - q) == 2.0 * refIdx;
    assert (1.0 + refIdx) * (1.0 + q) == 2.0;
    MulSign(1.0 + refIdx, 1.0 - q);
    MulSign(1.0 + refIdx, 1.0 + q);
    ZeroFactor(1.0 + refIdx, 1.0 - q);
    ZeroFactor(1.0 + refIdx, 1.0 + q);
    assert 1.0 - q > 0.0 && 1.0 + q > 0.0;
    MulSign(1.0 - q, 1.0 + q);
    assert (1.0 - q) * (1.0 + q) == 1.0 - q * q;
    assert R0(refIdx) == q * q;
  }

  /** schlick: `r0 + (1 - r0) (1 - cosine)^5`. */
  function Schlick(cosine: real, refIdx: real): real
    requires refIdx != -1.0
  {
    var r0 := R0(refIdx);
    r0 + (1.0 - r0) * Pow(1.0 - cosine, 5)
  }

  /** At normal incidence (cosine 1) the reflectance is `r0`. */
  lemma SchlickNormalIncidence(refIdx: real)
    requires refIdx != -1.0
    ensures Schlick(1.0, refIdx) == R0(refIdx)
  {
    PowZero(5);
    ZeroFactor(1.0 - R0(refIdx), Pow(0.0, 5));
  }

  /** With matched indices (ratio 1) there is no reflection term: the result is `(1 - cosine)^5`. */
  lemma SchlickMatchedIndex(cosine: real)
    ensures Schlick(cosine, 1.0) == Pow(1.0 - cosine, 5)
  {
    assert R0(1.0) == 0.0;
  }

  /** For a cosine in [0, 1] and a positive ratio the reflectance lies in [r0, 1]. */
  lemma SchlickRange(cosine: real, refIdx: real)
    requires 0.0 <= cosine <= 1.0 && refIdx > 0.0
    ensures R0(refIdx) <= Schlick(cosine, refIdx) <= 1.0
  {
    var r0 := R0(refIdx);
    var p := Pow(1.0 - cosine, 5);
    R0BelowOne(refIdx);
    PowUnitInterval(1.0 - cosine, 5);
    NonNegProduct(1.0 - r0, p);
    assert (1.0 - r0) * (1.0 - p) == (1.0 - r0) - (1.0 - r0) * p;
    NonNegProduct(1.0 - r0, 1.0 - p);
  }

  datatype LambertianMaterial = LambertianMaterial(albedo: Vec3)

  datatype MetalMaterial = MetalMaterial(albedo: Vec3, fuzz: real)

  datatype DielectricMaterial = DielectricMaterial(refIdx: real)

  datatype Material =
    | Lambertian(lambertian: LambertianMaterial)
    | Metal(metal: MetalMaterial)
    | Dielectric(dielectric: DielectricMaterial)

  /**
   * MetalMaterial::new: a fuzz above 1 is lowered to 1; any other fuzz, negative ones
   * included, is kept.
   */
  function NewMetal(albedo: Vec3, fuzz: real): (m: MetalMaterial)
    ensures m.albedo == albedo
    ensures m.fuzz <= 1.0 && m.fuzz <= fuzz
    ensures m.fuzz == fuzz || m.fuzz == 1.0
  {
    var f := if fuzz > 1.0 then 1.0 else fuzz;
    MetalMaterial(albedo, f)
  }

  /** The clamp is idempotent: building from a stored fuzz keeps it. */
  lemma NewMetalIdempotent(albedo: Vec3, fuzz: real)
    ensures NewMetal(albedo, NewMetal(albedo, fuzz).fuzz) == NewMetal(albedo, fuzz)
  {
  }

  /** There is no lower clamp: every fuzz up to 1, negative ones included, is stored as given. */
  lemma NewMetalNoLowerClamp(albedo: Vec3, fuzz: real)
    requires fuzz <= 1.0
    ensures NewMetal(albedo, fuzz).fuzz == fuzz
  {
  }

  /** The random values one call of `scatter` consumes. */
  datatype Draws = Draws(
    angle: real,          // random_unit_vector's angle in [0, 2 pi)
    height: real,         // random_unit_vector's z in [-1, 1]
    inUnitSphere: Vec3,   // the point random_in_unit_sphere accepts
    uniform: real)        // random_f(0, 1), compared with the reflectance

  /** The `(bool, Ray, Vec3)` that scatter returns. */
  datatype ScatterResult = ScatterResult(valid: bool, scattered: Ray, attenuation: Vec3)

  /** The ratio of refractive indices: `1 / refIdx` entering the surface, `refIdx` leaving it. */
  function EtaRatio(refIdx: real, frontFace: bool): (eta: real)
    requires frontFace ==> refIdx != 0.0
    ensures refIdx != -1.0 ==> eta != -1.0
  {
    if frontFace then 1.0 / refIdx else refIdx
  }

  /** `cos_theta`: the cosine between the reversed direction and the normal, capped at 1. */
  function CosTheta(direction: Vec3, normal: Vec3): (c: real)
    ensures c <= 1.0
  {
    var d := Dot(Neg(direction), normal);
    if d < 1.0 then d else 1.0
  }

  /** `sin_theta = sqrt(1 - cos_theta^2)`; a true sine whenever the cosine is at most 1 in size. */
  function SinTheta(cosTheta: real, sqrt: real -> real): (s: real)
    ensures IsSqrt(sqrt) && cosTheta * cosTheta <= 1.0 ==> 0.0 <= s && s * s + cosTheta * cosTheta == 1.0
  {
    sqrt(1.0 - cosTheta * cosTheta)
  }

  /** For unit direction and normal, `1 - cos_theta^2` is a valid argument of the square root. */
  lemma SinThetaDefined(direction: Vec3, normal: Vec3)
    requires LengthSquared(direction) == 1.0 && LengthSquared(normal) == 1.0
    ensures 0.0 <= 1.0 - CosTheta(direction, normal) * CosTheta(direction, normal)
  {
    var u := Neg(direction);
    assert LengthSquared(u) == 1.0;
    CauchySchwarz(u, normal);
    var c := CosTheta(direction, normal);
    var d := Dot(u, normal);
    assert d * d <= 1.0;
    SquareAtMostOne(d);
    NonNegProduct(1.0 - c, 1.0 + c);
    assert (1.0 - c) * (1.0 + c) == 1.0 - c * c;
  }

  /** Snell's law has no solution: `eta sin_theta > 1`. */
  predicate TotalInternalReflection(eta: real, sinTheta: real) {
    eta * sinTheta > 1.0
  }

  /**
   * The glass branch of Material::scatter after the unit direction and the ratio `eta` are
   * known: the mirror reflection under total internal reflection or
   * when the uniform draw falls below Schlick's reflectance, the refraction otherwise.
   */
  function GlassDirection(direction: Vec3, normal: Vec3, eta: real, uniform: real,
                          sqrt: real -> real, refract: (Vec3, Vec3, real) -> Vec3): (d: Vec3)
    requires eta != -1.0
    ensures d == Reflect(direction, normal) || d == refract(direction, normal, eta)
  {
    var cosTheta := CosTheta(direction, normal);
    var sinTheta := SinTheta(cosTheta, sqrt);
    if TotalInternalReflection(eta, sinTheta) then
      Reflect(direction, normal)
    else if uniform < Schlick(cosTheta, eta) then
      Reflect(direction, normal)
    else
      refract(direction, normal, eta)
  }

  /**
   * Under total internal reflection the glass reflects whatever the uniform draw is.
   */
  lemma GlassTotalInternalReflection(direction: Vec3, normal: Vec3, eta: real, uniform1: real,
                                     uniform2: real, sqrt: real -> real,
                                     refract: (Vec3, Vec3, real) -> Vec3)
    requires eta != -1.0
    requires TotalInternalReflection(eta, SinTheta(CosTheta(direction, normal), sqrt))
    ensures GlassDirection(direction, normal, eta, uniform1, sqrt, refract)
         == GlassDirection(direction, normal, eta, uniform2, sqrt, refract)
         == Reflect(direction, normal)
  {
  }

  /**
   * A ray entering glass of index at least 1 (ratio `1 / refIdx`) is never totally
   * reflected: `eta sin_theta <= 1` for unit direction and normal.
   */
  lemma EnteringNeverTotallyReflects(refIdx: real, direction: Vec3, normal: Vec3, sqrt: real -> real)
    requires IsSqrt(sqrt)
    requires LengthSquared(direction) == 1.0 && LengthSquared(normal) == 1.0
    requires refIdx >= 1.0
    ensures !TotalInternalReflection(EtaRatio(refIdx, true), SinTheta(CosTheta(direction, normal), sqrt))
  {
    var c := CosTheta(direction, normal);
    SinThetaDefined(direction, normal);
    var s := SinTheta(c, sqrt);
    assert s * s <= 1.0;
    SquareAtMostOne(s);
    var eta := EtaRatio(refIdx, true);
    assert eta == 1.0 / refIdx;
    assert 0.0 <= eta <= 1.0;
    UnitProduct(eta, s);
  }

  /**
   * Head-on through glass whose index matches the outside (ratio 1, cosine 1), Schlick's
   * reflectance is 0, so every draw in [0, 1) refracts.
   */
  lemma MatchedIndexHeadOnRefracts(direction: Vec3, normal: Vec3, uniform: real,
                                   sqrt: real -> real, refract: (Vec3, Vec3, real) -> Vec3)
    requires IsSqrt(sqrt)
    requires CosTheta(direction, normal) == 1.0
    requires 0.0 <= uniform
    ensures GlassDirection(direction, normal, 1.0, uniform, sqrt, refract) == refract(direction, normal, 1.0)
  {
    SqrtOfSquare(sqrt, 0.0, 0.0);
    assert SinTheta(1.0, sqrt) == 0.0;
    SchlickMatchedIndex(1.0);
    PowZero(5);
  }

  /**
   * Material::scatter. The scattered ray always starts at the hit point. A zero ray
   * direction, which the source turns into NaN through `normalize`, is excluded for
   * metal and glass, as are the index ratios at which it divides by zero.
   */
  function Scatter(m: Material, ray: Ray, rec: HitRecord, draws: Draws,
                   sqrt: real -> real, cos: real -> real, sin: real -> real,
                   refract: (Vec3, Vec3, real) -> Vec3): (r: ScatterResult)
    requires IsSqrt(sqrt) && IsCosSin(cos, sin)
    requires -1.0 <= draws.height <= 1.0
    requires m.Metal? ==> LengthSquared(draws.inUnitSphere) < 1.0
    requires !m.Lambertian? ==> LengthSquared(ray.direction) > 0.0
    requires m.Dielectric? ==>
               m.dielectric.refIdx != -1.0 && (rec.frontFace ==> m.dielectric.refIdx != 0.0)
    ensures r.scattered.origin == rec.point
    ensures m.Lambertian? ==>
              r.valid && r.attenuation == m.lambertian.albedo
              && r.scattered.direction
                 == Add(rec.normal, RandomUnitVector(draws.angle, draws.height, sqrt, cos, sin))
    ensures m.Metal? ==>
              r.attenuation == m.metal.albedo
              && r.scattered.direction
                 == Add(Reflect(Normalize(ray.direction, sqrt), rec.normal),
                        ScalarMul(m.metal.fuzz, draws.inUnitSphere))
              && (r.valid <==> Dot(r.scattered.direction, rec.normal) > 0.0)
    ensures m.Dielectric? ==>
              r.valid && r.attenuation == Vec3(1.0, 1.0, 1.0)
              && r.scattered.direction
                 == GlassDirection(Normalize(ray.direction, sqrt), rec.normal,
                                   EtaRatio(m.dielectric.refIdx, rec.frontFace), draws.uniform, sqrt, refract)
  {
    match m
    case Lambertian(LambertianMaterial(albedo)) =>
      var scatterDirection := Add(rec.normal, RandomUnitVector(draws.angle, draws.height, sqrt, cos, sin));
      ScatterResult(true, Ray(rec.point, scatterDirection), albedo)
    case Metal(MetalMaterial(albedo, fuzz)) =>
      var reflected := Reflect(Normalize(ray.direction, sqrt), rec.normal);
      var scattered := Ray(rec.point, Add(reflected, ScalarMul(fuzz, draws.inUnitSphere)));
      ScatterResult(Dot(scattered.direction, rec.normal) > 0.0, scattered, albedo)
    case Dielectric(DielectricMaterial(refIdx)) =>
      var attenuation := Vec3(1.0, 1.0, 1.0);
      var eta := EtaRatio(refIdx, rec.frontFace);
      var direction := Normalize(ray.direction, sqrt);
      ScatterResult(true, Ray(rec.point, GlassDirection(direction, rec.normal, eta, draws.uniform, sqrt, refract)),
                    attenuation)
  }

  /**
   * A metal with zero fuzz is a mirror: the ray is the reflection of the unit direction
   * about the normal, and with a unit normal the result is valid exactly when the
   * incoming ray travels against the normal.
   */
  lemma MetalMirror(albedo: Vec3, ray: Ray, rec: HitRecord, draws: Draws,
                    sqrt: real -> real, cos: real -> real, sin: real -> real,
                    refract: (Vec3, Vec3, real) -> Vec3)
    requires IsSqrt(sqrt) && IsCosSin(cos, sin)
    requires -1.0 <= draws.height <= 1.0
    requires LengthSquared(draws.inUnitSphere) < 1.0
    requires LengthSquared(ray.direction) > 0.0
    ensures var r := Scatter(Metal(MetalMaterial(albedo, 0.0)), ray, rec, draws, sqrt, cos, sin, refract);
            r.scattered.direction == Reflect(Normalize(ray.direction, sqrt), rec.normal)
            && (LengthSquared(rec.normal) == 1.0 ==> (r.valid <==> Dot(ray.direction, rec.normal) < 0.0))
  {
    var u := Normalize(ray.direction, sqrt);
    var reflected := Reflect(u, rec.normal);
    assert Add(reflected, ScalarMul(0.0, draws.inUnitSphere)) == reflected;
    if LengthSquared(rec.normal) == 1.0 {
      ReflectFlipsNormal(u, rec.normal);
      var len := Length(ray.direction, sqrt);
      DotScale(u, len, rec.normal);
      ZeroFactor(len, len);
      MulSign(len, Dot(u, rec.normal));
      ZeroFactor(len, Dot(u, rec.normal));
    }
  }
}
