/**
 * The `Vec3` value type of src/vec.rs: three components and the operators on them.
 * Every `f32` is read as a `real`, so the algebraic identities below hold exactly.
 * `f32::sqrt`, `f32::cos` and `f32::sin` are passed in as functions constrained by
 * `IsSqrt` and `IsCosSin`; random draws are passed in as values.
 */
module Vectors {
  import opened Options
  import opened Arith

  datatype Vec3 = Vec3(x: real, y: real, z: real)

  /** `sqrt` returns the non-negative square root of every non-negative argument. */
  ghost predicate IsSqrt(sqrt: real -> real) {
    forall u :: 0.0 <= u ==> 0.0 <= sqrt(u) && sqrt(u) * sqrt(u) == u
  }

  /** The root of a square is the non-negative base. */
  lemma SqrtOfSquare(sqrt: real -> real, x: real, y: real)
    requires IsSqrt(sqrt) && x >= 0.0 && y == x * x
    ensures sqrt(y) == x
  {
    SquareRootUnique(sqrt(y), x);
  }

  /** `cos` and `sin` satisfy the Pythagorean identity at every angle. */
  ghost predicate IsCosSin(cos: real -> real, sin: real -> real) {
    forall a :: cos(a) * cos(a) + sin(a) * sin(a) == 1.0
  }

  /** Vec3::zero */
  function Zero(): Vec3 {
    Vec3(0.0, 0.0, 0.0)
  }

  /** The zero vector is the additive identity. */
  lemma AddZero(v: Vec3)
    ensures Add(v, Zero()) == v && Add(Zero(), v) == v
  {
  }

  /** -v */
  function Neg(v: Vec3): (r: Vec3)
    ensures Add(v, r) == Zero()
  {
    Vec3(-v.x, -v.y, -v.z)
  }

  /** vector + vector */
  function Add(a: Vec3, b: Vec3): Vec3 {
    Vec3(a.x + b.x, a.y + b.y, a.z + b.z)
  }

  /** vector + scalar: the scalar is added to every component. */
  function AddScalar(v: Vec3, s: real): Vec3 {
    Vec3(v.x + s, v.y + s, v.z + s)
  }

  /** vector - vector: undoes an addition. */
  function Sub(a: Vec3, b: Vec3): (r: Vec3)
    ensures Add(r, b) == a
  {
    Vec3(a.x - b.x, a.y - b.y, a.z - b.z)
  }

  /** vector - scalar: undoes a scalar addition. */
  function SubScalar(v: Vec3, s: real): (r: Vec3)
    ensures AddScalar(r, s) == v
  {
    Vec3(v.x - s, v.y - s, v.z - s)
  }

  /** vector * vector, componentwise. */
  function Mul(a: Vec3, b: Vec3): Vec3 {
    Vec3(a.x * b.x, a.y * b.y, a.z * b.z)
  }

  /** vector * scalar */
  function MulScalar(v: Vec3, s: real): Vec3 {
    Vec3(v.x * s, v.y * s, v.z * s)
  }

  /** scalar * vector, which the source defines as vector * scalar. */
  function ScalarMul(s: real, v: Vec3): Vec3 {
    MulScalar(v, s)
  }

  /** vector / scalar, which the source defines as `(1 / s) * v`; it undoes scaling by `s`. */
  function Div(v: Vec3, s: real): (r: Vec3)
    requires s != 0.0
    ensures MulScalar(r, s) == v
  {
    ScalarMul(1.0 / s, v)
  }

  function LengthSquared(v: Vec3): (r: real)
    ensures 0.0 <= r
  {
    SquareSign(v.x);
    SquareSign(v.y);
    SquareSign(v.z);
    v.x * v.x + v.y * v.y + v.z * v.z
  }

  function Dot(a: Vec3, b: Vec3): real {
    a.x * b.x + a.y * b.y + a.z * b.z
  }

  function Cross(a: Vec3, b: Vec3): Vec3 {
    Vec3(a.y * b.z - a.z * b.y,
         a.z * b.x - a.x * b.z,
         a.x * b.y - a.y * b.x)
  }

  /** Vec3::length, with `f32::sqrt` given as `sqrt`. */
  function Length(v: Vec3, sqrt: real -> real): (r: real)
    requires IsSqrt(sqrt)
    ensures 0.0 <= r && r * r == LengthSquared(v)
  {
    sqrt(LengthSquared(v))
  }

  /**
   * Vec3::normalize: `v / v.length()`. A zero vector gives NaN in the source; here
   * it is excluded. The result has unit length and points the same way as `v`.
   */
  function Normalize(v: Vec3, sqrt: real -> real): (r: Vec3)
    requires IsSqrt(sqrt)
    requires LengthSquared(v) > 0.0
    ensures LengthSquared(r) == 1.0
    ensures MulScalar(r, Length(v, sqrt)) == v
  {
    var len := Length(v, sqrt);
    var r := Div(v, len);
    LengthSquaredScale(v, 1.0 / len);
    assert LengthSquared(r) == (1.0 / len) * (1.0 / len) * (len * len) == 1.0;
    r
  }

  /** Reflection of `v` about the plane with normal `n`: `v - 2 (v . n) n`. */
  function Reflect(v: Vec3, n: Vec3): Vec3 {
    Sub(v, ScalarMul(2.0 * Dot(v, n), n))
  }

  /**
   * Vec3::random_in_unit_sphere: a rejection loop over `Vec3::random(-1, 1)` draws.
   * The draws are given as `draws`; the source loops until it accepts one, the model
   * reports None when the given draws run out first. `attempts` is the number of
   * draws consumed.
   */
  method RandomInUnitSphere(draws: seq<Vec3>) returns (v: Option<Vec3>, attempts: nat)
    ensures attempts <= |draws|
    ensures v.Some? ==> 0 < attempts && v.value == draws[attempts - 1] && LengthSquared(v.value) < 1.0
    ensures v.None? ==> attempts == |draws|
    ensures forall j :: 0 <= j < attempts && (v.Some? ==> j < attempts - 1) ==> LengthSquared(draws[j]) >= 1.0
  {
    attempts := 0;
    while attempts < |draws|
      invariant attempts <= |draws|
      invariant forall j :: 0 <= j < attempts ==> LengthSquared(draws[j]) >= 1.0
    {
      var candidate := draws[attempts];
      attempts := attempts + 1;
      if LengthSquared(candidate) < 1.0 {
        return Some(candidate), attempts;
      }
    }
    v := None;
  }

  /**
   * Vec3::random_unit_vector: from an angle draw and a height draw `z` in [-1, 1],
   * `(r cos a, r sin a, z)` with `r = sqrt(1 - z^2)`; the result lies on the unit sphere.
   */
  function RandomUnitVector(a: real, z: real, sqrt: real -> real, cos: real -> real, sin: real -> real): (r: Vec3)
    requires IsSqrt(sqrt) && IsCosSin(cos, sin)
    requires -1.0 <= z <= 1.0
    ensures LengthSquared(r) == 1.0 && r.z == z
  {
    assert 0.0 <= 1.0 - z * z by {
      assert z * z <= 1.0 by {
        if z >= 0.0 { assert z * z <= 1.0 * z; } else { assert z * z <= (-1.0) * z; }
      }
    }
    var radius := sqrt(1.0 - z * z);
    assert radius * radius == 1.0 - z * z;
    assert cos(a) * cos(a) + sin(a) * sin(a) == 1.0;
    var r := Vec3(radius * cos(a), radius * sin(a), z);
    assert LengthSquared(r) == radius * radius * (cos(a) * cos(a) + sin(a) * sin(a)) + z * z;
    r
  }

  // Algebraic laws of the operators.

  lemma NegInvolutive(v: Vec3)
    ensures Neg(Neg(v)) == v
  {
  }

  lemma AddCommutative(a: Vec3, b: Vec3)
    ensures Add(a, b) == Add(b, a)
  {
  }

  /** Scalar multiplication on either side agrees, and it acts as a vector-space scaling. */
  lemma ScalingLaws(s: real, a: Vec3, b: Vec3)
    ensures ScalarMul(s, a) == MulScalar(a, s)
    ensures ScalarMul(1.0, a) == a
    ensures ScalarMul(s, Add(a, b)) == Add(ScalarMul(s, a), ScalarMul(s, b))
  {
  }

  lemma ScalingAssociative(s: real, t: real, a: Vec3)
    ensures ScalarMul(s, ScalarMul(t, a)) == ScalarMul(s * t, a)
  {
  }

  /** Division by `s` equals scaling by `1 / s`, from either side. */
  lemma DivIsScaleByInverse(v: Vec3, s: real)
    requires s != 0.0
    ensures Div(v, s) == ScalarMul(1.0 / s, v) == MulScalar(v, 1.0 / s)
  {
  }

  lemma MulCommutative(a: Vec3, b: Vec3)
    ensures Mul(a, b) == Mul(b, a)
  {
  }

  lemma DotCommutative(a: Vec3, b: Vec3)
    ensures Dot(a, b) == Dot(b, a)
  {
  }

  lemma DotSelf(v: Vec3)
    ensures Dot(v, v) == LengthSquared(v) >= 0.0
  {
  }

  /** The cross product is orthogonal to both operands. */
  lemma CrossOrthogonal(a: Vec3, b: Vec3)
    ensures Dot(Cross(a, b), a) == 0.0 && Dot(Cross(a, b), b) == 0.0
  {
  }

  lemma CrossAnticommutative(a: Vec3, b: Vec3)
    ensures Cross(b, a) == Neg(Cross(a, b))
  {
  }

  lemma CrossSelf(v: Vec3)
    ensures Cross(v, v) == Zero()
  {
  }

  /** Dot and cross product on integer-valued vectors, where the reals give exact values. */
  lemma DotCrossExample()
    ensures Dot(Vec3(1.0, 2.0, 3.0), Vec3(1.0, 5.0, 7.0)) == 32.0
    ensures Cross(Vec3(1.0, 2.0, 3.0), Vec3(1.0, 5.0, 7.0)) == Vec3(-1.0, -4.0, 3.0)
  {
  }

  lemma LengthSquaredScale(v: Vec3, s: real)
    ensures LengthSquared(MulScalar(v, s)) == s * s * LengthSquared(v)
  {
    assert LengthSquared(MulScalar(v, s)) == (v.x * s) * (v.x * s) + (v.y * s) * (v.y * s) + (v.z * s) * (v.z * s);
  }

  /** The squared length along the line `o + t d` is a quadratic in t. */
  lemma LengthSquaredAlongLine(o: Vec3, d: Vec3, t: real)
    ensures LengthSquared(Add(o, ScalarMul(t, d)))
         == LengthSquared(o) + 2.0 * t * Dot(o, d) + t * t * LengthSquared(d)
  {
    LineQuadratic(o.x, o.y, o.z, d.x, d.y, d.z, t);
  }

  /** The same identity on coordinates. */
  lemma LineQuadratic(ox: real, oy: real, oz: real, dx: real, dy: real, dz: real, t: real)
    ensures (ox + dx * t) * (ox + dx * t) + (oy + dy * t) * (oy + dy * t) + (oz + dz * t) * (oz + dz * t)
         == (ox * ox + oy * oy + oz * oz) + 2.0 * t * (ox * dx + oy * dy + oz * dz)
            + t * t * (dx * dx + dy * dy + dz * dz)
  {
  }

  /** Lagrange's identity: |a|^2 |b|^2 = (a . b)^2 + |a x b|^2. */
  lemma Lagrange(a: Vec3, b: Vec3)
    ensures LengthSquared(a) * LengthSquared(b) == Dot(a, b) * Dot(a, b) + LengthSquared(Cross(a, b))
  {
    LagrangeCoordinates(a.x, a.y, a.z, b.x, b.y, b.z);
  }

  /** Lagrange's identity on coordinates. */
  lemma LagrangeCoordinates(a1: real, a2: real, a3: real, b1: real, b2: real, b3: real)
    ensures (a1 * a1 + a2 * a2 + a3 * a3) * (b1 * b1 + b2 * b2 + b3 * b3)
         == (a1 * b1 + a2 * b2 + a3 * b3) * (a1 * b1 + a2 * b2 + a3 * b3)
            + ((a2 * b3 - a3 * b2) * (a2 * b3 - a3 * b2) + (a3 * b1 - a1 * b3) * (a3 * b1 - a1 * b3)
               + (a1 * b2 - a2 * b1) * (a1 * b2 - a2 * b1))
  {
  }

  /** Cauchy-Schwarz: (a . b)^2 <= |a|^2 |b|^2. */
  lemma CauchySchwarz(a: Vec3, b: Vec3)
    ensures Dot(a, b) * Dot(a, b) <= LengthSquared(a) * LengthSquared(b)
  {
    Lagrange(a, b);
  }

  /** Reflection about a unit normal flips the normal component and keeps the length. */
  lemma ReflectFlipsNormal(v: Vec3, n: Vec3)
    requires LengthSquared(n) == 1.0
    ensures Dot(Reflect(v, n), n) == -Dot(v, n)
    ensures LengthSquared(Reflect(v, n)) == LengthSquared(v)
  {
    var d := Dot(v, n);
    ShiftDot(v, n, 2.0 * d);
    ShiftLength(v, n, 2.0 * d);
  }

  /** Moving `v` by `-k n` lowers its dot product with `n` by `k |n|^2`. */
  lemma ShiftDot(v: Vec3, n: Vec3, k: real)
    ensures Dot(Sub(v, ScalarMul(k, n)), n) == Dot(v, n) - k * LengthSquared(n)
  {
    ShiftDotCoordinates(v.x, v.y, v.z, n.x, n.y, n.z, k);
  }

  /** Scaling a vector scales its dot products. */
  lemma DotScale(u: Vec3, s: real, n: Vec3)
    ensures Dot(MulScalar(u, s), n) == s * Dot(u, n)
  {
  }

  lemma ShiftDotCoordinates(vx: real, vy: real, vz: real, nx: real, ny: real, nz: real, k: real)
    ensures (vx - nx * k) * nx + (vy - ny * k) * ny + (vz - nz * k) * nz
         == (vx * nx + vy * ny + vz * nz) - k * (nx * nx + ny * ny + nz * nz)
  {
  }

  /** The squared length of `v - k n` as a quadratic in k. */
  lemma ShiftLength(v: Vec3, n: Vec3, k: real)
    ensures LengthSquared(Sub(v, ScalarMul(k, n)))
         == LengthSquared(v) - 2.0 * k * Dot(v, n) + k * k * LengthSquared(n)
  {
    ShiftLengthCoordinates(v.x, v.y, v.z, n.x, n.y, n.z, k);
  }

  lemma ShiftLengthCoordinates(vx: real, vy: real, vz: real, nx: real, ny: real, nz: real, k: real)
    ensures (vx - nx * k) * (vx - nx * k) + (vy - ny * k) * (vy - ny * k) + (vz - nz * k) * (vz - nz * k)
         == (vx * vx + vy * vy + vz * vz) - 2.0 * k * (vx * nx + vy * ny + vz * nz)
            + k * k * (nx * nx + ny * ny + nz * nz)
  {
  }

  /** Reflecting twice about the same unit normal gives back the original vector. */
  lemma ReflectInvolution(v: Vec3, n: Vec3)
    requires LengthSquared(n) == 1.0
    ensures Reflect(Reflect(v, n), n) == v
  {
    ReflectFlipsNormal(v, n);
    var k := 2.0 * Dot(v, n);
    assert 2.0 * Dot(Reflect(v, n), n) == -k;
    ShiftBack(v, n, k);
  }

  lemma ShiftBack(v: Vec3, n: Vec3, k: real)
    ensures Sub(Sub(v, ScalarMul(k, n)), ScalarMul(-k, n)) == v
  {
  }
}
