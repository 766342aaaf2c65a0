# A verified model of a small Rust ray tracer

This project models the core of a small Rust ray tracer in Dafny. The core covers:

- 3-vector algebra and rays;
- ray-sphere intersection and the nearest-hit scan over a scene;
- the three surface materials and their scattering rule;
- the pinhole camera;
- the clamped RGBA colour;
- the RGBA byte buffer that pixels are written into.

Every `f32` and `f64` is a Dafny `real`, so the model states and proves exact algebraic identities rather than rounded ones. Four functions the source calls are not defined in Dafny: `f32::sqrt`, `f32::cos`, `f32::sin` and `Vec3::refract`. They are function parameters:

- `sqrt` is constrained by `IsSqrt`: it returns the non-negative square root of every non-negative argument.
- `cos` and `sin` are constrained by `IsCosSin`, the Pythagorean identity.
- `refract` is unconstrained, because its definition is not part of this model.

Every random draw (`random_f`, `Vec3::random`) is an input value.

Files, one module each:

| file | module | models |
|---|---|---|
| `options.dfy` | `Options` | Rust's `Option` |
| `arith.dfy` | `Arith` | arithmetic facts used by the proofs: signs, squares and quadratic roots over the reals, monotone multiplication over the naturals |
| `vectors.dfy` | `Vectors` | `Vec3` and its operators (`src/vec.rs`) |
| `rays.dfy` | `Rays` | `Ray` and `Ray::at` (`src/ray.rs`) |
| `hittables.dfy` | `Hittables` | `HitRecord`, the sphere test, `HittableList` as a class (`src/hittable.rs`) |
| `materials.dfy` | `Materials` | `schlick`, the material constructors, `Material::scatter` (`src/material.rs`) |
| `cameras.dfy` | `Cameras` | `Camera::new`, `Camera::get_ray` (`src/camera.rs`) |
| `colors.dfy` | `Colors` | `Color::new` (`src/color.rs`) |
| `images.dfy` | `Images` | `Image` as a class over an `array` of bytes: `new`, `set_pixel` (`src/image.rs`) |

How the behaviour is read:

- **The sphere test tries only the near root.** Its second range check (src/hittable.rs:78-84) repeats the first, so the far root `(-half_b + root) / a` is never tried. The model keeps this behaviour as written. `ExampleFarRootNeverUsed` shows the consequence: a ray that leaves the sphere inside the range, after entering it before the range, counts as a miss. The code does not make clear whether trying only the near root is intended.
- **`MetalMaterial::new` clamps fuzz from above only.** A fuzz above 1 is lowered to 1; every other value, negative ones included, is kept (`NewMetal`, `NewMetalNoLowerClamp`).
- **`Ray::new` and the `new` constructors of `Vec3`, `Sphere`, `LambertianMaterial` and `DielectricMaterial`** store their arguments unchanged. They are Dafny datatype constructors, and so are the `From` conversions into `HittableObject` and `Material`.

## Model

| member | source | states |
|---|---|---|
| Vectors.SqrtOfSquare | src/vec.rs:48-50 | the square root given for `f32::sqrt` returns x for x², when x is non-negative |
| Vectors.Zero | src/vec.rs:21-23 | the zero vector; `AddZero` proves it the identity of addition and `CrossSelf` the cross product of a vector with itself |
| Vectors.Add | src/vec.rs:97-99 | componentwise sum; `Sub` and `Neg` are proved its inverses, `AddZero` and `AddCommutative` its laws |
| Vectors.AddScalar | src/vec.rs:106-108 | a scalar added to every component; `SubScalar` is proved its inverse |
| Vectors.Mul | src/vec.rs:133-135 | componentwise product; `MulCommutative` states its law |
| Vectors.MulScalar | src/vec.rs:142-144 | every component times a scalar; `Div` is proved its inverse, `LengthSquaredScale` and `DotScale` state how it scales length and dot products |
| Vectors.ScalarMul | src/vec.rs:151-153 | scalar times vector, defined by the source as vector times scalar; `ScalingLaws` proves the two agree |
| Vectors.Dot | src/vec.rs:57-59 | the dot product; `DotCommutative`, `DotSelf`, `CauchySchwarz` and `DotScale` state its laws |
| Vectors.Cross | src/vec.rs:62-68 | the cross product; `CrossOrthogonal`, `CrossAnticommutative`, `CrossSelf` and `Lagrange` state its laws |
| Vectors.Reflect | src/vec.rs:75-77 | `v - 2 (v . n) n`; `ReflectFlipsNormal` and `ReflectInvolution` state what it does for a unit normal |
| Vectors.AddZero | src/vec.rs:21-23 | the zero vector is the identity of vector addition, on both sides |
| Vectors.Neg | src/vec.rs:84-90 | `v + (-v)` is the zero vector |
| Vectors.Sub | src/vec.rs:115-117 | vector subtraction undoes addition: `(a - b) + b == a` |
| Vectors.SubScalar | src/vec.rs:124-126 | subtracting a scalar from every component is undone by adding it back |
| Vectors.Div | src/vec.rs:160-162 | division by a non-zero scalar is undone by multiplying by it |
| Vectors.LengthSquared | src/vec.rs:52-54 | the squared length is never negative |
| Vectors.Length | src/vec.rs:48-50 | the length is non-negative and its square is the squared length |
| Vectors.Normalize | src/vec.rs:71-73 | a non-zero vector normalizes to unit length, and scaling the result by the original length gives the vector back |
| Vectors.RandomInUnitSphere | src/vec.rs:33-38 | the accepted draw is strictly inside the unit sphere, and it is the first such draw: every draw before it was rejected; if no draw is accepted, all draws were consumed |
| Vectors.RandomUnitVector | src/vec.rs:40-46 | for a height draw in [-1, 1] the result has unit length, and its z is the height draw |
| Vectors.NegInvolutive | src/vec.rs:84-90 | negating twice gives the vector back |
| Vectors.AddCommutative | src/vec.rs:97-99 | vector addition is commutative |
| Vectors.ScalingLaws | src/vec.rs:139-154 | `s * v == v * s`, `1 * v == v`, and scaling distributes over vector addition |
| Vectors.ScalingAssociative | src/vec.rs:139-154 | scaling by t and then s equals scaling by `s * t` |
| Vectors.DivIsScaleByInverse | src/vec.rs:148-162 | `v / s == (1 / s) * v == v * (1 / s)` for non-zero s |
| Vectors.MulCommutative | src/vec.rs:133-135 | the componentwise product is commutative |
| Vectors.DotCommutative | src/vec.rs:57-59 | `dot(a, b) == dot(b, a)` |
| Vectors.DotSelf | src/vec.rs:52-59 | `dot(v, v)` is the squared length and is non-negative |
| Vectors.CrossOrthogonal | src/vec.rs:62-68 | the cross product is orthogonal to both operands |
| Vectors.CrossAnticommutative | src/vec.rs:62-68 | `cross(b, a) == -cross(a, b)` |
| Vectors.CrossSelf | src/vec.rs:62-68 | the cross product of a vector with itself is zero |
| Vectors.DotCrossExample | src/vec.rs:57-68 | `dot((1,2,3),(1,5,7)) == 32` and `cross((1,2,3),(1,5,7)) == (-1,-4,3)` |
| Vectors.LengthSquaredScale | src/vec.rs:139-145 | scaling by s multiplies the squared length by s² |
| Vectors.LengthSquaredAlongLine | src/vec.rs:52-54 | the squared length of `o + t d` is the quadratic `|o|² + 2t (o . d) + t² |d|²` in t |
| Vectors.Lagrange | src/vec.rs:52-68 | Lagrange's identity `|a|² |b|² == (a . b)² + |a x b|²` |
| Vectors.CauchySchwarz | src/vec.rs:52-59 | `(a . b)² <= |a|² |b|²` |
| Vectors.DotScale | src/vec.rs:57-59 | scaling a vector scales its dot products |
| Vectors.ShiftDot | src/vec.rs:57-59 | moving v by `-k n` lowers its dot product with n by `k |n|²` |
| Vectors.ShiftLength | src/vec.rs:52-54 | the squared length of `v - k n` is the quadratic `|v|² - 2k (v . n) + k² |n|²` in k |
| Vectors.ReflectFlipsNormal | src/vec.rs:75-77 | for a unit normal n, the reflection negates the component along n and keeps the squared length |
| Vectors.ReflectInvolution | src/vec.rs:75-77 | for a unit normal, reflecting twice gives the vector back |
| Vectors.ShiftBack | src/vec.rs:115-117 | subtracting `k n` and then `-k n` gives the vector back |
| Rays.At | src/ray.rs:16-18 | the point at t lies `t * direction` away from the origin |
| Rays.AtZero | src/ray.rs:16-18 | `at(0)` is the origin |
| Rays.AtOne | src/ray.rs:16-18 | `at(1)` is `origin + direction` |
| Rays.AtShift | src/ray.rs:16-18 | `at(t + s) == at(t) + s * direction` |
| Rays.AtOffset | src/ray.rs:16-18 | seen from a point c, the ray starts at `origin - c` and keeps its direction |
| Rays.OffsetAlongRay | src/ray.rs:16-18 | the squared distance from c to `at(t)` is a quadratic in t |
| Hittables.SetFaceNormal | src/hittable.rs:24-27 | `front_face` holds exactly when the ray runs against the outward normal; the stored normal is the outward normal or its negation to match; it never points along the ray and keeps the outward normal's length; point and t are untouched |
| Hittables.EmptyRecord | src/hittable.rs:15-22 | the all-zero record `HitRecord::new` builds; `SphereRecordOverwrites` proves that none of its values survives into a hit |
| Hittables.SphereRecordOverwrites | src/hittable.rs:65-74 | filling t, point and the oriented normal into any starting record gives the same record, so the initial values never reach a hit |
| Hittables.DiscriminantPositive | src/hittable.rs:58-68 | a positive discriminant implies `a > 0` and a non-zero radius, so the division by `a` is defined |
| Hittables.NearRoot | src/hittable.rs:67-68 | `(-half_b - sqrt(discriminant)) / a`; `NearRootOnSurface` and `NearRootIsNearest` prove it the nearest parameter at which the ray meets the sphere |
| Hittables.OffsetQuadratic | src/hittable.rs:54-62 | `|at(t) - center|² - r²` equals `a t² + 2 half_b t + c`, the quadratic the test solves |
| Hittables.RootOnSurface | src/hittable.rs:54-62 | every root of that quadratic gives a point on the sphere |
| Hittables.NearRootOnSurface | src/hittable.rs:62-68 | the near root `(-half_b - sqrt(discriminant)) / a` gives a point on the sphere |
| Hittables.NearRootIsNearest | src/hittable.rs:62-68 | no parameter at which the ray meets the sphere is below the near root |
| Hittables.UnitOutwardNormal | src/hittable.rs:73 | for a point on the sphere, `(point - center) / radius` has unit length |
| Hittables.SphereRecord | src/hittable.rs:71-74 | the record holds t and `ray.at(t)`; its normal is `(point - center) / radius`, oriented against the ray |
| Hittables.ObjectHit | src/hittable.rs:51-89 | a hit exactly when the discriminant is positive and the near root lies strictly inside `(t_min, t_max)`. The hit's t is the near root, its point is `ray.at(t)`, the radius is non-zero, and the whole record is `SphereRecord`: the outward normal `(point - center) / radius`, oriented against the ray by `set_face_normal` |
| Hittables.HitGeometry | src/hittable.rs:51-89 | a hit point lies on the sphere; its normal has unit length and faces against the ray; the ray meets the sphere at no smaller t |
| Hittables.NoDiscriminantNoHit | src/hittable.rs:64-86 | a discriminant at or below 0 is always a miss |
| Hittables.HitNarrowing | src/hittable.rs:70 | lowering `t_max` to c keeps exactly the hits below c, unchanged |
| Hittables.ExampleNearestHitDiscriminant | src/hittable.rs:62 | for the unit sphere at the origin and the ray from (0,0,2) along (0,0,-1), the discriminant is 1 |
| Hittables.ExampleNearRoot | src/hittable.rs:67-68 | for that sphere and ray, the near root is 1 |
| Hittables.ExampleNearestHitRecord | src/hittable.rs:71-74 | for that sphere and ray, the record at t = 1 is the point (0,0,1) with normal (0,0,1), front-facing |
| Hittables.ExampleNearestHit | src/hittable.rs:51-89 | the sphere test on that sphere and ray, with range (0.001, 1000), returns that record |
| Hittables.ExampleFarRootPoint | src/hittable.rs:58-61 | (0,0,-1) lies on the unit sphere |
| Hittables.ExampleFarRootNeverUsed | src/hittable.rs:70-86 | for the same sphere and ray with range (2, 10), the ray leaves the sphere at t = 3, yet the test reports a miss because the far root is never tried |
| Hittables.HittableList.constructor | src/hittable.rs:104-108 | a new list is empty |
| Hittables.HittableList.Add | src/hittable.rs:110-112 | the item is appended at the end and the earlier items are unchanged |
| Hittables.HittableList.Hit | src/hittable.rs:114-131 | None exactly when no object hits in `(t_min, t_max)`. Otherwise the result's t is inside the range, and the result is the hit of some object k: no object hits at a smaller t, and no object before k hits at the same t. The loop keeps `closest_so_far <= t_max` |
| Materials.PowUnitInterval | src/material.rs:12 | a power of a number in [0, 1] stays in [0, 1] |
| Materials.PowZero | src/material.rs:12 | a positive power of 0 is 0 |
| Materials.Pow | src/material.rs:12 | `f32::powi` for a non-negative exponent; `PowUnitInterval` and `PowZero` state its range |
| Materials.Schlick | src/material.rs:9-13 | Schlick's reflectance `r0 + (1 - r0)(1 - cosine)^5`; `SchlickNormalIncidence`, `SchlickMatchedIndex` and `SchlickRange` state its values and range |
| Materials.R0 | src/material.rs:10-11 | the normal-incidence reflectance `((1 - k)/(1 + k))²` is non-negative |
| Materials.R0BelowOne | src/material.rs:10-11 | for a positive index ratio it is below one |
| Materials.SchlickNormalIncidence | src/material.rs:9-13 | at cosine 1 Schlick's reflectance is r0 |
| Materials.SchlickMatchedIndex | src/material.rs:9-13 | at index ratio 1 it is `(1 - cosine)^5` |
| Materials.SchlickRange | src/material.rs:9-13 | for a cosine in [0, 1] and a positive ratio it lies in [r0, 1] |
| Materials.NewMetal | src/material.rs:43-50 | albedo is stored as given; the stored fuzz is at most 1 and at most the given fuzz, and it is either the given fuzz or 1 |
| Materials.NewMetalIdempotent | src/material.rs:43-50 | building again from the stored fuzz changes nothing |
| Materials.NewMetalNoLowerClamp | src/material.rs:44-45 | every fuzz up to 1, each negative fuzz included, is stored as given |
| Materials.EtaRatio | src/material.rs:108 | the ratio is never -1 when the index is not, so Schlick's r0 is defined |
| Materials.CosTheta | src/material.rs:112 | `cos_theta` never exceeds 1 |
| Materials.SinTheta | src/material.rs:113 | for a cosine with square at most 1, `sin_theta` is non-negative and `sin² + cos² == 1` |
| Materials.SinThetaDefined | src/material.rs:110-113 | for unit direction and normal, the argument of the square root in `sin_theta` is non-negative |
| Materials.GlassDirection | src/material.rs:112-128 | the glass direction is either the mirror reflection or the refraction |
| Materials.GlassTotalInternalReflection | src/material.rs:115-119 | when `eta * sin_theta > 1` the result is the mirror reflection, whatever the uniform draw |
| Materials.EnteringNeverTotallyReflects | src/material.rs:108-115 | a unit ray entering glass of index at least 1 is never totally reflected |
| Materials.MatchedIndexHeadOnRefracts | src/material.rs:112-130 | head-on through glass of matched index the reflectance is 0, so every draw in [0, 1) refracts |
| Materials.Scatter | src/material.rs:88-133 | every scattered ray starts at the hit point. Lambertian: always valid, attenuation is the albedo, direction is the normal plus the unit-vector draw. Metal: attenuation is the albedo, direction is the reflection of the unit direction plus `fuzz` times the in-unit-sphere draw, valid exactly when that direction is on the normal's side. Dielectric: always valid, attenuation (1,1,1), direction given by the glass rule with ratio `1/ref_idx` on the front face and `ref_idx` otherwise |
| Materials.MetalMirror | src/material.rs:98-103 | a metal with zero fuzz is a mirror of the unit direction. With a unit normal, it is valid exactly when the incoming ray runs against the normal |
| Cameras.New | src/camera.rs:19-37 | the inputs are stored; width is `aspect_ratio * viewport_height`; origin is (0,0,0), horizontal (w,0,0), vertical (0,h,0), lower-left corner `(-w/2, -h/2, -focal_length)` |
| Cameras.GetRay | src/camera.rs:39-44 | the ray starts at the camera origin, and origin plus direction is `lower_left_corner + u horizontal + v vertical` |
| Cameras.GetRayDirection | src/camera.rs:39-44 | for a camera from `new`, the ray through (u, v) points at `((u - 1/2) w, (v - 1/2) h, -focal_length)` |
| Cameras.GetRayCentre | src/camera.rs:39-44 | the ray through (1/2, 1/2) runs straight down the negative z axis |
| Cameras.GetRayCorners | src/camera.rs:25-42 | the ray through (0, 0) points at the lower-left corner; the one through (1, 1) points at the opposite corner |
| Colors.ClampChannel | src/color.rs:17-22 | the result is in [0, 1]; it equals the input when the input is already in range, 0 below the range and 1 above |
| Colors.New | src/color.rs:11-25 | r, g and b are clamped into [0, 1] channel by channel; alpha is passed through |
| Colors.NewKeepsInRange | src/color.rs:17-22 | channels already in [0, 1] are unchanged |
| Colors.NewIdempotent | src/color.rs:17-24 | building a colour from a clamped colour changes nothing |
| Colors.NewOpaqueBlack | src/color.rs:34-38 | `new(0,0,0,1)` is `(0,0,0,1)` |
| Colors.NewClampsBothWays | src/color.rs:40-43 | `new(-1,0.4,2,1)` is `(0,0.4,1,1)` |
| Images.Round | src/image.rs:34 | `round` is within 1/2 of its argument and keeps its sign; an exact half goes away from zero (strictly within 1/2 on the side toward zero) |
| Images.SaturateToByte | src/image.rs:34 | the float-to-u8 cast keeps 0..255 and saturates below and above |
| Images.Quantize | src/image.rs:34-37 | `(c * 255).round() as u8`; `QuantizeUnit` and `QuantizeExamples` state its values |
| Images.PixelOffset | src/image.rs:31 | the byte offset `y * width * 4 + x * 4`; `PixelInBounds` and `PixelsDisjoint` prove in-range pixels fit the buffer and never overlap |
| Images.QuantizeUnit | src/image.rs:34-37 | a channel in [0, 1] becomes `round(c * 255)`, within 1/2 of `c * 255`, with no saturation |
| Images.QuantizeExamples | src/image.rs:34-37 | 0 becomes 0, 1 becomes 255, and 1/2 becomes 128 |
| Images.PixelBytes | src/image.rs:34-37 | a pixel is four bytes |
| Images.WritePixel | src/image.rs:34-37 | a pixel write keeps the buffer's length, puts the four bytes at pos..pos+4, and leaves every other byte as it was |
| Images.PixelInBounds | src/image.rs:21-31 | every pixel of a width-by-height image lies wholly inside the `width * 4 * height` buffer |
| Images.RowGap | src/image.rs:31 | each row starts at least `width` pixels after the row before it |
| Images.PixelsDisjoint | src/image.rs:31 | distinct pixels with x below the width occupy disjoint four-byte ranges |
| Images.WritesCommute | src/image.rs:30-38 | writes to disjoint pixels commute |
| Images.Image.constructor | src/image.rs:20-28 | the buffer holds `width * 4 * height` bytes, all 0, and the dimensions are stored |
| Images.Image.SetPixel | src/image.rs:30-38 | the four bytes at `y * width * 4 + x * 4` become the rounded, saturated r, g, b and a; every other byte, the buffer's length and the dimensions are unchanged |

## Left out

- `Image::save` (src/image.rs:40-50): PNG encoding and file output through the external `png` crate.
- `src/main.rs` is not part of this model. It holds the render loop, progress output, `ray_color` and the per-pixel sampling. Its call to `set_pixel` does not match the signature in src/image.rs.
- `src/common.rs` is not part of this model. It holds constants and `deg_to_rad`. `random_f` is not defined in any source file and is replaced by input draws.
- `Vec3::random`: its three draws are one input `Vec3` per attempt of `RandomInUnitSphere`. The `inUnitSphere` input of `Scatter` stands for the point `random_in_unit_sphere` returns, so `Scatter` requires it to lie inside the unit sphere, as `RandomInUnitSphere` guarantees.
- `Vec3::refract` is not defined in any source file. It is the unconstrained parameter `refract`.
- Floating point: f32 and f64 rounding, overflow to infinity, and NaN are not modelled. Every number is an exact real.
- Vectors.Normalize: requires a non-zero vector, where the source divides by zero and produces NaN.
- Vectors.RandomInUnitSphere: consumes a finite sequence of draws and returns None when none is accepted. The source loops until it accepts one, which terminates only with probability 1.
- Vectors.Length, Vectors.RandomUnitVector: `f32::sqrt`, `f32::cos` and `f32::sin` are parameters constrained by exact identities, not the library's rounded functions.
- Hittables.SetFaceNormal: models the update of `&mut self` as a function returning the updated record. `HitRecord` is a `Copy` value that only its local owner updates, so no aliasing is lost.
- Hittables.ObjectHit: the division by `a` and by `radius` needs a positive discriminant, which implies `a > 0` and a non-zero radius (`DiscriminantPositive`). The source's NaN for a zero-length ray cannot reach a hit.
- Materials.Scatter: requires a non-zero ray direction for metal and glass, because the source normalizes it. For glass it also requires `ref_idx != -1`, and `ref_idx != 0` on the front face: the divisions in the index ratio and in Schlick's r0 would otherwise produce infinity or NaN.
- Materials.GlassDirection: states only that the result is the reflection or the refraction. Which one is chosen depends on the uniform draw compared with Schlick's reflectance, and the lemmas beside it pin that choice in the cases they cover.
- Images.Image.constructor: requires that `width * 4 * height` fits in a u32. The source computes it in u32 arithmetic, which panics on overflow in a debug build and wraps in a release build.
- Images.Image.SetPixel: requires that the four bytes at `y * width * 4 + x * 4` lie inside the buffer, which is what the source's bounds-checked indexing demands. The source computes that offset in u32 arithmetic from the caller's x and y, which can overflow: with width = height = 1 and x = 2^30 a debug build panics, and a release build wraps to offset 0 and overwrites pixel (0, 0). The model's precondition excludes such calls, so it does not capture the panic or the wrapped write. It also does not capture the bytes already written before an out-of-bounds index panics. The source does not check `x < width`; `PixelInBounds` shows that checking it would be enough.
