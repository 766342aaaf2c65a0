/**
 * The pinhole camera of src/camera.rs: a viewport `aspect_ratio * viewport_height` wide
 * and `viewport_height` tall, `focal_length` in front of an eye at the origin, and the
 * primary ray through the viewport point with coordinates `(u, v)`.
 */
module Cameras {
  import opened Vectors
  import opened Rays

  datatype Camera = Camera(
    aspectRatio: real,
    viewportHeight: real,
    viewportWidth: real,
    focalLength: real,
    origin: Vec3,
    horizontal: Vec3,
    vertical: Vec3,
    lowerLeftCorner: Vec3)

  /**
   * Camera::new. The lower-left corner lies half a viewport to the left of and below the
   * axis, one focal length down the negative z axis.
   */
  function New(aspectRatio: real, viewportHeight: real, focalLength: real): (c: Camera)
    ensures c.aspectRatio == aspectRatio && c.viewportHeight == viewportHeight
            && c.focalLength == focalLength
    ensures c.viewportWidth == aspectRatio * viewportHeight
    ensures c.origin == Vec3(0.0, 0.0, 0.0)
    ensures c.horizontal == Vec3(c.viewportWidth, 0.0, 0.0)
    ensures c.vertical == Vec3(0.0, viewportHeight, 0.0)
    ensures c.lowerLeftCorner == Vec3(-c.viewportWidth / 2.0, -viewportHeight / 2.0, -focalLength)
  {
    var viewportWidth := aspectRatio * viewportHeight;
    var origin := Vec3(0.0, 0.0, 0.0);
    var horizontal := Vec3(viewportWidth, 0.0, 0.0);
    var vertical := Vec3(0.0, viewportHeight, 0.0);
    var lowerLeftCorner :=
      Sub(Sub(Sub(origin, Div(horizontal, 2.0)), Div(vertical, 2.0)), Vec3(0.0, 0.0, focalLength));
    Camera(aspectRatio, viewportHeight, viewportWidth, focalLength,
           origin, horizontal, vertical, lowerLeftCorner)
  }

  /** Camera::get_ray: from the origin towards the viewport point at `(u, v)`. */
  function GetRay(camera: Camera, u: real, v: real): (r: Ray)
    ensures r.origin == camera.origin
    ensures Add(r.direction, camera.origin)
            == Add(Add(camera.lowerLeftCorner, ScalarMul(u, camera.horizontal)), ScalarMul(v, camera.vertical))
  {
    var target := Add(Add(camera.lowerLeftCorner, ScalarMul(u, camera.horizontal)), ScalarMul(v, camera.vertical));
    Ray(camera.origin, Sub(target, camera.origin))
  }

  /**
   * For a camera built by `New`, the ray through `(u, v)` points at the viewport point
   * `((u - 1/2) w, (v - 1/2) h, -f)`: the viewport is centred on the negative z axis.
   */
  lemma GetRayDirection(aspectRatio: real, viewportHeight: real, focalLength: real, u: real, v: real)
    ensures var c := New(aspectRatio, viewportHeight, focalLength);
            GetRay(c, u, v).direction
            == Vec3((u - 0.5) * c.viewportWidth, (v - 0.5) * viewportHeight, -focalLength)
  {
    var c := New(aspectRatio, viewportHeight, focalLength);
    var w := c.viewportWidth;
    assert -w / 2.0 + u * w == (u - 0.5) * w;
    assert -viewportHeight / 2.0 + v * viewportHeight == (v - 0.5) * viewportHeight;
  }

  /** The ray through the viewport's centre runs straight down the negative z axis. */
  lemma GetRayCentre(aspectRatio: real, viewportHeight: real, focalLength: real)
    ensures GetRay(New(aspectRatio, viewportHeight, focalLength), 0.5, 0.5).direction
            == Vec3(0.0, 0.0, -focalLength)
  {
    GetRayDirection(aspectRatio, viewportHeight, focalLength, 0.5, 0.5);
  }

  /** The ray through `(0, 0)` points at the lower-left corner, the one through `(1, 1)` at the opposite corner. */
  lemma GetRayCorners(aspectRatio: real, viewportHeight: real, focalLength: real)
    ensures var c := New(aspectRatio, viewportHeight, focalLength);
            GetRay(c, 0.0, 0.0).direction == c.lowerLeftCorner
            && GetRay(c, 1.0, 1.0).direction
               == Vec3(c.viewportWidth / 2.0, viewportHeight / 2.0, -focalLength)
  {
    GetRayDirection(aspectRatio, viewportHeight, focalLength, 0.0, 0.0);
    GetRayDirection(aspectRatio, viewportHeight, focalLength, 1.0, 1.0);
  }
}
