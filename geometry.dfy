/**
 * Points, vectors and rays (src/ray.rs). Coordinates are exact reals; the
 * tracer's 64-bit floats and their rounding are not modelled.
 */
module Geometry {

  /** An axis index as `Vector3` indexing uses it: 0 is x, 1 is y, 2 is z. */
  type Axis = a: int | 0 <= a < 3

  datatype Vec3 = Vec3(x: real, y: real, z: real) {
    /** Component `a`, as `v[a]` reads it. */
    function At(a: Axis): real {
      if a == 0 then x else if a == 1 then y else z
    }
  }

  function Add(u: Vec3, v: Vec3): Vec3 {
    Vec3(u.x + v.x, u.y + v.y, u.z + v.z)
  }

  function Sub(u: Vec3, v: Vec3): Vec3 {
    Vec3(u.x - v.x, u.y - v.y, u.z - v.z)
  }

  function Scale(k: real, v: Vec3): Vec3 {
    Vec3(k * v.x, k * v.y, k * v.z)
  }

  /** A ray: origin, direction (not necessarily unit length) and time. */
  datatype Ray = Ray(origin: Vec3, direction: Vec3, time: real)

  /** `Ray::point_at`: origin + t * direction. */
  function PointAt(r: Ray, t: real): Vec3 {
    Add(r.origin, Scale(t, r.direction))
  }

  /**
   * Every direction component is nonzero, so `1.0 / direction[a]` is a finite
   * number; the infinities a zero component produces are not modelled.
   */
  predicate NonZeroDirection(r: Ray) {
    r.direction.x != 0.0 && r.direction.y != 0.0 && r.direction.z != 0.0
  }

  function Min(a: real, b: real): real {
    if a <= b then a else b
  }

  function Max(a: real, b: real): real {
    if a >= b then a else b
  }
}
