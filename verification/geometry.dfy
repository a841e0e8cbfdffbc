/** Minimal vector arithmetic over the reals: the renderer's `vec3` / `point3`,
    with `double` read as `real`. Only the operations the decorators use. */
module Vectors {

  /** A point or a direction in 3-space. */
  datatype Vec3 = Vec3(x: real, y: real, z: real)

  const Zero: Vec3 := Vec3(0.0, 0.0, 0.0)

  function Add(a: Vec3, b: Vec3): Vec3 {
    Vec3(a.x + b.x, a.y + b.y, a.z + b.z)
  }

  function Sub(a: Vec3, b: Vec3): Vec3 {
    Vec3(a.x - b.x, a.y - b.y, a.z - b.z)
  }

  function Neg(a: Vec3): Vec3 {
    Vec3(-a.x, -a.y, -a.z)
  }

  function Scale(k: real, a: Vec3): Vec3 {
    Vec3(k * a.x, k * a.y, k * a.z)
  }

  function Dot(a: Vec3, b: Vec3): real {
    a.x * b.x + a.y * b.y + a.z * b.z
  }

  function LengthSquared(a: Vec3): real {
    Dot(a, a)
  }
}

/** The ray and the scalar interval the intersection test is queried with. */
module Rays {
  import opened Vectors

  /** `ray`: origin, direction and the time used by moving objects. */
  datatype Ray = Ray(origin: Vec3, direction: Vec3, time: real)

  /** The point the ray reaches at parameter `t`. */
  function At(r: Ray, t: real): Vec3 {
    Add(r.origin, Scale(t, r.direction))
  }

  /** `interval`: a closed scalar range. The decorators only pass it through. */
  datatype Interval = Interval(min: real, max: real)

  predicate Contains(i: Interval, t: real) {
    i.min <= t <= i.max
  }
}

/** `aabb`: an axis-aligned box, one interval per axis. */
module Boxes {
  import opened Vectors
  import opened Rays

  datatype Aabb = Aabb(x: Interval, y: Interval, z: Interval)

  predicate InBox(b: Aabb, p: Vec3) {
    Contains(b.x, p.x) && Contains(b.y, p.y) && Contains(b.z, p.z)
  }

  /** Every axis has its lower bound at or below its upper bound. */
  predicate Ordered(b: Aabb) {
    b.x.min <= b.x.max && b.y.min <= b.y.max && b.z.min <= b.z.max
  }

  /** `aabb + offset`: both bounds of every axis move by that axis' offset. */
  function Shift(b: Aabb, offset: Vec3): Aabb {
    Aabb(Interval(b.x.min + offset.x, b.x.max + offset.x),
         Interval(b.y.min + offset.y, b.y.max + offset.y),
         Interval(b.z.min + offset.z, b.z.max + offset.z))
  }
}
