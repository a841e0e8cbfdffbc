/** `hit_record` and its face-normal rule. */
module HitRecords {
  import opened Vectors
  import opened Rays

  /** Opaque handle standing for the record's `shared_ptr<material>`;
      nothing in this model looks inside it. */
  datatype Material = Material(handle: nat)

  /** The result of one successful intersection test. */
  datatype HitRecord = HitRecord(
    p: Vec3,
    normal: Vec3,
    mat: Material,
    t: real,
    frontFace: bool,
    u: real,
    v: real)

  /** `set_face_normal`: record whether the ray arrived on the side the
      outward normal points to, and store the normal turned against the ray.
      Only `frontFace` and `normal` are written. */
  function SetFaceNormal(rec: HitRecord, r: Ray, outward: Vec3): (res: HitRecord)
    ensures res.frontFace <==> Dot(r.direction, outward) < 0.0
    ensures res.frontFace ==> res.normal == outward
    ensures !res.frontFace ==> res.normal == Neg(outward)
    ensures Dot(r.direction, res.normal) <= 0.0
    ensures LengthSquared(res.normal) == LengthSquared(outward)
    ensures res.p == rec.p && res.t == rec.t && res.mat == rec.mat
    ensures res.u == rec.u && res.v == rec.v
  {
    var front := Dot(r.direction, outward) < 0.0;
    rec.(frontFace := front, normal := if front then outward else Neg(outward))
  }

  /** The rule reads nothing of the normal or orientation it overwrites. */
  lemma SetFaceNormalIgnoresPrior(rec: HitRecord, r: Ray, outward: Vec3, n: Vec3, front: bool)
    ensures SetFaceNormal(rec.(normal := n, frontFace := front), r, outward)
         == SetFaceNormal(rec, r, outward)
  {
  }

  /** Applying the rule twice with the same ray and normal changes nothing more. */
  lemma SetFaceNormalIdempotent(rec: HitRecord, r: Ray, outward: Vec3)
    ensures SetFaceNormal(SetFaceNormal(rec, r, outward), r, outward)
         == SetFaceNormal(rec, r, outward)
  {
    SetFaceNormalIgnoresPrior(rec, r, outward, SetFaceNormal(rec, r, outward).normal,
                              SetFaceNormal(rec, r, outward).frontFace);
  }
}

/** The `hittable` interface, and the properties a well-behaved one has. */
module Hittables {
  import opened Vectors
  import opened Rays
  import opened Boxes
  import opened HitRecords

  datatype Option<T> = None | Some(value: T)

  /** A hittable as the decorators see it: its intersection test (the
      virtual `hit`, with "returns false" read as `None`) and the box its
      `bounding_box()` reports. */
  datatype Hittable = Hittable(hit: (Ray, Interval) -> Option<HitRecord>, box: Aabb)

  /** What a correct intersection record promises about the query that
      produced it: `t` lies in the interval, `p` is the ray's point at `t`,
      and the normal is unit length and faces against the ray. */
  ghost predicate Consistent(rec: HitRecord, r: Ray, rayT: Interval) {
    && Contains(rayT, rec.t)
    && rec.p == At(r, rec.t)
    && Dot(r.direction, rec.normal) <= 0.0
    && LengthSquared(rec.normal) == 1.0
  }

  /** Every record the hittable returns is consistent with its query. */
  ghost predicate HitsConsistent(h: Hittable) {
    forall r: Ray, rayT: Interval ::
      h.hit(r, rayT).Some? ==> Consistent(h.hit(r, rayT).value, r, rayT)
  }

  /** The bounding box is conservative: every hit point lies inside it. */
  ghost predicate HitsBounded(h: Hittable) {
    forall r: Ray, rayT: Interval ::
      h.hit(r, rayT).Some? ==> InBox(h.box, h.hit(r, rayT).value.p)
  }
}
