/** `translate`: a hittable moved by a fixed offset. The ray is moved back
    instead of the object forward, and the hit point is moved forward again. */
module TranslateDecorator {
  import opened Vectors
  import opened Rays
  import opened Boxes
  import opened HitRecords
  import opened Hittables

  /** The wrapped hittable, the offset, and the box cached at construction. */
  datatype Translate = Translate(wrapped: Hittable, offset: Vec3, bbox: Aabb)

  /** The constructor: the cached box is the wrapped box with every axis'
      bounds moved by that axis' offset. */
  function NewTranslate(wrapped: Hittable, offset: Vec3): (tr: Translate)
    ensures tr.wrapped == wrapped && tr.offset == offset
    ensures tr.bbox.x == Interval(wrapped.box.x.min + offset.x, wrapped.box.x.max + offset.x)
    ensures tr.bbox.y == Interval(wrapped.box.y.min + offset.y, wrapped.box.y.max + offset.y)
    ensures tr.bbox.z == Interval(wrapped.box.z.min + offset.z, wrapped.box.z.max + offset.z)
  {
    Translate(wrapped, offset, Shift(wrapped.box, offset))
  }

  /** `translate::hit`: the wrapped hittable is asked about the ray with its
      origin moved by `-offset` (same direction, time and interval); the
      answer is a hit exactly when the wrapped answer is, and only the point
      of the record differs, by `+offset`. */
  function TranslateHit(tr: Translate, r: Ray, rayT: Interval): (res: Option<HitRecord>)
    ensures var inner := tr.wrapped.hit(Ray(Sub(r.origin, tr.offset), r.direction, r.time), rayT);
      && (res.Some? <==> inner.Some?)
      && (res.Some? ==>
            && Sub(res.value.p, tr.offset) == inner.value.p
            && res.value.normal == inner.value.normal
            && res.value.t == inner.value.t
            && res.value.frontFace == inner.value.frontFace
            && res.value.mat == inner.value.mat
            && res.value.u == inner.value.u
            && res.value.v == inner.value.v)
  {
    var offsetRay := Ray(Sub(r.origin, tr.offset), r.direction, r.time);
    match tr.wrapped.hit(offsetRay, rayT)
    case None => None
    case Some(rec) => Some(rec.(p := Add(rec.p, tr.offset)))
  }

  /** The decorator seen through the `hittable` interface: `bounding_box()`
      reports the box cached at construction, the same value on every call,
      and every query is answered by delegating to the wrapped object with
      the ray's origin moved back by the offset. */
  function TranslateHittable(tr: Translate): (h: Hittable)
    ensures h.box == tr.bbox
    ensures forall r: Ray, rayT: Interval ::
      h.hit(r, rayT).Some? <==> tr.wrapped.hit(Ray(Sub(r.origin, tr.offset), r.direction, r.time), rayT).Some?
  {
    Hittable((r: Ray, rayT: Interval) => TranslateHit(tr, r, rayT), tr.bbox)
  }

  /** A point lies in the wrapped box exactly when the point moved by the
      offset lies in the cached box. */
  lemma TranslateBoxShifts(wrapped: Hittable, offset: Vec3, p: Vec3)
    ensures InBox(wrapped.box, p) <==> InBox(NewTranslate(wrapped, offset).bbox, Add(p, offset))
  {
  }

  /** A zero offset gives back exactly the wrapped hittable's answers. */
  lemma TranslateZeroIsIdentity(h: Hittable, r: Ray, rayT: Interval)
    ensures TranslateHit(NewTranslate(h, Zero), r, rayT) == h.hit(r, rayT)
    ensures NewTranslate(h, Zero).bbox == h.box
  {
    assert Sub(r.origin, Zero) == r.origin;
    assert Ray(Sub(r.origin, Zero), r.direction, r.time) == r;
    match h.hit(r, rayT)
    case None =>
    case Some(rec) =>
      assert Add(rec.p, Zero) == rec.p;
  }

  /** Translating by `a` and then by `b` answers as translating by `a + b`. */
  lemma TranslateComposes(h: Hittable, a: Vec3, b: Vec3, r: Ray, rayT: Interval)
    ensures TranslateHit(NewTranslate(TranslateHittable(NewTranslate(h, a)), b), r, rayT)
         == TranslateHit(NewTranslate(h, Add(a, b)), r, rayT)
    ensures NewTranslate(TranslateHittable(NewTranslate(h, a)), b).bbox
         == NewTranslate(h, Add(a, b)).bbox
  {
    var r1 := Ray(Sub(r.origin, b), r.direction, r.time);
    var r2 := Ray(Sub(r1.origin, a), r.direction, r.time);
    assert r2 == Ray(Sub(r.origin, Add(a, b)), r.direction, r.time);
    match h.hit(r2, rayT)
    case None =>
    case Some(rec) =>
      assert Add(Add(rec.p, a), b) == Add(rec.p, Add(a, b));
  }

  /** Translating by `d` and then by `-d` gives back the wrapped hittable. */
  lemma TranslateRoundTrip(h: Hittable, d: Vec3, r: Ray, rayT: Interval)
    ensures TranslateHit(NewTranslate(TranslateHittable(NewTranslate(h, d)), Neg(d)), r, rayT)
         == h.hit(r, rayT)
  {
    TranslateComposes(h, d, Neg(d), r, rayT);
    assert Add(d, Neg(d)) == Zero;
    TranslateZeroIsIdentity(h, r, rayT);
  }

  /** If the wrapped hittable's records are consistent with their queries,
      so are the translated hittable's. */
  lemma TranslatePreservesConsistency(h: Hittable, offset: Vec3)
    requires HitsConsistent(h)
    ensures HitsConsistent(TranslateHittable(NewTranslate(h, offset)))
  {
    var th := TranslateHittable(NewTranslate(h, offset));
    forall r: Ray, rayT: Interval | th.hit(r, rayT).Some?
      ensures Consistent(th.hit(r, rayT).value, r, rayT)
    {
      var offsetRay := Ray(Sub(r.origin, offset), r.direction, r.time);
      var inner := h.hit(offsetRay, rayT).value;
      assert Consistent(inner, offsetRay, rayT);
      assert Add(At(offsetRay, inner.t), offset) == At(r, inner.t);
    }
  }

  /** If the wrapped box holds every wrapped hit point, the cached box holds
      every translated hit point. */
  lemma TranslatePreservesBounds(h: Hittable, offset: Vec3)
    requires HitsBounded(h)
    ensures HitsBounded(TranslateHittable(NewTranslate(h, offset)))
  {
    var th := TranslateHittable(NewTranslate(h, offset));
    forall r: Ray, rayT: Interval | th.hit(r, rayT).Some?
      ensures InBox(th.box, th.hit(r, rayT).value.p)
    {
      var offsetRay := Ray(Sub(r.origin, offset), r.direction, r.time);
      var inner := h.hit(offsetRay, rayT).value;
      TranslateBoxShifts(h, offset, inner.p);
    }
  }
}
