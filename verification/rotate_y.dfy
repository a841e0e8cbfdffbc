/** `rotate_y`: a hittable turned about the Y axis. The ray is carried into
    the wrapped object's frame by the inverse rotation, and the hit point and
    normal are carried back by the forward rotation. */
module RotateYDecorator {
  import opened Vectors
  import opened Rays
  import opened Boxes
  import opened HitRecords
  import opened Hittables
  import opened RotationY
  import opened RotatedBox

  /** The wrapped hittable, the precomputed sine and cosine, and the box
      cached at construction. */
  datatype RotateY = RotateY(wrapped: Hittable, rot: Rotation, bbox: Aabb)

  /** The constructor. The cached box is the tightest box around the rotated
      corners of the wrapped box: it holds every one of them, each of its
      bounds is one of their coordinates, and it also holds the rotated image
      of every point of the wrapped box. */
  function NewRotateY(wrapped: Hittable, rot: Rotation): (ry: RotateY)
    ensures ry.wrapped == wrapped && ry.rot == rot
    ensures forall n :: 0 <= n < 8 ==> InBox(ry.bbox, Forward(rot, Corners(wrapped.box)[n]))
    ensures exists n :: 0 <= n < 8 && ry.bbox.x.min == Forward(rot, Corners(wrapped.box)[n]).x
    ensures exists n :: 0 <= n < 8 && ry.bbox.x.max == Forward(rot, Corners(wrapped.box)[n]).x
    ensures exists n :: 0 <= n < 8 && ry.bbox.y.min == Forward(rot, Corners(wrapped.box)[n]).y
    ensures exists n :: 0 <= n < 8 && ry.bbox.y.max == Forward(rot, Corners(wrapped.box)[n]).y
    ensures exists n :: 0 <= n < 8 && ry.bbox.z.min == Forward(rot, Corners(wrapped.box)[n]).z
    ensures exists n :: 0 <= n < 8 && ry.bbox.z.max == Forward(rot, Corners(wrapped.box)[n]).z
    ensures Ordered(ry.bbox)
    ensures forall p :: InBox(wrapped.box, p) ==> InBox(ry.bbox, Forward(rot, p))
  {
    var box := RotatedBounds(wrapped.box, rot);
    forall p | InBox(wrapped.box, p)
      ensures InBox(box, Forward(rot, p))
    {
      RotatedBoundsContainImage(wrapped.box, rot, p);
    }
    RotateY(wrapped, rot, box)
  }

  /** The incoming ray carried into the wrapped object's frame: origin and
      direction by the inverse map, time unchanged, so that the forward map
      carries it back to the incoming ray. */
  function ObjectRay(rot: Rotation, r: Ray): (o: Ray)
    ensures o.time == r.time
    ensures Forward(rot, o.origin) == r.origin && Forward(rot, o.direction) == r.direction
  {
    ForwardInverse(rot, r.origin);
    ForwardInverse(rot, r.direction);
    Ray(Inverse(rot, r.origin), Inverse(rot, r.direction), r.time)
  }

  /** `rotate_y::hit`: the wrapped object is asked about the ray in its own
      frame with the same interval; the answer is a hit exactly when the
      wrapped answer is, the point and the normal are carried back by the
      forward map, and everything else passes through. */
  function RotateYHit(ry: RotateY, r: Ray, rayT: Interval): (res: Option<HitRecord>)
    ensures var inner := ry.wrapped.hit(ObjectRay(ry.rot, r), rayT);
      && (res.Some? <==> inner.Some?)
      && (res.Some? ==>
            && Inverse(ry.rot, res.value.p) == inner.value.p
            && Inverse(ry.rot, res.value.normal) == inner.value.normal
            && res.value.t == inner.value.t
            && res.value.frontFace == inner.value.frontFace
            && res.value.mat == inner.value.mat
            && res.value.u == inner.value.u
            && res.value.v == inner.value.v)
  {
    match ry.wrapped.hit(ObjectRay(ry.rot, r), rayT)
    case None => None
    case Some(rec) =>
      InverseForward(ry.rot, rec.p);
      InverseForward(ry.rot, rec.normal);
      Some(rec.(p := Forward(ry.rot, rec.p), normal := Forward(ry.rot, rec.normal)))
  }

  /** The decorator seen through the `hittable` interface: `bounding_box()`
      reports the box cached at construction, the same value on every call,
      and every query is answered by delegating to the wrapped object in its
      own frame. */
  function RotateYHittable(ry: RotateY): (h: Hittable)
    ensures h.box == ry.bbox
    ensures forall r: Ray, rayT: Interval ::
      h.hit(r, rayT).Some? <==> ry.wrapped.hit(ObjectRay(ry.rot, r), rayT).Some?
  {
    Hittable((r: Ray, rayT: Interval) => RotateYHit(ry, r, rayT), ry.bbox)
  }

  /** At 0 degrees the decorator answers exactly as the wrapped object. */
  lemma RotateYIdentity(h: Hittable, r: Ray, rayT: Interval)
    ensures RotateYHit(NewRotateY(h, Identity), r, rayT) == h.hit(r, rayT)
  {
    IdentityMaps(r.origin);
    IdentityMaps(r.direction);
    assert ObjectRay(Identity, r) == r;
    match h.hit(r, rayT)
    case None =>
    case Some(rec) =>
      IdentityMaps(rec.p);
      IdentityMaps(rec.normal);
  }

  /** At 0 degrees an ordered wrapped box is cached unchanged. */
  lemma RotateYIdentityBox(h: Hittable)
    requires Ordered(h.box)
    ensures NewRotateY(h, Identity).bbox == h.box
  {
    RotatedBoundsIdentity(h.box);
  }

  /** Rotating by an angle and then by the opposite angle gives back the
      wrapped object's answers. */
  lemma RotateYRoundTrip(h: Hittable, rot: Rotation, r: Ray, rayT: Interval)
    ensures RotateYHit(NewRotateY(RotateYHittable(NewRotateY(h, rot)), Reverse(rot)), r, rayT)
         == h.hit(r, rayT)
  {
    var rev := Reverse(rot);
    var r1 := ObjectRay(rev, r);
    assert r1 == Ray(Forward(rot, r.origin), Forward(rot, r.direction), r.time);
    InverseForward(rot, r.origin);
    InverseForward(rot, r.direction);
    assert ObjectRay(rot, r1) == r;
    match h.hit(r, rayT)
    case None =>
    case Some(rec) =>
      InverseForward(rot, rec.p);
      InverseForward(rot, rec.normal);
  }

  /** If the wrapped object's records are consistent with their queries, so
      are the rotated object's: `t` is untouched, the point stays on the ray,
      and the normal stays unit and facing against the ray. */
  lemma RotateYPreservesConsistency(h: Hittable, rot: Rotation)
    requires HitsConsistent(h)
    ensures HitsConsistent(RotateYHittable(NewRotateY(h, rot)))
  {
    var rh := RotateYHittable(NewRotateY(h, rot));
    forall r: Ray, rayT: Interval | rh.hit(r, rayT).Some?
      ensures Consistent(rh.hit(r, rayT).value, r, rayT)
    {
      var objRay := ObjectRay(rot, r);
      var inner := h.hit(objRay, rayT).value;
      assert Consistent(inner, objRay, rayT);
      var outer := rh.hit(r, rayT).value;
      assert outer.p == Forward(rot, inner.p) && outer.normal == Forward(rot, inner.normal);
      // the point is still on the ray
      ForwardLinear(rot, objRay.origin, inner.t, objRay.direction);
      ForwardInverse(rot, r.origin);
      ForwardInverse(rot, r.direction);
      assert outer.p == At(r, outer.t);
      // the normal still faces against the ray and is still unit
      ForwardIsRigid(rot, objRay.direction, inner.normal);
      ForwardIsRigid(rot, inner.normal, inner.normal);
      assert Dot(r.direction, outer.normal) == Dot(objRay.direction, inner.normal);
    }
  }

  /** If the wrapped box holds every wrapped hit point, the cached box holds
      every rotated hit point. */
  lemma RotateYPreservesBounds(h: Hittable, rot: Rotation)
    requires HitsBounded(h)
    ensures HitsBounded(RotateYHittable(NewRotateY(h, rot)))
  {
    var rh := RotateYHittable(NewRotateY(h, rot));
    forall r: Ray, rayT: Interval | rh.hit(r, rayT).Some?
      ensures InBox(rh.box, rh.hit(r, rayT).value.p)
    {
      var inner := h.hit(ObjectRay(rot, r), rayT).value;
      assert InBox(h.box, inner.p);
    }
  }
}
