/** Two worked queries against a box `[-1, 1]` on every axis whose own
    intersection test is left abstract: only the answer it gives for the one
    ray each scenario sends it is assumed. */
module Scenarios {
  import opened Vectors
  import opened Rays
  import opened Boxes
  import opened HitRecords
  import opened Hittables
  import opened RotationY
  import opened RotatedBox
  import opened TranslateDecorator
  import opened RotateYDecorator

  const UnitBox: Aabb := Aabb(Interval(-1.0, 1.0), Interval(-1.0, 1.0), Interval(-1.0, 1.0))

  /** The rotation by 90 degrees. */
  const QuarterTurn: Rotation := SinCos(1.0, 0.0)

  /** The box moved by `(5, 0, 0)`, hit from `(5, 0, -10)` along `+z`: the
      wrapped box is asked about the ray from `(0, 0, -10)`, and its hit on
      the face `z = -1` at `t = 9` comes back at `(5, 0, -1)` with the same
      normal. */
  lemma TranslatedBoxScenario(h: Hittable, rec: HitRecord, rayT: Interval)
    requires h.box == UnitBox
    requires h.hit(Ray(Vec3(0.0, 0.0, -10.0), Vec3(0.0, 0.0, 1.0), 0.0), rayT) == Some(rec)
    requires rec.p == Vec3(0.0, 0.0, -1.0) && rec.t == 9.0 && rec.normal == Vec3(0.0, 0.0, -1.0)
    ensures var res := TranslateHit(NewTranslate(h, Vec3(5.0, 0.0, 0.0)),
                                    Ray(Vec3(5.0, 0.0, -10.0), Vec3(0.0, 0.0, 1.0), 0.0), rayT);
      && res.Some?
      && res.value.p == Vec3(5.0, 0.0, -1.0)
      && res.value.t == 9.0
      && res.value.normal == Vec3(0.0, 0.0, -1.0)
    ensures NewTranslate(h, Vec3(5.0, 0.0, 0.0)).bbox
         == Aabb(Interval(4.0, 6.0), Interval(-1.0, 1.0), Interval(-1.0, 1.0))
  {
    assert Sub(Vec3(5.0, 0.0, -10.0), Vec3(5.0, 0.0, 0.0)) == Vec3(0.0, 0.0, -10.0);
  }

  /** The box turned by 90 degrees, hit from `(-10, 0, 0)` along `+x`: in its
      own frame the box is asked about the ray from `(0, 0, -10)` along `+z`,
      so it is the face that was `z = -1` that answers, and that face's hit
      comes back at `(-1, 0, 0)` with normal `(-1, 0, 0)`, against the ray. */
  lemma RotatedBoxScenario(h: Hittable, rec: HitRecord, rayT: Interval)
    requires h.box == UnitBox
    requires h.hit(Ray(Vec3(0.0, 0.0, -10.0), Vec3(0.0, 0.0, 1.0), 0.0), rayT) == Some(rec)
    requires rec.p == Vec3(0.0, 0.0, -1.0) && rec.t == 9.0 && rec.normal == Vec3(0.0, 0.0, -1.0)
    ensures var res := RotateYHit(NewRotateY(h, QuarterTurn),
                                  Ray(Vec3(-10.0, 0.0, 0.0), Vec3(1.0, 0.0, 0.0), 0.0), rayT);
      && res.Some?
      && res.value.p == Vec3(-1.0, 0.0, 0.0)
      && res.value.t == 9.0
      && res.value.normal == Vec3(-1.0, 0.0, 0.0)
  {
    var ry := NewRotateY(h, QuarterTurn);
    QuarterTurnHit(ry, rec, rayT);
  }

  /** The query of `RotatedBoxScenario` against any decorator turned by 90
      degrees, whatever its cached box. */
  lemma QuarterTurnHit(ry: RotateY, rec: HitRecord, rayT: Interval)
    requires ry.rot == QuarterTurn
    requires ry.wrapped.hit(Ray(Vec3(0.0, 0.0, -10.0), Vec3(0.0, 0.0, 1.0), 0.0), rayT) == Some(rec)
    requires rec.p == Vec3(0.0, 0.0, -1.0) && rec.normal == Vec3(0.0, 0.0, -1.0)
    ensures var res := RotateYHit(ry, Ray(Vec3(-10.0, 0.0, 0.0), Vec3(1.0, 0.0, 0.0), 0.0), rayT);
      && res.Some?
      && res.value.p == Vec3(-1.0, 0.0, 0.0)
      && res.value.t == rec.t
      && res.value.normal == Vec3(-1.0, 0.0, 0.0)
  {
    QuarterTurnRay();
    var res := RotateYHit(ry, Ray(Vec3(-10.0, 0.0, 0.0), Vec3(1.0, 0.0, 0.0), 0.0), rayT);
    QuarterTurnBack(res.value.p, rec.p);
    QuarterTurnBack(res.value.normal, rec.normal);
  }

  /** At 90 degrees the world ray from `(-10, 0, 0)` along `+x` is, in the
      object's frame, the ray from `(0, 0, -10)` along `+z`. */
  lemma QuarterTurnRay()
    ensures ObjectRay(QuarterTurn, Ray(Vec3(-10.0, 0.0, 0.0), Vec3(1.0, 0.0, 0.0), 0.0))
         == Ray(Vec3(0.0, 0.0, -10.0), Vec3(0.0, 0.0, 1.0), 0.0)
  {
    QuarterTurnMap(Vec3(-10.0, 0.0, 0.0));
    QuarterTurnMap(Vec3(1.0, 0.0, 0.0));
  }

  /** At 90 degrees a world vector whose object-frame image is `w` is
      `(w.z, w.y, -w.x)`. */
  lemma QuarterTurnBack(v: Vec3, w: Vec3)
    requires Inverse(QuarterTurn, v) == w
    ensures v == Vec3(w.z, w.y, -w.x)
  {
    ForwardInverse(QuarterTurn, v);
    QuarterTurnMap(w);
  }

  /** At 90 degrees the forward map sends `(x, y, z)` to `(z, y, -x)`, and
      the inverse map sends it back. */
  lemma QuarterTurnMap(v: Vec3)
    ensures Forward(QuarterTurn, v) == Vec3(v.z, v.y, -v.x)
    ensures Inverse(QuarterTurn, v) == Vec3(-v.z, v.y, v.x)
  {
    assert QuarterTurn.sin == 1.0 && QuarterTurn.cos == 0.0;
  }

  /** The corners of `b` after a quarter turn, with the two that carry the
      smallest and the largest coordinates named. */
  lemma QuarterTurnCorners(b: Aabb)
    ensures forall n :: 0 <= n < 8 ==>
      Forward(QuarterTurn, Corners(b)[n]) == Vec3(Corners(b)[n].z, Corners(b)[n].y, -Corners(b)[n].x)
    ensures Forward(QuarterTurn, Corners(b)[0]) == Vec3(b.z.min, b.y.min, -b.x.min)
    ensures Forward(QuarterTurn, Corners(b)[7]) == Vec3(b.z.max, b.y.max, -b.x.max)
  {
    var cs := Corners(b);
    forall n | 0 <= n < 8
      ensures Forward(QuarterTurn, cs[n]) == Vec3(cs[n].z, cs[n].y, -cs[n].x)
    {
      QuarterTurnMap(cs[n]);
    }
    CornerAt(b, 0, 0, 0);
    CornerAt(b, 1, 1, 1);
  }

  /** At 90 degrees the rotated box of an ordered box takes its x-extent
      from the old z-extent and its z-extent from the negated old x-extent:
      object `+z` faces world `+x`, and object `+x` faces world `-z`. */
  lemma QuarterTurnBox(b: Aabb)
    requires Ordered(b)
    ensures RotatedBounds(b, QuarterTurn)
         == Aabb(b.z, b.y, Interval(-b.x.max, -b.x.min))
  {
    var box := RotatedBounds(b, QuarterTurn);
    QuarterTurnCorners(b);
    RotatedBoundsKeepY(b, QuarterTurn);
    assert box.x == b.z;
    assert box.z == Interval(-b.x.max, -b.x.min);
  }
}
