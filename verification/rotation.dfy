/** The rotation about the Y axis used by `rotate_y`. The angle itself is not
    modelled: `rotate_y` only ever uses its sine and cosine, and over the
    reals those are exactly the pairs on the unit circle. */
module RotationY {
  import opened Vectors

  datatype SinCos = SinCos(sin: real, cos: real)

  /** The precomputed `sin_theta` / `cos_theta` of some angle. */
  type Rotation = sc: SinCos | sc.sin * sc.sin + sc.cos * sc.cos == 1.0
    witness SinCos(0.0, 1.0)

  /** The rotation by 0 degrees. */
  const Identity: Rotation := SinCos(0.0, 1.0)

  /** The rotation by the opposite angle: rotating forward by it is the
      world-to-object map of `rot`, and its world-to-object map is the
      forward map of `rot`. */
  function Reverse(rot: Rotation): (rev: Rotation)
    ensures forall v :: Forward(rev, v) == Inverse(rot, v)
    ensures forall v :: Inverse(rev, v) == Forward(rot, v)
  {
    SinCos(-rot.sin, rot.cos)
  }

  /** Object space to world space: the map applied to the box corners and to
      the returned hit point and normal. */
  function Forward(rot: SinCos, v: Vec3): (w: Vec3)
    ensures w.y == v.y
  {
    Vec3(rot.cos * v.x + rot.sin * v.z, v.y, -rot.sin * v.x + rot.cos * v.z)
  }

  /** World space to object space: the map applied to the incoming ray's
      origin and direction. */
  function Inverse(rot: SinCos, v: Vec3): (w: Vec3)
    ensures w.y == v.y
  {
    Vec3(rot.cos * v.x - rot.sin * v.z, v.y, rot.sin * v.x + rot.cos * v.z)
  }

  /** Undoing the world-to-object map recovers the world vector. */
  lemma ForwardInverse(rot: Rotation, v: Vec3)
    ensures Forward(rot, Inverse(rot, v)) == v
  {
    var s, c := rot.sin, rot.cos;
    var w := Inverse(rot, v);
    calc {
      c * w.x + s * w.z;
      c * (c * v.x - s * v.z) + s * (s * v.x + c * v.z);
      (c * c + s * s) * v.x;
      v.x;
    }
    calc {
      -s * w.x + c * w.z;
      -s * (c * v.x - s * v.z) + c * (s * v.x + c * v.z);
      (s * s + c * c) * v.z;
      v.z;
    }
  }

  /** Undoing the object-to-world map recovers the object vector. */
  lemma InverseForward(rot: Rotation, v: Vec3)
    ensures Inverse(rot, Forward(rot, v)) == v
  {
    var s, c := rot.sin, rot.cos;
    var w := Forward(rot, v);
    calc {
      c * w.x - s * w.z;
      c * (c * v.x + s * v.z) - s * (-s * v.x + c * v.z);
      (c * c + s * s) * v.x;
      v.x;
    }
    calc {
      s * w.x + c * w.z;
      s * (c * v.x + s * v.z) + c * (-s * v.x + c * v.z);
      (s * s + c * c) * v.z;
      v.z;
    }
  }

  /** The forward map keeps the y coordinate and preserves dot products, so
      it preserves lengths and keeps a unit normal unit. */
  lemma ForwardIsRigid(rot: Rotation, a: Vec3, b: Vec3)
    ensures Forward(rot, a).y == a.y
    ensures Dot(Forward(rot, a), Forward(rot, b)) == Dot(a, b)
    ensures LengthSquared(Forward(rot, a)) == LengthSquared(a)
    ensures Forward(rot, a).x * Forward(rot, a).x + Forward(rot, a).z * Forward(rot, a).z
         == a.x * a.x + a.z * a.z
  {
    var s, c := rot.sin, rot.cos;
    var fa, fb := Forward(rot, a), Forward(rot, b);
    calc {
      fa.x * fb.x + fa.z * fb.z;
      (c * a.x + s * a.z) * (c * b.x + s * b.z) + (-s * a.x + c * a.z) * (-s * b.x + c * b.z);
      (c * c + s * s) * (a.x * b.x) + (s * s + c * c) * (a.z * b.z);
      a.x * b.x + a.z * b.z;
    }
    calc {
      fa.x * fa.x + fa.z * fa.z;
      (c * a.x + s * a.z) * (c * a.x + s * a.z) + (-s * a.x + c * a.z) * (-s * a.x + c * a.z);
      (c * c + s * s) * (a.x * a.x) + (s * s + c * c) * (a.z * a.z);
      a.x * a.x + a.z * a.z;
    }
  }

  /** The inverse map keeps the y coordinate and preserves dot products. */
  lemma InverseIsRigid(rot: Rotation, a: Vec3, b: Vec3)
    ensures Inverse(rot, a).y == a.y
    ensures Dot(Inverse(rot, a), Inverse(rot, b)) == Dot(a, b)
    ensures LengthSquared(Inverse(rot, a)) == LengthSquared(a)
  {
    ForwardIsRigid(Reverse(rot), a, b);
  }

  /** The forward map distributes over `a + k * b`, as the linear map it is. */
  lemma ForwardLinear(rot: SinCos, a: Vec3, k: real, b: Vec3)
    ensures Forward(rot, Add(a, Scale(k, b))) == Add(Forward(rot, a), Scale(k, Forward(rot, b)))
  {
    var s, c := rot.sin, rot.cos;
    assert c * (a.x + k * b.x) + s * (a.z + k * b.z) == (c * a.x + s * a.z) + k * (c * b.x + s * b.z);
    assert -s * (a.x + k * b.x) + c * (a.z + k * b.z) == (-s * a.x + c * a.z) + k * (-s * b.x + c * b.z);
  }

  /** At 0 degrees both maps are the identity. */
  lemma IdentityMaps(v: Vec3)
    ensures Forward(Identity, v) == v
    ensures Inverse(Identity, v) == v
  {
  }
}
