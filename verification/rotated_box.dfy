/** The conservative box `rotate_y`'s constructor builds: the 8 corners of the
    wrapped box, each rotated by the forward map, folded into per-axis
    minimum and maximum. */
module RotatedBox {
  import opened Vectors
  import opened Rays
  import opened Boxes
  import opened RotationY

  /** The loop's corner formula `i * hi + (1 - i) * lo` for a counter `i`
      that is 0 or 1: it selects `lo` or `hi`. */
  function Pick(i: int, lo: real, hi: real): (v: real)
    requires 0 <= i <= 1
    ensures v == (if i == 1 then hi else lo)
  {
    assert i as real * hi + (1 - i) as real * lo == (if i == 1 then hi else lo) by {
      if i == 0 { }
    }
    i as real * hi + (1 - i) as real * lo
  }

  /** The corner the loop counters `i`, `j`, `k` (each 0 or 1) select. */
  function Corner(b: Aabb, i: int, j: int, k: int): (c: Vec3)
    requires 0 <= i <= 1 && 0 <= j <= 1 && 0 <= k <= 1
    ensures c.x == (if i == 1 then b.x.max else b.x.min)
    ensures c.y == (if j == 1 then b.y.max else b.y.min)
    ensures c.z == (if k == 1 then b.z.max else b.z.min)
  {
    Vec3(Pick(i, b.x.min, b.x.max), Pick(j, b.y.min, b.y.max), Pick(k, b.z.min, b.z.max))
  }

  /** The corners in the order the three nested loops visit them. Every
      entry picks min or max on each axis (`CornerAt` shows that every such
      pick is present). */
  function Corners(b: Aabb): (cs: seq<Vec3>)
    ensures |cs| == 8
    ensures forall n :: 0 <= n < 8 ==>
      && (cs[n].x == b.x.min || cs[n].x == b.x.max)
      && (cs[n].y == b.y.min || cs[n].y == b.y.max)
      && (cs[n].z == b.z.min || cs[n].z == b.z.max)
  {
    [Corner(b, 0, 0, 0), Corner(b, 0, 0, 1), Corner(b, 0, 1, 0), Corner(b, 0, 1, 1),
     Corner(b, 1, 0, 0), Corner(b, 1, 0, 1), Corner(b, 1, 1, 0), Corner(b, 1, 1, 1)]
  }

  /** The rotated corners (`tester` in the loop body): one per corner, each
      at its corner's height, and for a genuine rotation each mapped back to
      its corner by the inverse map. */
  function Testers(b: Aabb, rot: SinCos): (ts: seq<Vec3>)
    ensures |ts| == 8
    ensures forall n :: 0 <= n < 8 ==> ts[n].y == Corners(b)[n].y
    ensures rot.sin * rot.sin + rot.cos * rot.cos == 1.0 ==>
      forall n :: 0 <= n < 8 ==> Inverse(rot, ts[n]) == Corners(b)[n]
  {
    var cs := Corners(b);
    var ts := seq(8, n requires 0 <= n < 8 => Forward(rot, cs[n]));
    assert rot.sin * rot.sin + rot.cos * rot.cos == 1.0 ==>
      forall n :: 0 <= n < 8 ==> Inverse(rot, ts[n]) == cs[n] by {
      if rot.sin * rot.sin + rot.cos * rot.cos == 1.0 {
        forall n | 0 <= n < 8
          ensures Inverse(rot, ts[n]) == cs[n]
        {
          InverseForward(rot, cs[n]);
        }
      }
    }
    ts
  }

  function Min(a: real, b: real): real { if a <= b then a else b }
  function Max(a: real, b: real): real { if a >= b then a else b }

  /** The `min` accumulator after the loop: per-axis minimum over the
      points, each axis attained by one of them. */
  function FoldMin(ps: seq<Vec3>): (m: Vec3)
    requires |ps| > 0
    ensures forall n :: 0 <= n < |ps| ==> m.x <= ps[n].x && m.y <= ps[n].y && m.z <= ps[n].z
    ensures exists n :: 0 <= n < |ps| && m.x == ps[n].x
    ensures exists n :: 0 <= n < |ps| && m.y == ps[n].y
    ensures exists n :: 0 <= n < |ps| && m.z == ps[n].z
    decreases |ps|
  {
    if |ps| == 1 then ps[0]
    else
      var prefix := ps[..|ps| - 1];
      var acc := FoldMin(prefix);
      var last := ps[|ps| - 1];
      assert forall n :: 0 <= n < |prefix| ==> prefix[n] == ps[n];
      Vec3(Min(acc.x, last.x), Min(acc.y, last.y), Min(acc.z, last.z))
  }

  /** The `max` accumulator after the loop. */
  function FoldMax(ps: seq<Vec3>): (m: Vec3)
    requires |ps| > 0
    ensures forall n :: 0 <= n < |ps| ==> ps[n].x <= m.x && ps[n].y <= m.y && ps[n].z <= m.z
    ensures exists n :: 0 <= n < |ps| && m.x == ps[n].x
    ensures exists n :: 0 <= n < |ps| && m.y == ps[n].y
    ensures exists n :: 0 <= n < |ps| && m.z == ps[n].z
    decreases |ps|
  {
    if |ps| == 1 then ps[0]
    else
      var prefix := ps[..|ps| - 1];
      var acc := FoldMax(prefix);
      var last := ps[|ps| - 1];
      assert forall n :: 0 <= n < |prefix| ==> prefix[n] == ps[n];
      Vec3(Max(acc.x, last.x), Max(acc.y, last.y), Max(acc.z, last.z))
  }

  /** `aabb(min, max)` with the two accumulators: the box holds every point,
      each of its bounds is attained by a point, and it is ordered. */
  function BoundsOf(ps: seq<Vec3>): (box: Aabb)
    requires |ps| > 0
    ensures forall n :: 0 <= n < |ps| ==> InBox(box, ps[n])
    ensures exists n :: 0 <= n < |ps| && box.x.min == ps[n].x
    ensures exists n :: 0 <= n < |ps| && box.x.max == ps[n].x
    ensures exists n :: 0 <= n < |ps| && box.y.min == ps[n].y
    ensures exists n :: 0 <= n < |ps| && box.y.max == ps[n].y
    ensures exists n :: 0 <= n < |ps| && box.z.min == ps[n].z
    ensures exists n :: 0 <= n < |ps| && box.z.max == ps[n].z
    ensures Ordered(box)
  {
    var lo := FoldMin(ps);
    var hi := FoldMax(ps);
    assert lo.x <= ps[0].x <= hi.x && lo.y <= ps[0].y <= hi.y && lo.z <= ps[0].z <= hi.z;
    Aabb(Interval(lo.x, hi.x), Interval(lo.y, hi.y), Interval(lo.z, hi.z))
  }

  /** The box `rotate_y`'s constructor caches: it holds every rotated
      corner, each of its bounds is attained by a rotated corner, and it is
      ordered on every axis. */
  function RotatedBounds(b: Aabb, rot: SinCos): (box: Aabb)
    ensures forall n :: 0 <= n < 8 ==> InBox(box, Forward(rot, Corners(b)[n]))
    ensures exists n :: 0 <= n < 8 && box.x.min == Forward(rot, Corners(b)[n]).x
    ensures exists n :: 0 <= n < 8 && box.x.max == Forward(rot, Corners(b)[n]).x
    ensures exists n :: 0 <= n < 8 && box.y.min == Forward(rot, Corners(b)[n]).y
    ensures exists n :: 0 <= n < 8 && box.y.max == Forward(rot, Corners(b)[n]).y
    ensures exists n :: 0 <= n < 8 && box.z.min == Forward(rot, Corners(b)[n]).z
    ensures exists n :: 0 <= n < 8 && box.z.max == Forward(rot, Corners(b)[n]).z
    ensures Ordered(box)
  {
    BoundsOf(Testers(b, rot))
  }

  /** For an ordered box the rotation leaves the y-extent as it was. */
  lemma RotatedBoundsKeepY(b: Aabb, rot: SinCos)
    requires Ordered(b)
    ensures RotatedBounds(b, rot).y == b.y
  {
    var box := RotatedBounds(b, rot);
    var cs := Corners(b);
    assert cs[0] == Corner(b, 0, 0, 0) && cs[2] == Corner(b, 0, 1, 0);
    assert box.y.min <= Forward(rot, cs[0]).y;
    assert Forward(rot, cs[2]).y <= box.y.max;
  }

  /** The loops visit corner `(i, j, k)` at step `4 * i + 2 * j + k`, so
      all 8 picks of min or max per axis are enumerated. */
  lemma CornerAt(b: Aabb, i: int, j: int, k: int)
    requires 0 <= i <= 1 && 0 <= j <= 1 && 0 <= k <= 1
    ensures Corners(b)[4 * i + 2 * j + k] == Corner(b, i, j, k)
  {
  }

  /** A corner at which `cx * x + cz * z` is no larger than at `p`: `x` at
      the bound that makes `cx * x` smallest, `z` likewise. */
  lemma LowCorner(b: Aabb, cx: real, cz: real, p: Vec3) returns (n: int)
    requires InBox(b, p)
    ensures 0 <= n < 8
    ensures cx * Corners(b)[n].x + cz * Corners(b)[n].z <= cx * p.x + cz * p.z
  {
    var i := if cx >= 0.0 then 0 else 1;
    var k := if cz >= 0.0 then 0 else 1;
    n := 4 * i + k;
    CornerAt(b, i, 0, k);
    var cn := Corner(b, i, 0, k);
    assert Corners(b)[n] == cn;
    ScaledBetween(cx, b.x.min, p.x, b.x.max);
    ScaledBetween(cz, b.z.min, p.z, b.z.max);
    assert cx * cn.x <= cx * p.x by {
      if cx >= 0.0 { assert cn.x == b.x.min; } else { assert cn.x == b.x.max; }
    }
    assert cz * cn.z <= cz * p.z by {
      if cz >= 0.0 { assert cn.z == b.z.min; } else { assert cn.z == b.z.max; }
    }
    SumLe(cx * cn.x, cx * p.x, cz * cn.z, cz * p.z);
  }

  /** Mirror image of `LowCorner`. */
  lemma HighCorner(b: Aabb, cx: real, cz: real, p: Vec3) returns (n: int)
    requires InBox(b, p)
    ensures 0 <= n < 8
    ensures cx * p.x + cz * p.z <= cx * Corners(b)[n].x + cz * Corners(b)[n].z
  {
    var i := if cx >= 0.0 then 1 else 0;
    var k := if cz >= 0.0 then 1 else 0;
    n := 4 * i + k;
    CornerAt(b, i, 0, k);
    var cn := Corner(b, i, 0, k);
    assert Corners(b)[n] == cn;
    ScaledBetween(cx, b.x.min, p.x, b.x.max);
    ScaledBetween(cz, b.z.min, p.z, b.z.max);
    assert cx * p.x <= cx * cn.x by {
      if cx >= 0.0 { assert cn.x == b.x.max; } else { assert cn.x == b.x.min; }
    }
    assert cz * p.z <= cz * cn.z by {
      if cz >= 0.0 { assert cn.z == b.z.max; } else { assert cn.z == b.z.min; }
    }
    SumLe(cx * p.x, cx * cn.x, cz * p.z, cz * cn.z);
  }

  /** Sums of bounded terms are bounded (kept apart so that the solver sees
      the products as plain terms). */
  lemma SumLe(a: real, b: real, c: real, d: real)
    requires a <= b && c <= d
    ensures a + c <= b + d
  {
  }

  /** Multiplying `lo <= x <= hi` by `a` keeps `a * x` between the scaled
      bounds, in an order fixed by the sign of `a`. */
  lemma ScaledBetween(a: real, lo: real, x: real, hi: real)
    requires lo <= x <= hi
    ensures a >= 0.0 ==> a * lo <= a * x <= a * hi
    ensures a < 0.0 ==> a * hi <= a * x <= a * lo
  {
    if a >= 0.0 {
      assert a * (x - lo) >= 0.0;
      assert a * (hi - x) >= 0.0;
    } else {
      assert (-a) * (x - lo) >= 0.0;
      assert (-a) * (hi - x) >= 0.0;
    }
  }

  /** A corner whose rotated x coordinate is no larger than that of `p`. */
  lemma LowCornerX(b: Aabb, rot: SinCos, p: Vec3) returns (n: int)
    requires InBox(b, p)
    ensures 0 <= n < 8
    ensures Forward(rot, Corners(b)[n]).x <= Forward(rot, p).x
  {
    n := LowCorner(b, rot.cos, rot.sin, p);
    var c := Corners(b)[n];
    assert Forward(rot, c).x == rot.cos * c.x + rot.sin * c.z;
    assert Forward(rot, p).x == rot.cos * p.x + rot.sin * p.z;
  }

  /** A corner whose rotated x coordinate is no smaller than that of `p`. */
  lemma HighCornerX(b: Aabb, rot: SinCos, p: Vec3) returns (n: int)
    requires InBox(b, p)
    ensures 0 <= n < 8
    ensures Forward(rot, p).x <= Forward(rot, Corners(b)[n]).x
  {
    n := HighCorner(b, rot.cos, rot.sin, p);
    var c := Corners(b)[n];
    assert Forward(rot, c).x == rot.cos * c.x + rot.sin * c.z;
    assert Forward(rot, p).x == rot.cos * p.x + rot.sin * p.z;
  }

  /** A corner whose rotated z coordinate is no larger than that of `p`. */
  lemma LowCornerZ(b: Aabb, rot: SinCos, p: Vec3) returns (n: int)
    requires InBox(b, p)
    ensures 0 <= n < 8
    ensures Forward(rot, Corners(b)[n]).z <= Forward(rot, p).z
  {
    n := LowCorner(b, -rot.sin, rot.cos, p);
    var c := Corners(b)[n];
    assert Forward(rot, c).z == -rot.sin * c.x + rot.cos * c.z;
    assert Forward(rot, p).z == -rot.sin * p.x + rot.cos * p.z;
  }

  /** A corner whose rotated z coordinate is no smaller than that of `p`. */
  lemma HighCornerZ(b: Aabb, rot: SinCos, p: Vec3) returns (n: int)
    requires InBox(b, p)
    ensures 0 <= n < 8
    ensures Forward(rot, p).z <= Forward(rot, Corners(b)[n]).z
  {
    n := HighCorner(b, -rot.sin, rot.cos, p);
    var c := Corners(b)[n];
    assert Forward(rot, c).z == -rot.sin * c.x + rot.cos * c.z;
    assert Forward(rot, p).z == -rot.sin * p.x + rot.cos * p.z;
  }

  /** The rotated box holds the forward image of every point of the wrapped
      box, not only of its corners. */
  lemma RotatedBoundsContainImage(b: Aabb, rot: SinCos, p: Vec3)
    requires InBox(b, p)
    ensures InBox(RotatedBounds(b, rot), Forward(rot, p))
  {
    var box := RotatedBounds(b, rot);
    var ts := Testers(b, rot);
    var xlo := LowCornerX(b, rot, p);
    var xhi := HighCornerX(b, rot, p);
    var zlo := LowCornerZ(b, rot, p);
    var zhi := HighCornerZ(b, rot, p);
    assert InBox(box, ts[xlo]) && InBox(box, ts[xhi]);
    assert InBox(box, ts[zlo]) && InBox(box, ts[zhi]);
    // y: the corners carry y.min and y.max unchanged
    CornerAt(b, 0, 0, 0);
    CornerAt(b, 0, 1, 0);
    assert box.y.min <= ts[0].y && ts[2].y <= box.y.max;
  }

  /** At 0 degrees an ordered box is rebuilt unchanged. */
  lemma RotatedBoundsIdentity(b: Aabb)
    requires Ordered(b)
    ensures RotatedBounds(b, Identity) == b
  {
    var box := RotatedBounds(b, Identity);
    var cs := Corners(b);
    forall n | 0 <= n < 8
      ensures Forward(Identity, cs[n]) == cs[n]
    {
      IdentityMaps(cs[n]);
    }
    assert cs[0] == Corner(b, 0, 0, 0) && cs[7] == Corner(b, 1, 1, 1);
    assert box.x.min <= cs[0].x && cs[7].x <= box.x.max;
    assert box.y.min <= cs[0].y && cs[7].y <= box.y.max;
    assert box.z.min <= cs[0].z && cs[7].z <= box.z.max;
  }
}
