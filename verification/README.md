# Ray-tracer transform decorators, modelled in Dafny

This project models the orientation and transform layer of a small ray tracer's
geometry, `Project1/hittable.h`:

- `hit_record::set_face_normal`, the rule that records whether a ray struck the
  front face and turns the stored normal against the ray;
- `translate`, a decorator that moves a wrapped hittable by a fixed offset by
  moving the query ray back, delegating, and moving the hit point forward;
- `rotate_y`, a decorator that turns a wrapped hittable about the Y axis by
  carrying the ray into the object's frame with the inverse rotation,
  delegating, and carrying the hit point and normal back with the forward
  rotation. Its constructor caches a conservative box built from the 8 rotated
  corners of the wrapped box.

`double` is read as `real`. The wrapped hittable is a value
`Hittable(hit, box)`: its intersection test is an arbitrary total function from
a ray and an interval to `None` ("returns false") or `Some(record)`, and `box`
is what its `bounding_box()` reports. Each decorator has a view
(`TranslateHittable`, `RotateYHittable`) through the same interface, so
decorators nest. The view's `box` is the box cached at construction, so
`bounding_box()` returns the same value on every call.

The angle of `rotate_y` is represented only by its sine and cosine. The type
`Rotation` holds the `(sin, cos)` pairs with `sin² + cos² = 1`, which over the
reals are exactly the pairs an angle produces. `Identity` is the 0-degree
rotation `(0, 1)`. `Reverse` is the rotation by the opposite angle, `(-sin, cos)`.

Modules, leaf first: `Vectors`, `Rays`, `Boxes` (minimal models of `vec3`,
`ray`, `interval`, `aabb`) in `geometry.dfy`; `HitRecords` and `Hittables` in
`hittable.dfy`; `TranslateDecorator` in `translate.dfy`; `RotationY` (the two
maps) in `rotation.dfy`; `RotatedBox` (the constructor's corner fold) in
`rotated_box.dfy`; `RotateYDecorator` in `rotate_y.dfy`; and worked queries in
`scenarios.dfy`.

Two predicates on a hittable act as the partners of the decorators' `hit`:

- `HitsConsistent`: every record is consistent with its query. Its `t` is
  in the interval, its point is the ray's point at `t`, and its normal is unit
  length and faces against the ray.
- `HitsBounded`: every hit point lies in the reported box.

Both decorators preserve both predicates.

## Model

| member | source | states |
|---|---|---|
| `HitRecords.SetFaceNormal` | Project1/hittable.h:23-29 | `front_face` holds iff the ray direction's dot product with the outward normal is negative. The stored normal is the outward normal when `front_face` holds and its negation otherwise. It therefore always has a non-positive dot product with the ray direction and keeps the outward normal's squared length. `p`, `t`, `mat`, `u`, `v` are untouched |
| `HitRecords.SetFaceNormalIgnoresPrior` | Project1/hittable.h:27-28 | the result does not depend on the normal or orientation the record held before |
| `HitRecords.SetFaceNormalIdempotent` | Project1/hittable.h:27-28 | applying the rule a second time with the same ray and normal changes nothing |
| `TranslateDecorator.NewTranslate` | Project1/hittable.h:45-49 | the cached box is the wrapped box with both bounds of each axis moved by that axis' offset component |
| `TranslateDecorator.TranslateHittable` | Project1/hittable.h:51-65 | through the `hittable` interface, `bounding_box()` reports the box cached at construction, the same value on every call. Every query hits exactly when the wrapped object hits the ray with origin `origin - offset` |
| `TranslateDecorator.TranslateBoxShifts` | Project1/hittable.h:48 | a point is in the wrapped box iff the point moved by the offset is in the cached box |
| `TranslateDecorator.TranslateHit` | Project1/hittable.h:51-63 | the wrapped object is queried with origin `origin - offset` and the same direction, time and interval. The result is a hit iff the wrapped result is. On a hit only the point differs, by exactly `+offset`. Normal, `t`, `front_face`, `mat`, `u`, `v` are the wrapped record's |
| `TranslateDecorator.TranslateZeroIsIdentity` | Project1/hittable.h:51-65 | with offset `(0,0,0)` every answer and the cached box equal the wrapped object's |
| `TranslateDecorator.TranslateComposes` | Project1/hittable.h:51-63 | translating by `a` and then by `b` answers, and boxes, exactly as translating by `a + b` |
| `TranslateDecorator.TranslateRoundTrip` | Project1/hittable.h:51-63 | translating by `d` and then by `-d` reproduces every answer of the wrapped object |
| `TranslateDecorator.TranslatePreservesConsistency` | Project1/hittable.h:51-63 | if the wrapped object's records are consistent with their queries, so are the translated object's |
| `TranslateDecorator.TranslatePreservesBounds` | Project1/hittable.h:48-65 | if the wrapped box holds every wrapped hit point, the cached box holds every translated hit point |
| `RotationY.Forward` | Project1/hittable.h:90-93 | the object-to-world map `(cos·x + sin·z, y, −sin·x + cos·z)`, applied to the box corners and, at lines 130-140, to the returned point and normal, leaves `y` unchanged |
| `RotationY.Inverse` | Project1/hittable.h:109-119 | the world-to-object map `(cos·x − sin·z, y, sin·x + cos·z)` applied to the incoming origin and direction leaves `y` unchanged |
| `RotationY.ForwardInverse` | Project1/hittable.h:109-140 | for `sin² + cos² = 1`, applying the world-to-object map and then the object-to-world map gives back the world vector |
| `RotationY.InverseForward` | Project1/hittable.h:109-140 | for `sin² + cos² = 1`, applying the object-to-world map and then the world-to-object map gives back the object vector |
| `RotationY.ForwardIsRigid` | Project1/hittable.h:130-140 | the object-to-world map keeps `y`, preserves `x² + z²`, dot products and squared length, so a unit normal stays unit |
| `RotationY.InverseIsRigid` | Project1/hittable.h:109-119 | the world-to-object map keeps `y` and preserves dot products and squared length |
| `RotationY.ForwardLinear` | Project1/hittable.h:130-134 | the object-to-world map sends `a + k·b` to the image of `a` plus `k` times the image of `b`, so points on a ray map to points on the image ray |
| `RotationY.Reverse` | Project1/hittable.h:109-140 | rotating forward by the opposite angle is the world-to-object map, and the world-to-object map of the opposite angle is the forward map |
| `RotationY.IdentityMaps` | Project1/hittable.h:75-77 | at 0 degrees (`sin = 0`, `cos = 1`) both maps are the identity |
| `RotatedBox.Pick` | Project1/hittable.h:86-88 | the corner formula `i·max + (1−i)·min` selects `min` when `i = 0` and `max` when `i = 1` |
| `RotatedBox.Corner` | Project1/hittable.h:86-88 | corner `(i, j, k)` takes the max on an axis exactly when that axis' loop counter is 1, and the min otherwise |
| `RotatedBox.Corners` | Project1/hittable.h:83-89 | the loops produce 8 corners, each taking `min` or `max` on every axis |
| `RotatedBox.CornerAt` | Project1/hittable.h:83-88 | the loops visit corner `(i, j, k)` at step `4i + 2j + k`, so all 8 choices are enumerated |
| `RotatedBox.Testers` | Project1/hittable.h:90-93 | there is one rotated corner per corner, each at its corner's height. For a genuine rotation (`sin² + cos² = 1`) the world-to-object map takes each rotated corner back to its corner |
| `RotatedBox.FoldMin` | Project1/hittable.h:80-98 | the `min` accumulator ends at most every point's coordinate on each axis, and each axis' value is one point's coordinate |
| `RotatedBox.FoldMax` | Project1/hittable.h:81-98 | the `max` accumulator ends at least every point's coordinate on each axis, and each axis' value is one point's coordinate |
| `RotatedBox.BoundsOf` | Project1/hittable.h:95-103 | the box from the two accumulators holds every point, each of its six bounds is attained by a point, and it is ordered |
| `RotatedBox.RotatedBounds` | Project1/hittable.h:78-103 | the constructor's box holds every rotated corner. Each of its six bounds is some rotated corner's coordinate, and `min ≤ max` on every axis |
| `RotatedBox.RotatedBoundsKeepY` | Project1/hittable.h:87-93 | for an ordered wrapped box, the y-extent is the wrapped y-extent |
| `RotatedBox.RotatedBoundsContainImage` | Project1/hittable.h:83-103 | the forward image of every point of the wrapped box lies in the constructor's box, not only the images of the corners |
| `RotatedBox.RotatedBoundsIdentity` | Project1/hittable.h:74-103 | at 0 degrees an ordered wrapped box is rebuilt unchanged |
| `RotateYDecorator.NewRotateY` | Project1/hittable.h:74-104 | the cached box is the tightest box around the 8 rotated corners: it holds every one of them, each of its six bounds is one of their coordinates, and `min ≤ max` on every axis. It also holds the forward image of every point of the wrapped box |
| `RotateYDecorator.ObjectRay` | Project1/hittable.h:109-121 | the ray handed to the wrapped object keeps the incoming time, and the object-to-world map carries its origin and direction back to the incoming ones |
| `RotateYDecorator.RotateYHit` | Project1/hittable.h:105-144 | the wrapped object is queried with origin and direction under the world-to-object map, and the same time and interval. The result is a hit iff the wrapped result is. On a hit, the point and the normal are the forward images of the wrapped ones. `t`, `front_face`, `mat`, `u`, `v` pass through |
| `RotateYDecorator.RotateYHittable` | Project1/hittable.h:105-145 | through the `hittable` interface, `bounding_box()` reports the box cached at construction, the same value on every call. Every query hits exactly when the wrapped object hits the ray carried into its frame by the world-to-object map |
| `RotateYDecorator.RotateYIdentity` | Project1/hittable.h:105-144 | at 0 degrees every answer equals the wrapped object's |
| `RotateYDecorator.RotateYIdentityBox` | Project1/hittable.h:74-104 | at 0 degrees an ordered wrapped box is cached unchanged |
| `RotateYDecorator.RotateYRoundTrip` | Project1/hittable.h:105-144 | rotating by an angle and then by the opposite angle reproduces every answer of the wrapped object |
| `RotateYDecorator.RotateYPreservesConsistency` | Project1/hittable.h:105-144 | if the wrapped object's records are consistent with their queries, so are the rotated object's. `t` stays in the interval, the point stays on the world ray, and the normal stays unit and facing against the world ray |
| `RotateYDecorator.RotateYPreservesBounds` | Project1/hittable.h:78-145 | if the wrapped box holds every wrapped hit point, the cached box holds every rotated hit point |
| `Scenarios.TranslatedBoxScenario` | Project1/hittable.h:51-63 | the box `[-1,1]³` moved by `(5,0,0)` and hit from `(5,0,-10)` along `+z` is queried from `(0,0,-10)`. Its hit at `t = 9` comes back at `(5,0,-1)` with normal `(0,0,-1)`, and the cached box spans `[4,6]` in x |
| `Scenarios.RotatedBoxScenario` | Project1/hittable.h:105-144 | a wrapped object whose box is `[-1,1]³`, turned by 90 degrees and hit from `(-10,0,0)` along `+x`, is queried from `(0,0,-10)` along `+z`. Given that its `z = -1` face answers at `t = 9`, the hit comes back at `(-1,0,0)` with normal `(-1,0,0)` |
| `Scenarios.QuarterTurnBox` | Project1/hittable.h:83-103 | at 90 degrees the rotated box of an ordered box takes its x-extent from the old z-extent. Its y-extent is unchanged, and its z-extent is the negated old x-extent |

## Left out

- Floating point: rounding, NaN and infinities are not modelled; every quantity is a `real`.
- The `±infinity` seeds of the corner fold (lines 80-81) are replaced by folding over the non-empty sequence of 8 rotated corners. Over the reals, `fmin(+∞, t) = t`, so the result is the same. The IEEE `0 · ∞` case in the corner formula (lines 86-88, unbounded boxes) is outside the real model.
- `std::sin`, `std::cos` and `degrees_to_radians` belong to `rtweekend.h`, which is not part of this model. The angle is abstracted to a `(sin, cos)` pair on the unit circle. Only the 0-degree case (`Identity`), the opposite angle (`Reverse`) and a 90-degree example are related to angles. Composition of two rotations is not modelled.
- `shared_ptr` ownership, virtual dispatch and the virtual destructor are not modelled. The wrapped object is a `Hittable` value holding its `hit` function and its box.
- `material` is an opaque `Material` handle passed through unchanged.
- `vec3`, `ray`, `interval` and `aabb` are not part of this model. Minimal versions stand in for them:
  - `aabb + offset` moves both bounds of every axis.
  - `aabb(min, max)` stores the two corners as given. The fold's output is already ordered, so sorting the corners would change nothing.
  - Interval membership is taken as closed, `min ≤ t ≤ max`. The decorators never test it themselves.
- In the source, the output record is a mutable reference, and on a miss it may be left partly written by the wrapped object. The model returns `None` on a miss and says nothing about the record.
- On a hit, too, the caller's record is passed to the wrapped object (lines 56 and 125), so any field the wrapped primitive does not write keeps the caller's earlier value. The model's `hit` takes no incoming record and cannot express this. The decorators never read the record before the call, so no modelled property depends on it.
- Concrete primitives, their nearest-`t` choice, and the property that re-querying with an interval excluding `t` misses belong to the primitives, not to this file. The wrapped `hit` is arbitrary. Its good behaviour enters only as the `HitsConsistent` / `HitsBounded` hypotheses of the preservation lemmas.
- Concurrency: the code has none of its own. Every modelled operation is a pure function.
- `RotationY.Forward` and `RotationY.Inverse`: their own contracts state only that `y` is kept. Their other properties are stated as lemmas about all inputs: `ForwardInverse`, `InverseForward`, `ForwardIsRigid`, `InverseIsRigid` and `ForwardLinear`.
- `RotatedBox.RotatedBoundsIdentity`, `RotatedBox.RotatedBoundsKeepY` and `RotateYDecorator.RotateYIdentityBox` are stated for ordered wrapped boxes. When an axis has `min > max`, the corner fold returns that axis sorted, so the box is not rebuilt unchanged.
