/** The vector, quaternion and affine types the solver moves around, and the
    floating-point operations on them that the solver treats as black boxes.

    Components are reals, but the model never computes with them: every
    arithmetic operation the solver performs (vector add/subtract/scale,
    normalisation, squared distance, quaternion product and inverse, the
    rotation arc, swing/twist decomposition, the cone limit, the conversions
    between affine and scale/rotation/translation form) is a field of `Ops`.
    A property proved for an arbitrary `Ops` holds whatever those operations
    compute, in particular for their f32 implementations. */
module Geometry {

  datatype Vec3 = Vec3(x: real, y: real, z: real)

  /** `Vec3::ZERO`, the initial value of the hook's difference vector. */
  const Zero: Vec3 := Vec3(0.0, 0.0, 0.0)

  /** `Vec3::Y` / `Dir3::Y`, the default root normal and the fallback of `normalize_or`. */
  const UnitY: Vec3 := Vec3(0.0, 1.0, 0.0)

  /** `Vec3::NEG_Z`, the local forward axis of the swing/twist decomposition. */
  const NegZ: Vec3 := Vec3(0.0, 0.0, -1.0)

  datatype Quat = Quat(x: real, y: real, z: real, w: real)

  /** The 3x3 linear part of an affine transform, by columns. */
  datatype Mat3 = Mat3(xAxis: Vec3, yAxis: Vec3, zAxis: Vec3)

  /** A world-space frame (`GlobalTransform`, i.e. `Affine3A`). */
  datatype Affine = Affine(matrix3: Mat3, translation: Vec3)

  /** A parent-relative `Transform`. */
  datatype Transform = Transform(translation: Vec3, rotation: Quat, scale: Vec3)

  /** The floating-point operations the solver uses without looking inside. */
  datatype Ops = Ops(
    add: (Vec3, Vec3) -> Vec3,
    sub: (Vec3, Vec3) -> Vec3,
    scale: (Vec3, real) -> Vec3,
    length: Vec3 -> real,
    distanceSquared: (Vec3, Vec3) -> real,
    normalize: Vec3 -> Vec3,
    // `normalize_or`'s test: the reciprocal of the length is finite and positive
    normalizable: Vec3 -> bool,
    // `GlobalTransform::up`
    up: Affine -> Vec3,
    // `GlobalTransform::compute_transform`
    computeTransform: Affine -> Transform,
    // `GlobalTransform::from(Transform)`
    fromTransform: Transform -> Affine,
    // `GlobalTransform::reparented_to`
    reparentedTo: (Affine, Affine) -> Transform,
    inverse: Quat -> Quat,
    mul: (Quat, Quat) -> Quat,
    fromRotationArc: (Vec3, Vec3) -> Quat,
    // `QuatExt::decompose`, returning (twist, swing)
    decompose: (Quat, Vec3) -> (Quat, Quat),
    // `QuatExt::constrain`
    constrain: (Quat, real) -> Quat
  )

  /** `Vec3::normalize_or(fallback)`: the normalised vector when it can be
      normalised, the fallback otherwise. */
  function NormalizeOr(ops: Ops, v: Vec3, fallback: Vec3): Vec3
  {
    if ops.normalizable(v) then ops.normalize(v) else fallback
  }

  /** The two conversions between affine and scale/rotation/translation form
      copy the translation unchanged (glam copies it; it does not recompute it). */
  ghost predicate PreservesTranslation(ops: Ops)
  {
    && (forall a: Affine :: ops.computeTransform(a).translation == a.translation)
    && (forall t: Transform :: ops.fromTransform(t).translation == t.translation)
  }
}
