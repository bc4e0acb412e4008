/** Joint constraints (src/constraint.rs): a swing limit and a twist limit,
    their application to a (swing, twist) pair, and the constrained rotation
    step of the forward pass. */
module Constraints {
  import opened Geometry

  /** `SwingConstraint(angle)` and `TwistConstraint(angle)`; a joint's list of
      `&dyn Constraint` becomes a sequence of these. */
  datatype Constraint = Swing(angle: real) | Twist(angle: real)
  {
    /** `Constraint::apply`: limit one component of the pair. */
    function Apply(ops: Ops, swing: Quat, twist: Quat): (r: (Quat, Quat))
      ensures Swing? ==> r.1 == twist
      ensures Twist? ==> r.0 == swing
    {
      match this
      case Swing(a) => (ops.constrain(swing, a), twist)
      case Twist(a) => (swing, ops.constrain(twist, a))
    }

    /** `Constraint::get_angle` */
    function GetAngle(): (r: real)
      ensures this == Swing(r) || this == Twist(r)
    {
      angle
    }
  }

  /** A swing constraint limits the swing by its own angle and hands the twist
      back untouched; a twist constraint does the converse. */
  lemma ApplyTouchesOwnComponent(ops: Ops, c: Constraint, swing: Quat, twist: Quat)
    ensures c.Swing? ==> c.Apply(ops, swing, twist) == (ops.constrain(swing, c.GetAngle()), twist)
    ensures c.Twist? ==> c.Apply(ops, swing, twist) == (swing, ops.constrain(twist, c.GetAngle()))
  {
  }

  /** The constraint list folded over (swing, twist), first constraint first. */
  function ApplyAll(ops: Ops, cs: seq<Constraint>, swing: Quat, twist: Quat): (r: (Quat, Quat))
    ensures (forall i :: 0 <= i < |cs| ==> cs[i].Twist?) ==> r.0 == swing
    ensures (forall i :: 0 <= i < |cs| ==> cs[i].Swing?) ==> r.1 == twist
    decreases |cs|
  {
    if cs == [] then (swing, twist)
    else
      var p := cs[0].Apply(ops, swing, twist);
      ApplyAll(ops, cs[1..], p.0, p.1)
  }

  /** The angles of the swing constraints of a list, in list order. */
  function SwingAngles(cs: seq<Constraint>): seq<real>
    decreases |cs|
  {
    if cs == [] then []
    else (if cs[0].Swing? then [cs[0].angle] else []) + SwingAngles(cs[1..])
  }

  /** The angles of the twist constraints of a list, in list order. */
  function TwistAngles(cs: seq<Constraint>): seq<real>
    decreases |cs|
  {
    if cs == [] then []
    else (if cs[0].Twist? then [cs[0].angle] else []) + TwistAngles(cs[1..])
  }

  /** One quaternion passed through `constrain` once per angle, in order. */
  function ConstrainBy(ops: Ops, q: Quat, angles: seq<real>): Quat
    decreases |angles|
  {
    if angles == [] then q else ConstrainBy(ops, ops.constrain(q, angles[0]), angles[1..])
  }

  /** The fold never mixes the two components: the swing that comes out is the
      input swing limited by the swing constraints alone, in their order, and
      the twist is the input twist limited by the twist constraints alone. */
  lemma {:induction false} ApplyAllSeparates(ops: Ops, cs: seq<Constraint>, swing: Quat, twist: Quat)
    ensures ApplyAll(ops, cs, swing, twist)
         == (ConstrainBy(ops, swing, SwingAngles(cs)), ConstrainBy(ops, twist, TwistAngles(cs)))
  {
    if cs != [] {
      var p := cs[0].Apply(ops, swing, twist);
      ApplyAllSeparates(ops, cs[1..], p.0, p.1);
      var ss, ts := SwingAngles(cs[1..]), TwistAngles(cs[1..]);
      match cs[0]
      case Swing(a) =>
        assert SwingAngles(cs) == [a] + ss && TwistAngles(cs) == ts;
        assert ([a] + ss)[1..] == ss;
      case Twist(a) =>
        assert TwistAngles(cs) == [a] + ts && SwingAngles(cs) == ss;
        assert ([a] + ts)[1..] == ts;
    }
  }

  /** Folding a concatenation folds the first list, then the second. */
  lemma {:induction false} ApplyAllAppend(ops: Ops, a: seq<Constraint>, b: seq<Constraint>, swing: Quat, twist: Quat)
    ensures ApplyAll(ops, a + b, swing, twist)
         == var p := ApplyAll(ops, a, swing, twist); ApplyAll(ops, b, p.0, p.1)
  {
    if a == [] {
      assert a + b == b;
    } else {
      var p := a[0].Apply(ops, swing, twist);
      assert (a + b)[1..] == a[1..] + b;
      ApplyAllAppend(ops, a[1..], b, p.0, p.1);
    }
  }

  /** Two lists with the same swing angles in the same order and the same
      twist angles in the same order constrain alike, however the swings and
      twists are interleaved; in particular one swing and one twist constraint
      give the same pair in either order. */
  lemma ReorderingKeepsResult(ops: Ops, cs1: seq<Constraint>, cs2: seq<Constraint>, swing: Quat, twist: Quat)
    requires SwingAngles(cs1) == SwingAngles(cs2)
    requires TwistAngles(cs1) == TwistAngles(cs2)
    ensures ApplyAll(ops, cs1, swing, twist) == ApplyAll(ops, cs2, swing, twist)
  {
    ApplyAllSeparates(ops, cs1, swing, twist);
    ApplyAllSeparates(ops, cs2, swing, twist);
  }

  /** `rotate_and_constrain` as a value: the delta rotating `normal` onto
      `direction`, taken relative to the frame's rotation R, is split into
      swing and twist about -Z, limited by the constraints, and the frame's
      rotation becomes R * swing * twist; translation and scale are those of
      `compute_transform`. */
  function ConstrainedRotation(ops: Ops, direction: Vec3, normal: Vec3, transform: Affine, cs: seq<Constraint>): Affine
  {
    var base := ops.computeTransform(transform);
    var local := ops.mul(ops.inverse(base.rotation), ops.fromRotationArc(normal, direction));
    var split := ops.decompose(local, NegZ);
    var limited := ApplyAll(ops, cs, split.1, split.0);
    ops.fromTransform(base.(rotation := ops.mul(ops.mul(base.rotation, limited.0), limited.1)))
  }

  /** `rotate_and_constrain` (src/constraint.rs:41-58). */
  method RotateAndConstrain(ops: Ops, direction: Vec3, normal: Vec3, transform: Affine, constraints: seq<Constraint>)
    returns (r: Affine)
    ensures r == ConstrainedRotation(ops, direction, normal, transform, constraints)
  {
    var result := ops.computeTransform(transform);
    var rotationLocal := ops.mul(ops.inverse(result.rotation), ops.fromRotationArc(normal, direction));
    var split := ops.decompose(rotationLocal, NegZ);
    var twist, swing := split.0, split.1;
    for i := 0 to |constraints|
      invariant ApplyAll(ops, constraints, split.1, split.0) == ApplyAll(ops, constraints[i..], swing, twist)
    {
      var p := constraints[i].Apply(ops, swing, twist);
      assert constraints[i..][1..] == constraints[i + 1..];
      swing, twist := p.0, p.1;
    }
    result := result.(rotation := ops.mul(ops.mul(result.rotation, swing), twist));
    r := ops.fromTransform(result);
  }

  /** The constrained rotation step moves nothing: the frame keeps its translation. */
  lemma ConstrainedRotationKeepsTranslation(ops: Ops, direction: Vec3, normal: Vec3, transform: Affine, cs: seq<Constraint>)
    requires PreservesTranslation(ops)
    ensures ConstrainedRotation(ops, direction, normal, transform, cs).translation == transform.translation
  {
  }
}
