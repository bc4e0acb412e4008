/** The `IkChain` component of src/chain.rs: its insertion hook, which
    measures the chain in the scene, and `solve`, which gathers the chain's
    frames, runs the FABRIK passes of `Fabrik` on them and writes the result
    back into the entities' local transforms. */
module Chain {
  import opened Wrappers
  import opened Geometry
  import opened Constraints
  import opened Scene
  import opened Fabrik

  /** `DEFAULT_TARGET_SQ_THRESHOLD` (an f32 in the source). */
  const DefaultThreshold: real := 0.001

  /** `DEFAULT_MAX_ITTERATIONS` */
  const DefaultMaxIterations: nat := 10

  // ---------------------------------------------------------------- insertion hook

  /** The panics of `ik_chain_insert_hook`, each with the entity it names. */
  datatype HookPanic =
    | TooFewJoints
    | ParentNotFound(entity: Entity)
    | ParentTransformNotFound(entity: Entity)
    | TransformNotFound(entity: Entity)

  /** What the hook's walk up the hierarchy finds: the segment lengths and the
      last difference vector, or the panic that stops it. */
  datatype Measurement = Measured(lengths: seq<real>, normal: Vec3) | Panic(reason: HookPanic)

  /** The hook's loop from `tail` with `steps` iterations left, having found
      `lengths` so far and `normal` as the last difference. Each iteration
      looks up the tail's parent, then the parent's world transform, then the
      tail's, in that order, and panics at the first one missing. */
  function MeasureFrom(ops: Ops, nodes: map<Entity, Node>, tail: Entity, steps: nat, normal: Vec3, lengths: seq<real>): Measurement
    decreases steps
  {
    if steps == 0 then Measured(lengths, normal)
    else match ParentOf(nodes, tail)
      case None => Panic(ParentNotFound(tail))
      case Some(joint) =>
        if !HasGlobal(nodes, joint) then Panic(ParentTransformNotFound(joint))
        else if !HasGlobal(nodes, tail) then Panic(TransformNotFound(tail))
        else
          var d := ops.sub(Position(nodes, tail), Position(nodes, joint));
          MeasureFrom(ops, nodes, joint, steps - 1, d, lengths + [ops.length(d)])
  }

  /** What `ik_chain_insert_hook` computes for a chain of `jointCount` joints
      ending at `entity`. */
  function Measure(ops: Ops, nodes: map<Entity, Node>, entity: Entity, jointCount: nat): Measurement
  {
    if jointCount < 2 then Panic(TooFewJoints)
    else MeasureFrom(ops, nodes, entity, jointCount - 1, Zero, [])
  }

  /** The length of segment `k` of the chain above `e` (from its `k + 1`-th
      ancestor to its `k`-th, in world space), when both ends exist with a
      world transform. */
  function SegmentLength(ops: Ops, nodes: map<Entity, Node>, e: Entity, k: nat): Option<real>
  {
    if AncestorHasGlobal(nodes, e, k) && AncestorHasGlobal(nodes, e, k + 1)
    then Some(ops.length(Segment(ops, nodes, e, k)))
    else None
  }

  /** The world-space vector of segment `k` of the chain above `e`. */
  function Segment(ops: Ops, nodes: map<Entity, Node>, e: Entity, k: nat): Vec3
    requires AncestorHasGlobal(nodes, e, k) && AncestorHasGlobal(nodes, e, k + 1)
  {
    ops.sub(Position(nodes, Ancestor(nodes, e, k).value), Position(nodes, Ancestor(nodes, e, k + 1).value))
  }

  /** Following one more parent link is following the first link, then the rest. */
  lemma AncestorAfterParent(nodes: map<Entity, Node>, e: Entity, p: Entity)
    requires ParentOf(nodes, e) == Some(p)
    ensures forall k: nat :: Ancestor(nodes, e, k + 1) == Ancestor(nodes, p, k)
  {
    forall k: nat
      ensures Ancestor(nodes, e, k + 1) == Ancestor(nodes, p, k)
    {
    }
  }

  /** Following one more parent link from the `k`-th ancestor gives the `k + 1`-th. */
  lemma {:induction false} AncestorStep(nodes: map<Entity, Node>, e: Entity, k: nat)
    ensures Ancestor(nodes, e, k + 1)
         == match Ancestor(nodes, e, k) case None => None case Some(x) => ParentOf(nodes, x)
    decreases k
  {
    if k > 0 {
      match ParentOf(nodes, e)
      case None =>
      case Some(p) => AncestorStep(nodes, p, k - 1);
    }
  }

  /** The walk from `tail` completes exactly when the tail and its next
      `steps` ancestors all exist with a world transform (no check at all when
      no step is left); it never reports too few joints. */
  lemma {:induction false} MeasureFromSucceeds(ops: Ops, nodes: map<Entity, Node>, tail: Entity, steps: nat, normal: Vec3, lengths: seq<real>)
    ensures MeasureFrom(ops, nodes, tail, steps, normal, lengths).Measured?
        <==> steps == 0 || forall k :: 0 <= k <= steps ==> AncestorHasGlobal(nodes, tail, k)
    ensures MeasureFrom(ops, nodes, tail, steps, normal, lengths) != Panic(TooFewJoints)
    decreases steps
  {
    if steps > 0 {
      assert Ancestor(nodes, tail, 0) == Some(tail);
      match ParentOf(nodes, tail)
      case None =>
        assert Ancestor(nodes, tail, 1) == None;
        assert !AncestorHasGlobal(nodes, tail, 1);
      case Some(joint) =>
        AncestorAfterParent(nodes, tail, joint);
        if HasGlobal(nodes, joint) && HasGlobal(nodes, tail) {
          var d := ops.sub(Position(nodes, tail), Position(nodes, joint));
          MeasureFromSucceeds(ops, nodes, joint, steps - 1, d, lengths + [ops.length(d)]);
          if forall k :: 0 <= k <= steps - 1 ==> AncestorHasGlobal(nodes, joint, k) {
            forall k | 0 <= k <= steps
              ensures AncestorHasGlobal(nodes, tail, k)
            {
              if k > 0 {
                assert AncestorHasGlobal(nodes, joint, k - 1);
              }
            }
          }
          if forall k :: 0 <= k <= steps ==> AncestorHasGlobal(nodes, tail, k) {
            forall k | 0 <= k <= steps - 1
              ensures AncestorHasGlobal(nodes, joint, k)
            {
              assert AncestorHasGlobal(nodes, tail, k + 1);
            }
          }
        } else if !HasGlobal(nodes, joint) {
          assert !AncestorHasGlobal(nodes, tail, 1);
        } else {
          assert !AncestorHasGlobal(nodes, tail, 0);
        }
    }
  }

  /** When the walk completes it has appended one length per step, the length
      of the matching segment above the tail, and its normal is the last
      segment walked (the given one when no step was left). */
  lemma {:induction false} MeasureFromLengths(ops: Ops, nodes: map<Entity, Node>, tail: Entity, steps: nat, normal: Vec3, lengths: seq<real>)
    requires MeasureFrom(ops, nodes, tail, steps, normal, lengths).Measured?
    ensures var m := MeasureFrom(ops, nodes, tail, steps, normal, lengths);
      && |m.lengths| == |lengths| + steps
      && m.lengths[..|lengths|] == lengths
      && (forall k :: 0 <= k < steps ==> SegmentLength(ops, nodes, tail, k) == Some(m.lengths[|lengths| + k]))
      && (steps == 0 ==> m.normal == normal)
      && (steps > 0 ==> AncestorHasGlobal(nodes, tail, steps - 1) && AncestorHasGlobal(nodes, tail, steps)
                        && m.normal == Segment(ops, nodes, tail, steps - 1))
    decreases steps
  {
    if steps > 0 {
      var joint := ParentOf(nodes, tail).value;
      AncestorAfterParent(nodes, tail, joint);
      assert Ancestor(nodes, tail, 0) == Some(tail);
      var d := ops.sub(Position(nodes, tail), Position(nodes, joint));
      var acc := lengths + [ops.length(d)];
      MeasureFromLengths(ops, nodes, joint, steps - 1, d, acc);
      var m := MeasureFrom(ops, nodes, tail, steps, normal, lengths);
      assert m == MeasureFrom(ops, nodes, joint, steps - 1, d, acc);
      assert m.lengths[..|lengths|] == acc[..|lengths|];
      forall k | 0 <= k < steps
        ensures SegmentLength(ops, nodes, tail, k) == Some(m.lengths[|lengths| + k])
      {
        if k > 0 {
          assert SegmentLength(ops, nodes, tail, k) == SegmentLength(ops, nodes, joint, k - 1);
        } else {
          assert Ancestor(nodes, tail, 1) == Ancestor(nodes, joint, 0) == Some(joint);
          assert m.lengths[|lengths|] == m.lengths[..|acc|][|lengths|] == acc[|lengths|];
        }
      }
      if steps > 1 {
        assert Segment(ops, nodes, tail, steps - 1) == Segment(ops, nodes, joint, steps - 2);
      }
    }
  }

  /** The hook installs a chain of `jointCount` joints exactly when there are
      at least two and the end entity and its `jointCount - 1` ancestors all
      exist with a world transform; it reports too few joints exactly when
      there are fewer than two. */
  lemma MeasureSucceeds(ops: Ops, nodes: map<Entity, Node>, entity: Entity, jointCount: nat)
    ensures Measure(ops, nodes, entity, jointCount).Measured?
        <==> jointCount >= 2 && forall k :: 0 <= k < jointCount ==> AncestorHasGlobal(nodes, entity, k)
    ensures jointCount < 2 <==> Measure(ops, nodes, entity, jointCount) == Panic(TooFewJoints)
  {
    if jointCount >= 2 {
      MeasureFromSucceeds(ops, nodes, entity, jointCount - 1, Zero, []);
    }
  }

  /** An installed chain records one length per segment, segment `k` running
      from ancestor `k + 1` of the end entity to ancestor `k`, and hands back
      as normal the root segment (from the root to its child). */
  lemma MeasureLengths(ops: Ops, nodes: map<Entity, Node>, entity: Entity, jointCount: nat)
    requires Measure(ops, nodes, entity, jointCount).Measured?
    ensures var m := Measure(ops, nodes, entity, jointCount);
      && |m.lengths| == jointCount - 1
      && (forall k :: 0 <= k < jointCount - 1 ==> SegmentLength(ops, nodes, entity, k) == Some(m.lengths[k]))
      && AncestorHasGlobal(nodes, entity, jointCount - 2) && AncestorHasGlobal(nodes, entity, jointCount - 1)
      && m.normal == Segment(ops, nodes, entity, jointCount - 2)
  {
    MeasureFromLengths(ops, nodes, entity, jointCount - 1, Zero, []);
  }

  // ---------------------------------------------------------------- gathering

  /** How `solve` ends: `Ok(())`, a `QueryEntityError` for an entity the query
      does not match, or the panic of `parent.unwrap()` on an entity without a
      parent. */
  datatype SolveOutcome = Ok | QueryEntityError(entity: Entity) | ParentUnwrapPanic(entity: Entity)

  /** The joint buffer `solve` collects, split into its frame half and its
      constraint half, with the entity each joint came from; or how the
      collection stopped. */
  datatype Gathering = Collected(frames: seq<Affine>, constraints: seq<seq<Constraint>>, entities: seq<Entity>)
                     | Aborted(outcome: SolveOutcome)

  /** A joint's optional swing and twist constraints, swing first: the list
      holds the joint's swing limit as its only swing angle and its twist
      limit as its only twist angle, whichever of them it has. */
  function ConstraintsOf(n: Node): (cs: seq<Constraint>)
    ensures SwingAngles(cs) == if n.swingLimit.Some? then [n.swingLimit.value] else []
    ensures TwistAngles(cs) == if n.twistLimit.Some? then [n.twistLimit.value] else []
    ensures forall i, j :: 0 <= i < j < |cs| ==> !(cs[i].Twist? && cs[j].Swing?)
  {
    match (n.swingLimit, n.twistLimit)
    case (Some(a), Some(b)) =>
      assert [Swing(a), Twist(b)][1..] == [Twist(b)];
      assert SwingAngles([Twist(b)]) == [] && TwistAngles([Twist(b)]) == [b];
      [Swing(a), Twist(b)]
    case (Some(a), None) => [Swing(a)]
    case (None, Some(b)) => [Twist(b)]
    case (None, None) => []
  }


  /** The buffer `head` collected in front of whatever `rest` collects. */
  function Prepend(fs: seq<Affine>, cs: seq<seq<Constraint>>, es: seq<Entity>, rest: Gathering): Gathering
  {
    match rest
    case Collected(fs', cs', es') => Collected(fs + fs', cs + cs', es + es')
    case Aborted(o) => Aborted(o)
  }

  /** Collecting in front of a collection in front of `rest` is collecting
      both in front of `rest`. */
  lemma PrependTwice(fs1: seq<Affine>, cs1: seq<seq<Constraint>>, es1: seq<Entity>,
                     fs2: seq<Affine>, cs2: seq<seq<Constraint>>, es2: seq<Entity>, rest: Gathering)
    ensures Prepend(fs1, cs1, es1, Prepend(fs2, cs2, es2, rest)) == Prepend(fs1 + fs2, cs1 + cs2, es1 + es2, rest)
  {
    if rest.Collected? {
      assert fs1 + (fs2 + rest.frames) == fs1 + fs2 + rest.frames;
      assert cs1 + (cs2 + rest.constraints) == cs1 + cs2 + rest.constraints;
      assert es1 + (es2 + rest.entities) == es1 + es2 + rest.entities;
    }
  }

  /** The gathering loop of `solve` from `current` with `remaining` joints
      left to collect: a joint the lens query does not match ends it with a
      query error; a joint that is not the last one must have a parent, or
      the `unwrap` panics. */
  function GatherFrom(nodes: map<Entity, Node>, current: Entity, remaining: nat): Gathering
    decreases remaining
  {
    if remaining == 0 then Collected([], [], [])
    else if !HasJointComponents(nodes, current) then Aborted(QueryEntityError(current))
    else
      var n := nodes[current];
      var rest :=
        if remaining == 1 then Collected([], [], [])
        else match n.parent
          case None => Aborted(ParentUnwrapPanic(current))
          case Some(p) => GatherFrom(nodes, p, remaining - 1);
      Prepend([n.global.value], [ConstraintsOf(n)], [current], rest)
  }

  /** Joint `k` of a collected buffer: the `k`-th ancestor `x` of the end
      entity `e`, with its world transform and its constraints. */
  predicate CollectedJoint(nodes: map<Entity, Node>, e: Entity, k: nat, f: Affine, c: seq<Constraint>, x: Entity)
  {
    && Ancestor(nodes, e, k) == Some(x)
    && HasJointComponents(nodes, x)
    && f == nodes[x].global.value
    && c == ConstraintsOf(nodes[x])
  }

  /** The gathering loop collects exactly when `current` and its next
      `remaining - 1` ancestors all match the lens query. */
  lemma {:induction false} GatherFromSucceeds(nodes: map<Entity, Node>, current: Entity, remaining: nat)
    ensures GatherFrom(nodes, current, remaining).Collected?
        <==> forall k :: 0 <= k < remaining ==> AncestorIsJoint(nodes, current, k)
    ensures GatherFrom(nodes, current, remaining).Aborted? ==> GatherFrom(nodes, current, remaining).outcome != Ok
    decreases remaining
  {
    if remaining > 0 {
      assert Ancestor(nodes, current, 0) == Some(current);
      if HasJointComponents(nodes, current) && remaining > 1 {
        match nodes[current].parent
        case None =>
          assert Ancestor(nodes, current, 1) == None;
          assert !AncestorIsJoint(nodes, current, 1);
        case Some(p) =>
          AncestorAfterParent(nodes, current, p);
          GatherFromSucceeds(nodes, p, remaining - 1);
          if forall k :: 0 <= k < remaining - 1 ==> AncestorIsJoint(nodes, p, k) {
            forall k | 0 <= k < remaining
              ensures AncestorIsJoint(nodes, current, k)
            {
              if k > 0 {
                assert AncestorIsJoint(nodes, p, k - 1);
              }
            }
          }
          if forall k :: 0 <= k < remaining ==> AncestorIsJoint(nodes, current, k) {
            forall k | 0 <= k < remaining - 1
              ensures AncestorIsJoint(nodes, p, k)
            {
              assert AncestorIsJoint(nodes, current, k + 1);
            }
          }
      } else if !HasJointComponents(nodes, current) {
        assert !AncestorIsJoint(nodes, current, 0);
      }
    }
  }

  /** How the gathering walk aborts, at the first of the remaining joints
      that does not match the lens query: when that joint is missing, its
      child (a joint below the root) has no parent and `parent.unwrap()`
      panics; otherwise the lens query fails on it. */
  lemma {:induction false} GatherFromAborts(nodes: map<Entity, Node>, current: Entity, remaining: nat, k: nat)
    requires k < remaining && !AncestorIsJoint(nodes, current, k)
    requires forall j :: 0 <= j < k ==> AncestorIsJoint(nodes, current, j)
    ensures Ancestor(nodes, current, k).None? ==>
      k > 0 && Ancestor(nodes, current, k - 1).Some?
      && GatherFrom(nodes, current, remaining) == Aborted(ParentUnwrapPanic(Ancestor(nodes, current, k - 1).value))
    ensures Ancestor(nodes, current, k).Some? ==>
      GatherFrom(nodes, current, remaining) == Aborted(QueryEntityError(Ancestor(nodes, current, k).value))
    decreases remaining
  {
    assert Ancestor(nodes, current, 0) == Some(current);
    if k > 0 {
      assert AncestorIsJoint(nodes, current, 0);
      match nodes[current].parent
      case None =>
        assert Ancestor(nodes, current, 1) == None;
        assert !AncestorIsJoint(nodes, current, 1);
      case Some(p) =>
        AncestorAfterParent(nodes, current, p);
        var k' := k - 1;
        forall j | 0 <= j < k'
          ensures AncestorIsJoint(nodes, p, j)
        {
          assert AncestorIsJoint(nodes, current, j + 1);
        }
        GatherFromAborts(nodes, p, remaining - 1, k');
        if k' > 0 {
          assert Ancestor(nodes, current, k' - 1 + 1) == Ancestor(nodes, p, k' - 1);
        }
    }
  }

  /** A collected buffer holds one joint per step, joint `k` being the `k`-th
      ancestor of `current` with its world transform and constraints. */
  lemma {:induction false} GatherFromCollects(nodes: map<Entity, Node>, current: Entity, remaining: nat)
    requires GatherFrom(nodes, current, remaining).Collected?
    ensures var g := GatherFrom(nodes, current, remaining);
      && |g.frames| == |g.constraints| == |g.entities| == remaining
      && forall k :: 0 <= k < remaining ==>
           CollectedJoint(nodes, current, k, g.frames[k], g.constraints[k], g.entities[k])
    decreases remaining
  {
    if remaining > 0 {
      var n := nodes[current];
      var g := GatherFrom(nodes, current, remaining);
      assert Ancestor(nodes, current, 0) == Some(current);
      if remaining > 1 {
        var p := n.parent.value;
        AncestorAfterParent(nodes, current, p);
        GatherFromCollects(nodes, p, remaining - 1);
        var r := GatherFrom(nodes, p, remaining - 1);
        assert g.frames == [n.global.value] + r.frames;
        assert g.constraints == [ConstraintsOf(n)] + r.constraints;
        assert g.entities == [current] + r.entities;
        forall k | 0 <= k < remaining
          ensures CollectedJoint(nodes, current, k, g.frames[k], g.constraints[k], g.entities[k])
        {
          if k > 0 {
            assert CollectedJoint(nodes, p, k - 1, r.frames[k - 1], r.constraints[k - 1], r.entities[k - 1]);
          }
        }
      }
    }
  }

  /** What the gathering loop of `solve` leaves for a chain of `jointCount`
      joints ending at `entity`. */
  function Gather(nodes: map<Entity, Node>, entity: Entity, jointCount: nat): Gathering
  {
    GatherFrom(nodes, entity, jointCount)
  }

  /** The buffer is collected exactly when the end entity and its
      `jointCount - 1` ancestors all match the lens query, and then joint `k`
      is the end entity's `k`-th ancestor, with that entity's world transform
      and its constraints, swing before twist. */
  lemma GatherSpec(nodes: map<Entity, Node>, entity: Entity, jointCount: nat)
    ensures Gather(nodes, entity, jointCount).Collected?
        <==> forall k :: 0 <= k < jointCount ==> AncestorIsJoint(nodes, entity, k)
    ensures Gather(nodes, entity, jointCount).Aborted? ==> Gather(nodes, entity, jointCount).outcome != Ok
    ensures match Gather(nodes, entity, jointCount)
      case Collected(fs, cs, es) =>
        && |fs| == |cs| == |es| == jointCount
        && forall k :: 0 <= k < jointCount ==> CollectedJoint(nodes, entity, k, fs[k], cs[k], es[k])
      case Aborted(_) => true
  {
    GatherFromSucceeds(nodes, entity, jointCount);
    if Gather(nodes, entity, jointCount).Collected? {
      GatherFromCollects(nodes, entity, jointCount);
    }
  }

  // ---------------------------------------------------------------- write-back

  /** The entities are pairwise distinct: the chain has no parent cycle. */
  predicate Distinct(es: seq<Entity>)
  {
    forall i, j :: 0 <= i < j < |es| ==> es[i] != es[j]
  }

  /** Every listed entity has a local transform to write. */
  predicate Writable(nodes: map<Entity, Node>, es: seq<Entity>)
  {
    forall e :: e in es ==> HasPose(nodes, e)
  }

  /** Each listed entity but the last has the next one as parent. */
  predicate Linked(nodes: map<Entity, Node>, es: seq<Entity>)
  {
    forall k :: 0 <= k < |es| - 1 ==> ParentOf(nodes, es[k]) == Some(es[k + 1])
  }

  /** The gathered entities all have a local transform to write, and they are
      linked child to parent. */
  lemma GatheredWritable(nodes: map<Entity, Node>, entity: Entity, jointCount: nat)
    requires Gather(nodes, entity, jointCount).Collected?
    ensures Writable(nodes, Gather(nodes, entity, jointCount).entities)
    ensures Linked(nodes, Gather(nodes, entity, jointCount).entities)
  {
    GatherSpec(nodes, entity, jointCount);
    var g := Gather(nodes, entity, jointCount);
    forall e | e in g.entities
      ensures HasPose(nodes, e)
    {
      var k :| 0 <= k < |g.entities| && g.entities[k] == e;
      assert CollectedJoint(nodes, entity, k, g.frames[k], g.constraints[k], g.entities[k]);
    }
    forall k | 0 <= k < |g.entities| - 1
      ensures ParentOf(nodes, g.entities[k]) == Some(g.entities[k + 1])
    {
      var j := k + 1;
      AncestorStep(nodes, entity, k);
      assert CollectedJoint(nodes, entity, k, g.frames[k], g.constraints[k], g.entities[k]);
      assert CollectedJoint(nodes, entity, j, g.frames[j], g.constraints[j], g.entities[j]);
    }
  }

  /** The write-back loop of `solve` from joint `i` on: joint `i` (not the
      root) gets the translation and rotation of its solved frame expressed
      relative to the solved frame of joint `i + 1`. */
  function WriteBack(ops: Ops, nodes: map<Entity, Node>, es: seq<Entity>, fs: seq<Affine>, i: nat): map<Entity, Node>
    requires |fs| == |es| && Writable(nodes, es)
    decreases |es| - i
  {
    if i + 1 >= |es| then nodes
    else
      var t := ops.reparentedTo(fs[i], fs[i + 1]);
      WriteBack(ops, WithPose(nodes, es[i], t.translation, t.rotation), es, fs, i + 1)
  }

  /** Writing a pose keeps every entity writable. */
  lemma WithPoseKeepsWritable(nodes: map<Entity, Node>, es: seq<Entity>, e: Entity, translation: Vec3, rotation: Quat)
    requires Writable(nodes, es) && HasPose(nodes, e)
    ensures Writable(WithPose(nodes, e, translation, rotation), es)
  {
  }

  /** The write-back changes no entity set, no parent, no world transform, no
      constraint and no scale: only local translations and rotations. */
  lemma {:induction false} WriteBackKeepsStructure(ops: Ops, nodes: map<Entity, Node>, es: seq<Entity>, fs: seq<Affine>, i: nat)
    requires |fs| == |es| && Writable(nodes, es)
    ensures WriteBack(ops, nodes, es, fs, i).Keys == nodes.Keys
    ensures forall x :: x in nodes ==> SameStructure(WriteBack(ops, nodes, es, fs, i)[x], nodes[x])
    decreases |es| - i
  {
    if i + 1 < |es| {
      var t := ops.reparentedTo(fs[i], fs[i + 1]);
      var next := WithPose(nodes, es[i], t.translation, t.rotation);
      WithPoseKeepsWritable(nodes, es, es[i], t.translation, t.rotation);
      WriteBackKeepsStructure(ops, next, es, fs, i + 1);
    }
  }

  /** An entity that is not among joints `i .. |es| - 2` is left exactly as it
      was; in particular the root joint is, when it occurs only as the root. */
  lemma {:induction false} WriteBackOutside(ops: Ops, nodes: map<Entity, Node>, es: seq<Entity>, fs: seq<Affine>, i: nat, x: Entity)
    requires |fs| == |es| && Writable(nodes, es)
    requires x in nodes && forall j :: i <= j < |es| - 1 ==> es[j] != x
    ensures x in WriteBack(ops, nodes, es, fs, i) && WriteBack(ops, nodes, es, fs, i)[x] == nodes[x]
    decreases |es| - i
  {
    WriteBackKeepsStructure(ops, nodes, es, fs, i);
    if i + 1 < |es| {
      var t := ops.reparentedTo(fs[i], fs[i + 1]);
      var next := WithPose(nodes, es[i], t.translation, t.rotation);
      WithPoseKeepsWritable(nodes, es, es[i], t.translation, t.rotation);
      WriteBackOutside(ops, next, es, fs, i + 1, x);
    }
  }

  /** On a chain without cycles, every joint from `i` up to the root's child
      ends with the translation and rotation of its solved frame relative to
      its parent's solved frame. */
  lemma {:induction false} WriteBackPoses(ops: Ops, nodes: map<Entity, Node>, es: seq<Entity>, fs: seq<Affine>, i: nat, j: nat)
    requires |fs| == |es| && Writable(nodes, es) && Distinct(es)
    requires i <= j < |es| - 1
    ensures var t := ops.reparentedTo(fs[j], fs[j + 1]);
      var w := WriteBack(ops, nodes, es, fs, i);
      es[j] in w && w[es[j]].local.Some?
      && w[es[j]].local.value.translation == t.translation
      && w[es[j]].local.value.rotation == t.rotation
    decreases |es| - i
  {
    var t := ops.reparentedTo(fs[i], fs[i + 1]);
    var next := WithPose(nodes, es[i], t.translation, t.rotation);
    WithPoseKeepsWritable(nodes, es, es[i], t.translation, t.rotation);
    if j == i {
      WriteBackKeepsStructure(ops, next, es, fs, i + 1);
      WriteBackOutside(ops, next, es, fs, i + 1, es[i]);
    } else {
      WriteBackPoses(ops, next, es, fs, i + 1, j);
    }
  }

  // ---------------------------------------------------------------- the component

  /** What `solve` leaves: its outcome, the solved frames (empty when it
      returned before solving) and the scene. */
  datatype SolveResult = SolveResult(outcome: SolveOutcome, frames: seq<Affine>, nodes: map<Entity, Node>)

  /** The fields of an `IkChain`. */
  datatype ChainState = ChainState(
    enabled: bool,
    target: Vec3,
    threshold: real,
    maxIterations: nat,
    jointCount: nat,
    jointLengths: seq<real>,
    rootNormal: Vec3)
  {
    /** The state the insertion hook leaves when it does not panic: at least
        two joints and one length per segment. */
    predicate Ready()
    {
      jointCount >= 2 && |jointLengths| == jointCount - 1
    }

    /** The fields the passes read. */
    function Params(): Settings
    {
      Settings(target, threshold, jointLengths, rootNormal)
    }
  }

  /** The early exit of `solve`: the end entity is already within the
      threshold of the target (squared distance, strictly below). */
  predicate StartsNearTarget(ops: Ops, c: ChainState, nodes: map<Entity, Node>, entity: Entity)
    requires HasGlobal(nodes, entity)
  {
    ops.distanceSquared(Position(nodes, entity), c.target) < c.threshold
  }

  /** `solve` as a value: return early when disabled, when the end entity is
      not a joint or when it starts near the target; otherwise gather the
      chain (its error or panic ends the call), iterate the passes and write
      the solved frames back. Nothing is written before the gathering ends. */
  function SolveSpec(ops: Ops, c: ChainState, nodes: map<Entity, Node>, entity: Entity): (r: SolveResult)
    requires c.Ready()
    ensures r.frames == [] ==> r.nodes == nodes
  {
    if !c.enabled then SolveResult(Ok, [], nodes)
    else if !HasJointComponents(nodes, entity) then SolveResult(QueryEntityError(entity), [], nodes)
    else if StartsNearTarget(ops, c, nodes, entity) then SolveResult(Ok, [], nodes)
    else match Gather(nodes, entity, c.jointCount)
      case Aborted(o) => SolveResult(o, [], nodes)
      case Collected(fs, cs, es) =>
        GatherSpec(nodes, entity, c.jointCount);
        GatheredWritable(nodes, entity, c.jointCount);
        var solved := Iterate(ops, c.Params(), fs, cs, c.maxIterations);
        SolveResult(Ok, solved, WriteBack(ops, nodes, es, solved, 0))
  }

  /** `solve` gets as far as iterating the passes. */
  predicate Solves(ops: Ops, c: ChainState, nodes: map<Entity, Node>, entity: Entity)
  {
    && c.enabled && HasJointComponents(nodes, entity) && !StartsNearTarget(ops, c, nodes, entity)
    && Gather(nodes, entity, c.jointCount).Collected?
  }

  /** When `solve` gets as far as iterating, its result is the gathered
      frames iterated and written back. */
  lemma SolvesUnfold(ops: Ops, c: ChainState, nodes: map<Entity, Node>, entity: Entity)
    requires c.Ready() && Solves(ops, c, nodes, entity)
    ensures var g := Gather(nodes, entity, c.jointCount);
      && |g.frames| == |g.constraints| == |g.entities| == c.jointCount
      && Fits(c.Params(), g.frames, g.constraints)
      && Writable(nodes, g.entities) && Linked(nodes, g.entities)
      && (forall k :: 0 <= k < c.jointCount ==> CollectedJoint(nodes, entity, k, g.frames[k], g.constraints[k], g.entities[k]))
      && var solved := Iterate(ops, c.Params(), g.frames, g.constraints, c.maxIterations);
         SolveSpec(ops, c, nodes, entity) == SolveResult(Ok, solved, WriteBack(ops, nodes, g.entities, solved, 0))
  {
    GatherSpec(nodes, entity, c.jointCount);
    GatheredWritable(nodes, entity, c.jointCount);
  }

  /** The outcome: `Ok` exactly when the chain is disabled, or the end entity
      is a joint that starts near the target or whose whole chain gathers; an
      end entity that is not a joint is the query error; and the passes run
      exactly when the chain is enabled, the end entity does not start near
      the target and every joint of the chain matches the query. */
  lemma SolveOutcomes(ops: Ops, c: ChainState, nodes: map<Entity, Node>, entity: Entity)
    requires c.Ready()
    ensures var r := SolveSpec(ops, c, nodes, entity);
      r.outcome == Ok
      <==> (|| !c.enabled
            || (&& HasJointComponents(nodes, entity)
                && (|| StartsNearTarget(ops, c, nodes, entity)
                    || forall k :: 0 <= k < c.jointCount ==> AncestorIsJoint(nodes, entity, k))))
    ensures c.enabled && !HasJointComponents(nodes, entity)
        ==> SolveSpec(ops, c, nodes, entity).outcome == QueryEntityError(entity)
    ensures SolveSpec(ops, c, nodes, entity).frames != []
        <==> (&& c.enabled && HasJointComponents(nodes, entity) && !StartsNearTarget(ops, c, nodes, entity)
              && forall k :: 0 <= k < c.jointCount ==> AncestorIsJoint(nodes, entity, k))
  {
    GatherSpec(nodes, entity, c.jointCount);
  }

  /** A disabled chain, or one whose end effector starts within the
      threshold of the target, returns `Ok` without solving or writing anything. */
  lemma SolveEarlyExit(ops: Ops, c: ChainState, nodes: map<Entity, Node>, entity: Entity)
    requires c.Ready()
    requires !c.enabled || (HasGlobal(nodes, entity) && StartsNearTarget(ops, c, nodes, entity))
    ensures c.enabled && !HasPose(nodes, entity) ==> SolveSpec(ops, c, nodes, entity) == SolveResult(QueryEntityError(entity), [], nodes)
    ensures !c.enabled || HasPose(nodes, entity) ==> SolveSpec(ops, c, nodes, entity) == SolveResult(Ok, [], nodes)
  {
  }

  /** How `solve` fails when its chain does not gather, at the first joint
      `k` that does not match the query: a missing `k`-th ancestor means that
      joint `k - 1`, below the root, has no parent and `parent.unwrap()`
      panics; an ancestor without the components makes the lens query fail
      on it. Neither writes anything. */
  lemma SolveGatherFails(ops: Ops, c: ChainState, nodes: map<Entity, Node>, entity: Entity, k: nat)
    requires c.Ready() && c.enabled && HasJointComponents(nodes, entity) && !StartsNearTarget(ops, c, nodes, entity)
    requires k < c.jointCount && !AncestorIsJoint(nodes, entity, k)
    requires forall j :: 0 <= j < k ==> AncestorIsJoint(nodes, entity, j)
    ensures Ancestor(nodes, entity, k).None? ==>
      && 0 < k < c.jointCount && Ancestor(nodes, entity, k - 1).Some?
      && SolveSpec(ops, c, nodes, entity)
         == SolveResult(ParentUnwrapPanic(Ancestor(nodes, entity, k - 1).value), [], nodes)
    ensures Ancestor(nodes, entity, k).Some? ==>
      SolveSpec(ops, c, nodes, entity) == SolveResult(QueryEntityError(Ancestor(nodes, entity, k).value), [], nodes)
  {
    GatherFromAborts(nodes, entity, c.jointCount, k);
  }

  /** Only local translations and rotations change: the entity set, the
      hierarchy, world transforms, constraints and scales stay, and a call
      that does not return `Ok` changes nothing. */
  lemma SolveWritesOnlyPoses(ops: Ops, c: ChainState, nodes: map<Entity, Node>, entity: Entity)
    requires c.Ready()
    ensures var r := SolveSpec(ops, c, nodes, entity);
      && r.nodes.Keys == nodes.Keys
      && (forall x :: x in nodes ==> SameStructure(r.nodes[x], nodes[x]))
      && (r.outcome != Ok ==> r.nodes == nodes)
  {
    if Solves(ops, c, nodes, entity) {
      SolvesUnfold(ops, c, nodes, entity);
      var g := Gather(nodes, entity, c.jointCount);
      WriteBackKeepsStructure(ops, nodes, g.entities, SolveSpec(ops, c, nodes, entity).frames, 0);
    }
  }

  /** Solved frames mean that `solve` got as far as iterating. */
  lemma FramesMeanSolves(ops: Ops, c: ChainState, nodes: map<Entity, Node>, entity: Entity)
    requires c.Ready()
    ensures SolveSpec(ops, c, nodes, entity).frames != [] ==> Solves(ops, c, nodes, entity)
  {
  }

  /** When `solve` gets as far as iterating, its frames are the gathered
      frames iterated. */
  lemma SolvedFrames(ops: Ops, c: ChainState, nodes: map<Entity, Node>, entity: Entity)
    requires c.Ready() && Solves(ops, c, nodes, entity)
    ensures var g := Gather(nodes, entity, c.jointCount);
      && Fits(c.Params(), g.frames, g.constraints)
      && SolveSpec(ops, c, nodes, entity).frames == Iterate(ops, c.Params(), g.frames, g.constraints, c.maxIterations)
  {
    GatherSpec(nodes, entity, c.jointCount);
  }

  /** The gathered buffer starts with the end entity's world frame and ends
      with the root's. */
  lemma GatheredEnds(nodes: map<Entity, Node>, entity: Entity, jointCount: nat)
    requires jointCount >= 1 && Gather(nodes, entity, jointCount).Collected?
    ensures var g := Gather(nodes, entity, jointCount);
      var root := Ancestor(nodes, entity, jointCount - 1);
      && |g.frames| == jointCount
      && root.Some? && HasGlobal(nodes, root.value)
      && g.frames[jointCount - 1] == nodes[root.value].global.value
      && HasGlobal(nodes, entity) && g.frames[0] == nodes[entity].global.value
  {
    GatherSpec(nodes, entity, jointCount);
    var g := Gather(nodes, entity, jointCount);
    var last := jointCount - 1;
    assert CollectedJoint(nodes, entity, 0, g.frames[0], g.constraints[0], g.entities[0]);
    assert CollectedJoint(nodes, entity, last, g.frames[last], g.constraints[last], g.entities[last]);
  }

  /** The solved frames: one per joint; the root keeps its world position and
      the end effector the linear part of its world transform. */
  lemma SolveFrames(ops: Ops, c: ChainState, nodes: map<Entity, Node>, entity: Entity)
    requires c.Ready() && SolveSpec(ops, c, nodes, entity).frames != []
    ensures var r := SolveSpec(ops, c, nodes, entity);
      var root := Ancestor(nodes, entity, c.jointCount - 1);
      && |r.frames| == c.jointCount
      && root.Some? && HasGlobal(nodes, root.value)
      && r.frames[c.jointCount - 1].translation == Position(nodes, root.value)
      && r.frames[0].matrix3 == nodes[entity].global.value.matrix3
  {
    FramesMeanSolves(ops, c, nodes, entity);
    SolvedFrames(ops, c, nodes, entity);
    GatheredEnds(nodes, entity, c.jointCount);
    var g := Gather(nodes, entity, c.jointCount);
    IterateInvariants(ops, c.Params(), g.frames, g.constraints, c.maxIterations);
  }

  /** Either the end effector ends near the target or the whole iteration
      budget was spent. */
  lemma SolveStops(ops: Ops, c: ChainState, nodes: map<Entity, Node>, entity: Entity)
    requires c.Ready() && SolveSpec(ops, c, nodes, entity).frames != []
    ensures var g := Gather(nodes, entity, c.jointCount);
      g.Collected? && |g.frames| == |g.constraints| == c.jointCount
    ensures var g := Gather(nodes, entity, c.jointCount);
      || NearTarget(ops, c.Params(), SolveSpec(ops, c, nodes, entity).frames)
      || Passes(ops, c.Params(), g.frames, g.constraints, c.maxIterations) == c.maxIterations
  {
    FramesMeanSolves(ops, c, nodes, entity);
    SolvesUnfold(ops, c, nodes, entity);
    var g := Gather(nodes, entity, c.jointCount);
    IterateTermination(ops, c.Params(), g.frames, g.constraints, c.maxIterations);
  }

  /** An entity that is not one of the chain's joints below the root is left
      exactly as it was. */
  lemma SolveLeavesOthers(ops: Ops, c: ChainState, nodes: map<Entity, Node>, entity: Entity, x: Entity)
    requires c.Ready() && x in nodes
    requires forall k :: 0 <= k < c.jointCount - 1 ==> Ancestor(nodes, entity, k) != Some(x)
    ensures var r := SolveSpec(ops, c, nodes, entity);
      x in r.nodes && r.nodes[x] == nodes[x]
  {
    if Solves(ops, c, nodes, entity) {
      SolvesUnfold(ops, c, nodes, entity);
      var g := Gather(nodes, entity, c.jointCount);
      forall j | 0 <= j < |g.entities| - 1
        ensures g.entities[j] != x
      {
        assert CollectedJoint(nodes, entity, j, g.frames[j], g.constraints[j], g.entities[j]);
      }
      WriteBackOutside(ops, nodes, g.entities, SolveSpec(ops, c, nodes, entity).frames, 0, x);
    }
  }

  /** The chain's first `n` ancestors are pairwise different entities. */
  predicate DistinctAncestors(nodes: map<Entity, Node>, e: Entity, n: nat)
  {
    forall i, j :: 0 <= i < j < n ==> Ancestor(nodes, e, i) != Ancestor(nodes, e, j)
  }

  /** The entity has a local transform with this translation and rotation. */
  predicate PoseIs(nodes: map<Entity, Node>, x: Entity, t: Transform)
  {
    x in nodes && nodes[x].local.Some?
    && nodes[x].local.value.translation == t.translation && nodes[x].local.value.rotation == t.rotation
  }

  /** On a chain without cycles, every joint below the root ends with the
      translation and rotation of its solved frame relative to its parent's
      solved frame. */
  lemma SolvePoses(ops: Ops, c: ChainState, nodes: map<Entity, Node>, entity: Entity, k: nat)
    requires c.Ready() && SolveSpec(ops, c, nodes, entity).frames != []
    requires DistinctAncestors(nodes, entity, c.jointCount)
    requires k < c.jointCount - 1
    ensures var r := SolveSpec(ops, c, nodes, entity);
      && |r.frames| == c.jointCount
      && Ancestor(nodes, entity, k).Some?
      && PoseIs(r.nodes, Ancestor(nodes, entity, k).value, ops.reparentedTo(r.frames[k], r.frames[k + 1]))
  {
    FramesMeanSolves(ops, c, nodes, entity);
    SolvesUnfold(ops, c, nodes, entity);
    var g := Gather(nodes, entity, c.jointCount);
    assert CollectedJoint(nodes, entity, k, g.frames[k], g.constraints[k], g.entities[k]);
    forall i, j | 0 <= i < j < |g.entities|
      ensures g.entities[i] != g.entities[j]
    {
      assert CollectedJoint(nodes, entity, i, g.frames[i], g.constraints[i], g.entities[i]);
      assert CollectedJoint(nodes, entity, j, g.frames[j], g.constraints[j], g.entities[j]);
    }
    WriteBackPoses(ops, nodes, g.entities, SolveSpec(ops, c, nodes, entity).frames, 0, k);
  }

  /** The `IkChain` component. `jointCount`, `jointLengths` and `rootNormal`
      are internal to the crate; the insertion hook fills in the last two. */
  class IkChain {
    var enabled: bool
    var target: Vec3
    var threshold: real
    var maxIterations: nat
    var jointCount: nat
    var jointLengths: seq<real>
    var rootNormal: Vec3

    /** `IkChain::new`: enabled, aimed at the origin, default threshold and
        iteration budget, no lengths yet and +Y as root normal. */
    constructor (jointCount: nat)
      ensures enabled && target == Zero && threshold == DefaultThreshold && maxIterations == DefaultMaxIterations
      ensures this.jointCount == jointCount && jointLengths == [] && rootNormal == UnitY
    {
      enabled := true;
      target := Zero;
      threshold := DefaultThreshold;
      maxIterations := DefaultMaxIterations;
      this.jointCount := jointCount;
      jointLengths := [];
      rootNormal := UnitY;
    }

    /** The component's fields as a value. */
    function State(): ChainState
      reads this
    {
      ChainState(enabled, target, threshold, maxIterations, jointCount, jointLengths, rootNormal)
    }

    /** `ik_chain_insert_hook`: walk from the end entity up `jointCount - 1`
        parent links, recording each segment's length, and take the root
        segment, normalised (or +Y when it cannot be), as root normal. A panic
        leaves the component as it was. */
    method InsertHook(ops: Ops, scene: World, entity: Entity) returns (panic: Option<HookPanic>)
      modifies this
      ensures enabled == old(enabled) && target == old(target) && threshold == old(threshold)
      ensures maxIterations == old(maxIterations) && jointCount == old(jointCount)
      ensures match Measure(ops, scene.nodes, entity, jointCount)
        case Measured(ls, d) => panic == None && jointLengths == ls && rootNormal == NormalizeOr(ops, d, UnitY)
        case Panic(reason) => panic == Some(reason) && jointLengths == old(jointLengths) && rootNormal == old(rootNormal)
      ensures panic == None ==> State().Ready()
    {
      if jointCount < 2 {
        return Some(TooFewJoints);
      }
      var jointNormal := Zero;
      var tail := entity;
      var lengths: seq<real> := [];
      for i := 1 to jointCount
        invariant |lengths| == i - 1
        invariant Measure(ops, scene.nodes, entity, jointCount)
               == MeasureFrom(ops, scene.nodes, tail, jointCount - i, jointNormal, lengths)
      {
        var parent := ParentOf(scene.nodes, tail);
        if parent.None? {
          return Some(ParentNotFound(tail));
        }
        var joint := parent.value;
        if !HasGlobal(scene.nodes, joint) {
          return Some(ParentTransformNotFound(joint));
        }
        var jointPos := Position(scene.nodes, joint);
        if !HasGlobal(scene.nodes, tail) {
          return Some(TransformNotFound(tail));
        }
        var tailPos := Position(scene.nodes, tail);
        jointNormal := ops.sub(tailPos, jointPos);
        lengths := lengths + [ops.length(jointNormal)];
        tail := joint;
      }
      jointLengths := lengths;
      rootNormal := NormalizeOr(ops, jointNormal, UnitY);
      return None;
    }

    /** The gathering loop of `solve`. */
    method GatherJoints(scene: World, entity: Entity) returns (g: Gathering)
      ensures g == Gather(scene.nodes, entity, jointCount)
    {
      var frames: seq<Affine> := [];
      var constraints: seq<seq<Constraint>> := [];
      var entities: seq<Entity> := [];
      var current := entity;
      for i := 0 to jointCount
        invariant Gather(scene.nodes, entity, jointCount)
               == Prepend(frames, constraints, entities, GatherFrom(scene.nodes, current, jointCount - i))
      {
        if !HasJointComponents(scene.nodes, current) {
          return Aborted(QueryEntityError(current));
        }
        var node := scene.nodes[current];
        PrependTwice(frames, constraints, entities, [node.global.value], [ConstraintsOf(node)], [current],
                     if jointCount - i == 1 then Collected([], [], [])
                     else match node.parent
                       case None => Aborted(ParentUnwrapPanic(current))
                       case Some(p) => GatherFrom(scene.nodes, p, jointCount - i - 1));
        frames := frames + [node.global.value];
        constraints := constraints + [ConstraintsOf(node)];
        entities := entities + [current];
        if i < jointCount - 1 {
          if node.parent.None? {
            return Aborted(ParentUnwrapPanic(current));
          }
          current := node.parent.value;
        }
      }
      assert frames + [] == frames && constraints + [] == constraints && entities + [] == entities;
      return Collected(frames, constraints, entities);
    }

    /** `backward_pass` on the frame half of the joint buffer. */
    method BackwardPass(ops: Ops, joints: array<Affine>)
      requires 1 <= joints.Length <= |jointLengths| + 1
      modifies joints
      ensures joints[..] == AfterBackward(ops, State().Params(), old(joints[..]))
    {
      ghost var fs := joints[..];
      ghost var s := State().Params();
      var n := joints.Length;
      var origin := joints[n - 1].translation;
      BackwardProgressStart(ops, s, fs);
      joints[0] := Affine(joints[0].matrix3, target);
      for i := 1 to n
        invariant BackwardProgress(ops, s, fs, i, joints[..])
      {
        BackwardProgressStep(ops, s, fs, i, joints[..]);
        var direction := ops.normalize(ops.sub(joints[i].translation, joints[i - 1].translation));
        joints[i] := Affine(joints[i - 1].matrix3, ops.add(joints[i - 1].translation, ops.scale(direction, jointLengths[i - 1])));
      }
      BackwardProgressDone(ops, s, fs, joints[..]);
      joints[n - 1] := Affine(joints[n - 1].matrix3, origin);
    }

    /** `forward_pass` on the frame half of the joint buffer; `constraints`
        is its constraint half. */
    method ForwardPass(ops: Ops, joints: array<Affine>, constraints: seq<seq<Constraint>>)
      requires Fits(State().Params(), joints[..], constraints)
      modifies joints
      ensures joints[..] == AfterForward(ops, State().Params(), old(joints[..]), constraints)
    {
      ghost var fs := joints[..];
      ghost var s := State().Params();
      var n := joints.Length;
      var rootEnd := n - 2;
      ForwardProgressStart(ops, s, fs, constraints);
      joints[rootEnd] := Affine(joints[rootEnd].matrix3, ops.add(joints[n - 1].translation, ops.scale(rootNormal, jointLengths[rootEnd])));
      for i := rootEnd downto 0
        invariant ForwardProgress(ops, s, fs, constraints, i, joints[..])
      {
        ghost var before := joints[..];
        var j := i + 1;
        var child := joints[j];
        var parent := joints[i];
        ForwardProgressStep(ops, s, fs, constraints, i, j, before);
        var direction := ops.normalize(ops.sub(parent.translation, child.translation));
        var turned := RotateAndConstrain(ops, direction, rootNormal, child, constraints[j]);
        joints[j] := turned;
        joints[i] := Affine(parent.matrix3, ops.add(turned.translation, ops.scale(ops.up(turned), jointLengths[j])));
      }
      ForwardProgressDone(ops, s, fs, constraints, joints[..]);
    }

    /** The iteration loop of `solve`: at most `maxIterations` backward and
        forward passes, stopping as soon as the end effector is near the target. */
    method IteratePasses(ops: Ops, joints: array<Affine>, constraints: seq<seq<Constraint>>)
      requires Fits(State().Params(), joints[..], constraints)
      modifies joints
      ensures joints[..] == Iterate(ops, State().Params(), old(joints[..]), constraints, maxIterations)
    {
      ghost var s := State().Params();
      ghost var solved := Iterate(ops, s, joints[..], constraints, maxIterations);
      for it := 0 to maxIterations
        invariant Fits(s, joints[..], constraints)
        invariant solved == Iterate(ops, s, joints[..], constraints, maxIterations - it)
      {
        if ops.distanceSquared(target, joints[0].translation) < threshold {
          assert solved == joints[..];
          break;
        }
        BackwardPass(ops, joints);
        ForwardPass(ops, joints, constraints);
      }
    }

    /** The write-back loop of `solve`: every joint but the root gets its
        solved frame relative to its parent's, the entity walk following the
        parent links the gathering followed. */
    method WriteBackJoints(ops: Ops, scene: World, entity: Entity, joints: array<Affine>, ghost es: seq<Entity>)
      requires jointCount >= 1 && |es| == joints.Length == jointCount && es[0] == entity
      requires Writable(scene.nodes, es) && Linked(scene.nodes, es)
      modifies scene
      ensures scene.nodes == WriteBack(ops, old(scene.nodes), es, joints[..], 0)
    {
      ghost var nodes0 := scene.nodes;
      var current := entity;
      for i := 0 to jointCount - 1
        invariant current == es[i]
        invariant scene.nodes.Keys == nodes0.Keys
        invariant forall x :: x in nodes0 ==> SameStructure(scene.nodes[x], nodes0[x])
        invariant Writable(scene.nodes, es)
        invariant WriteBack(ops, nodes0, es, joints[..], 0) == WriteBack(ops, scene.nodes, es, joints[..], i)
      {
        // The entity matched the query while gathering and its components
        // are unchanged, so `get_mut` succeeds.
        assert current in es;
        assert ParentOf(nodes0, es[i]) == Some(es[i + 1]);
        var parent := scene.nodes[current].parent;
        var updated := ops.reparentedTo(joints[i], joints[i + 1]);
        WithPoseKeepsWritable(scene.nodes, es, current, updated.translation, updated.rotation);
        scene.SetPose(current, updated.translation, updated.rotation);
        current := parent.value;
      }
    }

    /** `solve` on the scene graph: the outcome and the scene it leaves are
        those of `SolveSpec`. */
    method Solve(ops: Ops, entity: Entity, scene: World) returns (outcome: SolveOutcome)
      requires State().Ready()
      modifies scene
      ensures outcome == SolveSpec(ops, State(), old(scene.nodes), entity).outcome
      ensures scene.nodes == SolveSpec(ops, State(), old(scene.nodes), entity).nodes
    {
      if !enabled {
        return Ok;
      }
      if !HasJointComponents(scene.nodes, entity) {
        return QueryEntityError(entity);
      }
      if ops.distanceSquared(Position(scene.nodes, entity), target) < threshold {
        return Ok;
      }
      var g := GatherJoints(scene, entity);
      if g.Aborted? {
        return g.outcome;
      }
      GatherSpec(scene.nodes, entity, jointCount);
      GatheredWritable(scene.nodes, entity, jointCount);
      var n := |g.frames|;
      var joints := new Affine[n](k requires 0 <= k < n => g.frames[k]);
      assert joints[..] == g.frames;
      IteratePasses(ops, joints, g.constraints);
      WriteBackJoints(ops, scene, entity, joints, g.entities);
      return Ok;
    }
  }
}
