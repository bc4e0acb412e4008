/** The FABRIK passes of src/chain.rs as functions on the frames of the joint
    buffer: what `backward_pass`, `forward_pass` and the iteration loop of
    `solve` leave there, and what that content is proved to satisfy. Index 0
    is the end effector, the last index the root. The passes never write the
    constraint half of the buffer, so the constraints are a separate,
    read-only argument `cs` (`cs[k]` belongs to joint `k`). */
module Fabrik {
  import opened Geometry
  import opened Constraints

  /** The chain parameters the passes read. */
  datatype Settings = Settings(target: Vec3, threshold: real, lengths: seq<real>, rootNormal: Vec3)

  /** The buffer shape the passes index safely: at least two joints, a
      length for every segment, a constraint list for every joint. */
  predicate Fits(s: Settings, fs: seq<Affine>, cs: seq<seq<Constraint>>)
  {
    2 <= |fs| <= |s.lengths| + 1 && |cs| == |fs|
  }

  // ---------------------------------------------------------------- backward

  /** Frame `k` once the backward loop has passed it: frame 0 is pinned to the
      target, and each later frame takes the linear part of the one before it
      and sits one segment length from it, toward its own old position. */
  function Reached(ops: Ops, s: Settings, fs: seq<Affine>, k: nat): Affine
    requires k < |fs| <= |s.lengths| + 1
    decreases k
  {
    if k == 0 then Affine(fs[0].matrix3, s.target)
    else
      var prev := Reached(ops, s, fs, k - 1);
      var direction := ops.normalize(ops.sub(fs[k].translation, prev.translation));
      Affine(prev.matrix3, ops.add(prev.translation, ops.scale(direction, s.lengths[k - 1])))
  }

  /** The frames after `backward_pass`: every frame reached, then the root
      translation put back. */
  function AfterBackward(ops: Ops, s: Settings, fs: seq<Affine>): (r: seq<Affine>)
    requires 1 <= |fs| <= |s.lengths| + 1
    ensures |r| == |fs|
  {
    seq(|fs|, k requires 0 <= k < |fs| =>
      var f := Reached(ops, s, fs, k);
      if k == |fs| - 1 then Affine(f.matrix3, fs[k].translation) else f)
  }

  /** The state of the backward loop at the head of iteration `i`: the
      joints below `i` are reached and the others untouched. */
  ghost predicate BackwardProgress(ops: Ops, s: Settings, fs: seq<Affine>, i: nat, r: seq<Affine>)
  {
    && 1 <= i <= |fs| <= |s.lengths| + 1 && |r| == |fs|
    && (forall k :: 0 <= k < i ==> r[k] == Reached(ops, s, fs, k))
    && (forall k :: i <= k < |fs| ==> r[k] == fs[k])
  }

  /** Pinning the end effector to the target starts the loop. */
  lemma BackwardProgressStart(ops: Ops, s: Settings, fs: seq<Affine>)
    requires 1 <= |fs| <= |s.lengths| + 1
    ensures BackwardProgress(ops, s, fs, 1, fs[0 := Affine(fs[0].matrix3, s.target)])
  {
  }

  /** The loop body keeps `BackwardProgress`, one joint further up. */
  lemma BackwardProgressStep(ops: Ops, s: Settings, fs: seq<Affine>, i: nat, r: seq<Affine>)
    requires BackwardProgress(ops, s, fs, i, r) && i < |fs|
    ensures var prev := r[i - 1];
      var direction := ops.normalize(ops.sub(r[i].translation, prev.translation));
      BackwardProgress(ops, s, fs, i + 1,
        r[i := Affine(prev.matrix3, ops.add(prev.translation, ops.scale(direction, s.lengths[i - 1])))])
  {
  }

  /** Once every joint is reached, putting the root's translation back
      completes the pass. */
  lemma BackwardProgressDone(ops: Ops, s: Settings, fs: seq<Affine>, r: seq<Affine>)
    requires BackwardProgress(ops, s, fs, |fs|, r)
    ensures var last := |fs| - 1;
      r[last := Affine(r[last].matrix3, fs[last].translation)] == AfterBackward(ops, s, fs)
  {
  }

  /** Every reached frame carries the end effector's original linear part. */
  lemma {:induction false} ReachedKeepsLinear(ops: Ops, s: Settings, fs: seq<Affine>, k: nat)
    requires k < |fs| <= |s.lengths| + 1
    ensures Reached(ops, s, fs, k).matrix3 == fs[0].matrix3
    decreases k
  {
    if k > 0 {
      ReachedKeepsLinear(ops, s, fs, k - 1);
    }
  }

  /** `backward_pass` pins the end effector to the target without turning it
      and leaves the root where it was. */
  lemma BackwardEnds(ops: Ops, s: Settings, fs: seq<Affine>)
    requires 2 <= |fs| <= |s.lengths| + 1
    ensures AfterBackward(ops, s, fs)[0] == Affine(fs[0].matrix3, s.target)
    ensures AfterBackward(ops, s, fs)[|fs| - 1].translation == fs[|fs| - 1].translation
  {
  }

  /** `backward_pass` copies the end effector's linear part into every frame,
      the root's included. */
  lemma BackwardCopiesLinear(ops: Ops, s: Settings, fs: seq<Affine>)
    requires 1 <= |fs| <= |s.lengths| + 1
    ensures forall k :: 0 <= k < |fs| ==> AfterBackward(ops, s, fs)[k].matrix3 == fs[0].matrix3
  {
    forall k | 0 <= k < |fs|
      ensures AfterBackward(ops, s, fs)[k].matrix3 == fs[0].matrix3
    {
      ReachedKeepsLinear(ops, s, fs, k);
    }
  }

  // ---------------------------------------------------------------- forward

  /** Joint `k` (not the end effector, not the root), sitting at `placed`,
      turned by the constrained rotation so that it points at the old position
      of joint `k - 1`. */
  function Turned(ops: Ops, s: Settings, fs: seq<Affine>, cs: seq<seq<Constraint>>, k: nat, placed: Affine): Affine
    requires 1 <= k < |fs| && |cs| == |fs|
  {
    var direction := ops.normalize(ops.sub(fs[k - 1].translation, placed.translation));
    ConstrainedRotation(ops, direction, s.rootNormal, placed, cs[k])
  }

  /** Frame `k` (`k <= |fs| - 2`) once the forward loop has positioned it,
      before it is turned: joint `|fs| - 2` is re-anchored one segment from
      the root along the root normal; each lower joint sits one segment from
      the joint above it, along that joint's final up axis, and keeps its own
      linear part. */
  function Placed(ops: Ops, s: Settings, fs: seq<Affine>, cs: seq<seq<Constraint>>, k: nat): Affine
    requires Fits(s, fs, cs) && k <= |fs| - 2
    decreases |fs| - k, 0
  {
    var rootEnd := |fs| - 2;
    if k == rootEnd then
      Affine(fs[rootEnd].matrix3, ops.add(fs[|fs| - 1].translation, ops.scale(s.rootNormal, s.lengths[rootEnd])))
    else
      var above := Forwarded(ops, s, fs, cs, k + 1);
      Affine(fs[k].matrix3, ops.add(above.translation, ops.scale(ops.up(above), s.lengths[k + 1])))
  }

  /** Frame `k` after `forward_pass`: the root as it was, the end effector
      placed, every joint between placed and then turned. */
  function Forwarded(ops: Ops, s: Settings, fs: seq<Affine>, cs: seq<seq<Constraint>>, k: nat): Affine
    requires Fits(s, fs, cs) && k < |fs|
    decreases |fs| - k, 1
  {
    if k == |fs| - 1 then fs[k]
    else if k == 0 then Placed(ops, s, fs, cs, 0)
    else Turned(ops, s, fs, cs, k, Placed(ops, s, fs, cs, k))
  }

  /** The frames after `forward_pass`. */
  function AfterForward(ops: Ops, s: Settings, fs: seq<Affine>, cs: seq<seq<Constraint>>): (r: seq<Affine>)
    requires Fits(s, fs, cs)
    ensures |r| == |fs|
  {
    seq(|fs|, k requires 0 <= k < |fs| => Forwarded(ops, s, fs, cs, k))
  }

  /** `forward_pass` never touches the root and never turns the end effector. */
  lemma ForwardEnds(ops: Ops, s: Settings, fs: seq<Affine>, cs: seq<seq<Constraint>>)
    requires Fits(s, fs, cs)
    ensures AfterForward(ops, s, fs, cs)[|fs| - 1] == fs[|fs| - 1]
    ensures AfterForward(ops, s, fs, cs)[0].matrix3 == fs[0].matrix3
  {
    assert Forwarded(ops, s, fs, cs, 0) == Placed(ops, s, fs, cs, 0);
  }

  /** The state of the forward loop at the head of iteration `i`: joint `i`
      is placed, the joints above it are final and those below are untouched. */
  ghost predicate ForwardProgress(ops: Ops, s: Settings, fs: seq<Affine>, cs: seq<seq<Constraint>>, i: nat, r: seq<Affine>)
  {
    && Fits(s, fs, cs) && |r| == |fs| && i <= |fs| - 2
    && r[i] == Placed(ops, s, fs, cs, i)
    && (forall k :: i < k < |fs| ==> r[k] == Forwarded(ops, s, fs, cs, k))
    && (forall k :: 0 <= k < i ==> r[k] == fs[k])
  }

  /** Placing the root's child from the root, along the root normal, starts the loop. */
  lemma ForwardProgressStart(ops: Ops, s: Settings, fs: seq<Affine>, cs: seq<seq<Constraint>>)
    requires Fits(s, fs, cs)
    ensures var top := |fs| - 2;
      ForwardProgress(ops, s, fs, cs, top,
        fs[top := Affine(fs[top].matrix3, ops.add(fs[top + 1].translation, ops.scale(s.rootNormal, s.lengths[top])))])
  {
  }

  /** One iteration of the forward loop, at `i`: joint `i + 1`, placed, is
      turned toward the old position of joint `i` and is then final; joint `i`
      is placed from it. */
  lemma ForwardStep(ops: Ops, s: Settings, fs: seq<Affine>, cs: seq<seq<Constraint>>, i: nat, j: nat, placed: Affine)
    requires Fits(s, fs, cs) && j == i + 1 && j < |fs| - 1
    requires placed == Placed(ops, s, fs, cs, j)
    ensures var turned := ConstrainedRotation(ops, ops.normalize(ops.sub(fs[i].translation, placed.translation)), s.rootNormal, placed, cs[j]);
      && turned == Forwarded(ops, s, fs, cs, j)
      && Affine(fs[i].matrix3, ops.add(turned.translation, ops.scale(ops.up(turned), s.lengths[j]))) == Placed(ops, s, fs, cs, i)
  {
  }

  /** The loop body keeps `ForwardProgress`, one joint further down. */
  lemma ForwardProgressStep(ops: Ops, s: Settings, fs: seq<Affine>, cs: seq<seq<Constraint>>, i: nat, j: nat, r: seq<Affine>)
    requires j == i + 1 && ForwardProgress(ops, s, fs, cs, j, r)
    ensures var turned := ConstrainedRotation(ops, ops.normalize(ops.sub(r[i].translation, r[j].translation)), s.rootNormal, r[j], cs[j]);
      ForwardProgress(ops, s, fs, cs, i,
        r[j := turned][i := Affine(r[i].matrix3, ops.add(turned.translation, ops.scale(ops.up(turned), s.lengths[j])))])
  {
    ForwardStep(ops, s, fs, cs, i, j, r[j]);
  }

  /** When the loop has placed joint 0 it has computed the pass's result. */
  lemma ForwardProgressDone(ops: Ops, s: Settings, fs: seq<Affine>, cs: seq<seq<Constraint>>, r: seq<Affine>)
    requires ForwardProgress(ops, s, fs, cs, 0, r)
    ensures r == AfterForward(ops, s, fs, cs)
  {
    assert Forwarded(ops, s, fs, cs, 0) == Placed(ops, s, fs, cs, 0);
  }

  /** A joint below the top one is placed from the final frame of the joint above it. */
  lemma PlacedBelow(ops: Ops, s: Settings, fs: seq<Affine>, cs: seq<seq<Constraint>>, k: nat)
    requires Fits(s, fs, cs) && k < |fs| - 2
    ensures var above := Forwarded(ops, s, fs, cs, k + 1);
      Placed(ops, s, fs, cs, k).translation == ops.add(above.translation, ops.scale(ops.up(above), s.lengths[k + 1]))
  {
  }

  /** The end effector is placed but never turned: after the pass it has its
      own linear part and sits one segment (`lengths[1]`) along the up axis of
      the final frame of joint 1, or, on a two-joint chain, one segment along
      the root normal from the root. No property of the opaque operations is needed. */
  lemma ForwardEffector(ops: Ops, s: Settings, fs: seq<Affine>, cs: seq<seq<Constraint>>)
    requires Fits(s, fs, cs)
    ensures var r := AfterForward(ops, s, fs, cs);
      |fs| > 2 ==> r[0] == Affine(fs[0].matrix3, ops.add(r[1].translation, ops.scale(ops.up(r[1]), s.lengths[1])))
    ensures var r := AfterForward(ops, s, fs, cs);
      |fs| == 2 ==> r[0] == Affine(fs[0].matrix3, ops.add(fs[1].translation, ops.scale(s.rootNormal, s.lengths[0])))
  {
    assert Forwarded(ops, s, fs, cs, 0) == Placed(ops, s, fs, cs, 0);
  }

  /** Turning a joint leaves it where it was placed. */
  lemma ForwardedAtPlace(ops: Ops, s: Settings, fs: seq<Affine>, cs: seq<seq<Constraint>>, k: nat)
    requires Fits(s, fs, cs) && PreservesTranslation(ops) && k <= |fs| - 2
    ensures Forwarded(ops, s, fs, cs, k).translation == Placed(ops, s, fs, cs, k).translation
  {
    if k > 0 {
      var p := Placed(ops, s, fs, cs, k);
      var direction := ops.normalize(ops.sub(fs[k - 1].translation, p.translation));
      ConstrainedRotationKeepsTranslation(ops, direction, s.rootNormal, p, cs[k]);
    }
  }

  /** A joint below the top one ends, once turned, where it was placed from
      the final frame of the joint above it. */
  lemma ForwardedLink(ops: Ops, s: Settings, fs: seq<Affine>, cs: seq<seq<Constraint>>, k: nat)
    requires Fits(s, fs, cs) && PreservesTranslation(ops) && k < |fs| - 2
    ensures Forwarded(ops, s, fs, cs, k).translation
         == ops.add(Forwarded(ops, s, fs, cs, k + 1).translation,
                    ops.scale(ops.up(Forwarded(ops, s, fs, cs, k + 1)), s.lengths[k + 1]))
  {
    ForwardedAtPlace(ops, s, fs, cs, k);
    PlacedBelow(ops, s, fs, cs, k);
  }

  /** The joint below the root is re-anchored one segment from the root along
      the root normal. */
  lemma ForwardTop(ops: Ops, s: Settings, fs: seq<Affine>, cs: seq<seq<Constraint>>)
    requires Fits(s, fs, cs) && PreservesTranslation(ops)
    ensures Forwarded(ops, s, fs, cs, |fs| - 2).translation
         == ops.add(fs[|fs| - 1].translation, ops.scale(s.rootNormal, s.lengths[|fs| - 2]))
  {
    var top := |fs| - 2;
    ForwardedAtPlace(ops, s, fs, cs, top);
  }

  /** `forward_pass` puts joint `|fs| - 2` one segment from the root along the
      root normal, and rebuilds the chain link by link down to the end
      effector: joint `k` ends `lengths[k + 1]` from joint `k + 1` along the up
      axis of joint `k + 1`'s final frame. */
  lemma ForwardShape(ops: Ops, s: Settings, fs: seq<Affine>, cs: seq<seq<Constraint>>)
    requires Fits(s, fs, cs) && PreservesTranslation(ops)
    ensures Forwarded(ops, s, fs, cs, |fs| - 2).translation
         == ops.add(fs[|fs| - 1].translation, ops.scale(s.rootNormal, s.lengths[|fs| - 2]))
    ensures forall k :: 0 <= k < |fs| - 2 ==>
      Forwarded(ops, s, fs, cs, k).translation
      == ops.add(Forwarded(ops, s, fs, cs, k + 1).translation,
                 ops.scale(ops.up(Forwarded(ops, s, fs, cs, k + 1)), s.lengths[k + 1]))
  {
    ForwardTop(ops, s, fs, cs);
    forall k | 0 <= k < |fs| - 2
      ensures Forwarded(ops, s, fs, cs, k).translation
           == ops.add(Forwarded(ops, s, fs, cs, k + 1).translation,
                      ops.scale(ops.up(Forwarded(ops, s, fs, cs, k + 1)), s.lengths[k + 1]))
    {
      ForwardedLink(ops, s, fs, cs, k);
    }
  }

  // ---------------------------------------------------------------- iteration

  /** The loop's test: the end effector is within the squared-distance threshold. */
  predicate NearTarget(ops: Ops, s: Settings, fs: seq<Affine>)
    requires |fs| >= 1
  {
    ops.distanceSquared(s.target, fs[0].translation) < s.threshold
  }

  /** The frames after the iteration loop of `solve` with `budget` iterations
      left: stop when the budget is spent or the end effector is near the
      target, otherwise run a backward and a forward pass and go again. */
  function Iterate(ops: Ops, s: Settings, fs: seq<Affine>, cs: seq<seq<Constraint>>, budget: nat): (r: seq<Affine>)
    requires Fits(s, fs, cs)
    ensures |r| == |fs|
    decreases budget
  {
    if budget == 0 || NearTarget(ops, s, fs) then fs
    else Iterate(ops, s, AfterForward(ops, s, AfterBackward(ops, s, fs), cs), cs, budget - 1)
  }

  /** How many backward+forward passes the iteration loop runs. */
  function Passes(ops: Ops, s: Settings, fs: seq<Affine>, cs: seq<seq<Constraint>>, budget: nat): nat
    requires Fits(s, fs, cs)
    decreases budget
  {
    if budget == 0 || NearTarget(ops, s, fs) then 0
    else 1 + Passes(ops, s, AfterForward(ops, s, AfterBackward(ops, s, fs), cs), cs, budget - 1)
  }

  /** The loop runs at most `budget` passes, none at all when the end effector
      starts near the target (and then the frames are untouched), and stops
      before the budget only once the end effector is near the target. */
  lemma {:induction false} IterateTermination(ops: Ops, s: Settings, fs: seq<Affine>, cs: seq<seq<Constraint>>, budget: nat)
    requires Fits(s, fs, cs)
    ensures Passes(ops, s, fs, cs, budget) <= budget
    ensures NearTarget(ops, s, fs) ==> Passes(ops, s, fs, cs, budget) == 0 && Iterate(ops, s, fs, cs, budget) == fs
    ensures Passes(ops, s, fs, cs, budget) < budget ==> NearTarget(ops, s, Iterate(ops, s, fs, cs, budget))
    decreases budget
  {
    if budget > 0 && !NearTarget(ops, s, fs) {
      IterateTermination(ops, s, AfterForward(ops, s, AfterBackward(ops, s, fs), cs), cs, budget - 1);
    }
  }

  /** Whatever the number of passes, the root keeps its translation and the
      end effector keeps its linear part. */
  lemma {:induction false} IterateInvariants(ops: Ops, s: Settings, fs: seq<Affine>, cs: seq<seq<Constraint>>, budget: nat)
    requires Fits(s, fs, cs)
    ensures Iterate(ops, s, fs, cs, budget)[|fs| - 1].translation == fs[|fs| - 1].translation
    ensures Iterate(ops, s, fs, cs, budget)[0].matrix3 == fs[0].matrix3
    decreases budget
  {
    if budget > 0 && !NearTarget(ops, s, fs) {
      var b := AfterBackward(ops, s, fs);
      BackwardEnds(ops, s, fs);
      ForwardEnds(ops, s, b, cs);
      IterateInvariants(ops, s, AfterForward(ops, s, b, cs), cs, budget - 1);
    }
  }
}
