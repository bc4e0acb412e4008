# bevy_fabrik: a Dafny model of the FABRIK chain solver

bevy_fabrik solves inverse kinematics for chains of entities in a Bevy scene
with FABRIK (Forward And Backward Reaching Inverse Kinematics). An `IkChain`
component sits on the end entity of a chain. The chain has `jointCount` joints, and
each joint is the parent of the one before it. When the component is inserted, a hook
walks up the hierarchy and records one segment length per link. It also records the
direction of the root segment as the root normal. Each frame, `solve` does the following:

1. It returns early when the chain is
   disabled or the end effector is already within the squared-distance
   threshold of the target.
2. Otherwise it gathers the `jointCount` world
   frames (index 0 is the end effector, the last index the root), together with each
   joint's optional swing and twist constraints.
3. It runs at most
   `maxIterations` rounds of a backward pass followed by a forward pass, stopping as
   soon as the end effector is within the threshold.
4. It writes the
   solved frames back: every joint but the root gets its frame relative to its parent's frame.

The project has six modules:

- `Geometry` (geometry.dfy) holds vectors, quaternions and affine frames, plus the
  record `Ops` of opaque glam and Bevy operations: `normalize`, `distance_squared`,
  `from_rotation_arc`, `decompose`, `constrain`, `reparented_to`, `up`,
  `compute_transform`, and so on. Every lemma holds for every choice of these
  operations. Where a proof depends on a property of them, the property is an
  explicit hypothesis (`PreservesTranslation`: the two transform conversions copy
  the translation).
- `Scene` (scene.dfy) is the entity map: parent, local `Transform`,
  `GlobalTransform`, and optional constraint components. It also holds the `World`
  class, whose `SetPose` writes one local translation and rotation in place.
- `Constraints` (constraint.dfy) holds swing and twist constraints, their fold over
  the (swing, twist) pair, and `rotate_and_constrain`.
- `Fabrik` (fabrik.dfy) specifies the two passes and the iteration as functions on
  sequences of frames. It proves what each pass fixes exactly: the end effector is
  pinned to the target, the root translation is restored, the linear parts are
  copied, the root is untouched by the forward pass, and each joint is placed one
  segment from the joint above it.
- `Chain` (chain.dfy) holds the `IkChain` class: its constructor, the insertion hook,
  the gathering loop, both passes working in place on an `array` of frames, the
  iteration loop, the write-back loop and `solve`. Each method is proved equal to a
  specification function, and the lemmas about those functions state what `solve`
  promises.
- `Wrappers` (wrappers.dfy) holds `Option`.

The constants `DEFAULT_TARGET_SQ_THRESHOLD = 0.001` and
`DEFAULT_MAX_ITTERATIONS = 10` (src/chain.rs:17-18) are `Chain.DefaultThreshold`
and `Chain.DefaultMaxIterations`.

Three facts about the code that the model reproduces:

- The forward pass places joint `i` along `GlobalTransform::up()` of the turned
  frame of joint `i + 1`, that is along that frame's own +Y axis
  (src/chain.rs:175). This is the opaque `ops.up`.
- While gathering, a joint below the root that has no parent makes
  `parent.unwrap()` panic (src/chain.rs:100). The root's parent is never read
  (src/chain.rs:99), so a root at the top of the hierarchy solves normally. A
  joint the lens query does not match makes `solve` return its error instead
  (src/chain.rs:89). The model gives these as the outcomes `ParentUnwrapPanic`
  and `QueryEntityError` (`Chain.SolveGatherFails`).
- After the backward pass each frame has the linear part of the one before it.
  The root's linear part is therefore the end effector's original one, not the
  root's own (src/chain.rs:142, 148-151).

## Model

| member | source | states |
|---|---|---|
| Chain.IkChain.constructor | src/chain.rs:50-60 | `new(n)` is enabled, targets the origin, has threshold 0.001, an iteration budget of 10, no segment lengths, +Y as root normal and `n` joints |
| Chain.IkChain.InsertHook | src/chain.rs:181-229 | the hook's loop leaves exactly the lengths and root normal of `Measure` (normalised, +Y as fallback) and changes no other field; a panic (too few joints, missing parent or world transform) changes nothing; success leaves at least two joints and one length per segment |
| Chain.MeasureSucceeds | src/chain.rs:186-222 | the walk succeeds exactly when `jointCount >= 2` and the end entity and its `jointCount - 1` ancestors all have a world transform; it reports too few joints exactly when `jointCount < 2` |
| Chain.MeasureLengths | src/chain.rs:193-228 | on success there are `jointCount - 1` lengths, length `k` is that of the `k`-th ancestor's world position minus the `k + 1`-th's (tail first), and the normal is the root segment's vector |
| Chain.MeasureFromSucceeds | src/chain.rs:197-222 | from any point of the walk, it completes exactly when the remaining ancestors all exist with a world transform, and it never reports too few joints |
| Chain.MeasureFromLengths | src/chain.rs:197-222 | from any point of the walk, the lengths already pushed are kept and one length per remaining step is appended, each the length of that segment |
| Chain.ConstraintsOf | src/chain.rs:91-94 | a joint's constraint list holds its swing limit if present, then its twist limit if present, and nothing else |
| Chain.GatherFromSucceeds | src/chain.rs:83-102 | the gathering walk collects exactly when the joint and its next ancestors all match the query; when it aborts, the outcome is an error, never `Ok` |
| Chain.GatherFromAborts | src/chain.rs:83-102 | at the first remaining joint that does not match the query, the walk aborts with `ParentUnwrapPanic` of its child when that joint does not exist (its child is below the root and has no parent), and with `QueryEntityError` of that joint otherwise |
| Chain.GatherFromCollects | src/chain.rs:83-102 | a collected buffer has one entry per joint: entry `k` is the `k`-th ancestor, with its world transform and its constraints |
| Chain.GatherSpec | src/chain.rs:83-102 | the chain gathers exactly when all `jointCount` joints match the query, aborting with an error otherwise; frames, constraints and entities then have `jointCount` entries, entry 0 being the end entity |
| Chain.GatheredWritable | src/chain.rs:84-101 | the gathered entities all have a local transform, and each is the parent of the one before it |
| Chain.IkChain.GatherJoints | src/chain.rs:80-102 | the gathering loop, pushing into three buffers and following parents, returns exactly `Gather` |
| Chain.WriteBackKeepsStructure | src/chain.rs:114-122 | the write-back changes no entity set, parent, world transform, constraint or scale |
| Chain.WriteBackOutside | src/chain.rs:114-122 | an entity that is not among the written joints, the root in particular, is left exactly as it was |
| Chain.WriteBackPoses | src/chain.rs:114-122 | with distinct joints, joint `j` below the root ends with the translation and rotation of frame `j` reparented to frame `j + 1` |
| Chain.IkChain.WriteBackJoints | src/chain.rs:114-122 | the write-back loop, following parents and writing through `SetPose`, leaves exactly the scene of `WriteBack` |
| Scene.World.SetPose | src/chain.rs:115-120 | writing through the mutable query changes only the local translation and rotation of that one entity |
| Fabrik.ReachedKeepsLinear | src/chain.rs:138-145 | every frame the backward loop reaches carries the end effector's original linear part |
| Fabrik.BackwardEnds | src/chain.rs:131-151 | after the backward pass the end effector is exactly at the target with its own linear part, and the root has its old translation |
| Fabrik.BackwardCopiesLinear | src/chain.rs:131-151 | after the backward pass every frame, the root included, has the end effector's original linear part |
| Chain.IkChain.BackwardPass | src/chain.rs:127-152 | the in-place loop over the frame array leaves exactly `AfterBackward` of the old frames |
| Fabrik.ForwardEnds | src/chain.rs:158-177 | the forward pass leaves the root frame unchanged and keeps the end effector's linear part |
| Fabrik.ForwardTop | src/chain.rs:158-163 | when turning keeps translations, the root's child ends at the root's translation plus the root normal times its segment length |
| Fabrik.ForwardedAtPlace | src/chain.rs:169-171 | when the conversions copy translations, turning a joint by `rotate_and_constrain` leaves it where it was placed |
| Fabrik.ForwardEffector | src/chain.rs:160-177 | the end effector is placed but never turned: after the pass it keeps its own linear part and sits `lengths[1]` along the up axis of joint 1's final frame, or, with two joints, `lengths[0]` along the root normal from the root; no property of the opaque operations is assumed |
| Fabrik.ForwardedLink | src/chain.rs:165-177 | when turning keeps translations, every joint below the root's child ends one segment (length `k + 1`) along the up axis of the final frame above it |
| Fabrik.ForwardShape | src/chain.rs:158-177 | the whole shape the forward pass leaves: the root's child is set from the root normal, and every lower joint from the frame above it |
| Chain.IkChain.ForwardPass | src/chain.rs:154-178 | the in-place loop, downward through the frame array, leaves exactly `AfterForward` of the old frames |
| Constraints.Constraint.Apply | src/constraint.rs:16-18 | a swing constraint returns the twist it was given, and a twist constraint returns the swing it was given (also src/constraint.rs:31-33) |
| Constraints.Constraint.GetAngle | src/constraint.rs:20-23 | the angle returned is the one the constraint was built with, for a swing constraint as for a twist constraint (also src/constraint.rs:35-38) |
| Constraints.ApplyAll | src/constraint.rs:52-54 | the fold over the list leaves the swing as it was when the list holds only twist constraints, and the twist as it was when it holds only swing constraints |
| Constraints.ApplyTouchesOwnComponent | src/constraint.rs:15-38 | a swing constraint limits the swing by its own angle and returns the twist untouched; a twist constraint does the converse |
| Constraints.ApplyAllSeparates | src/constraint.rs:52-54 | the fold limits the swing by the swing constraints alone, in list order, and the twist by the twist constraints alone |
| Constraints.ApplyAllAppend | src/constraint.rs:52-54 | folding a concatenated list folds the first part, then the second |
| Constraints.ReorderingKeepsResult | src/constraint.rs:16-33 | lists with the same swing angles and the same twist angles, each in the same order, constrain alike however they are interleaved |
| Constraints.RotateAndConstrain | src/constraint.rs:41-58 | the loop that reassigns `swing` and `twist` computes `ConstrainedRotation`: rotation R · swing · twist, the constraints folded in list order |
| Constraints.ConstrainedRotationKeepsTranslation | src/constraint.rs:47-57 | when the conversions copy translations, the constrained frame keeps the input's translation |
| Fabrik.Iterate | src/chain.rs:104-112 | the iterated passes keep one frame per joint |
| Fabrik.IterateTermination | src/chain.rs:104-112 | at most the budget of passes runs, none when the end effector starts near the target (the frames are then untouched), and fewer only when it ends near the target |
| Fabrik.IterateInvariants | src/chain.rs:104-112 | however many passes run, the root translation and the end effector's linear part are those of the gathered frames |
| Chain.IkChain.IteratePasses | src/chain.rs:104-112 | the iteration loop with its early `break` leaves exactly `Iterate` of the gathered frames |
| Chain.SolveSpec | src/chain.rs:62-125 | a call that returns before solving leaves the scene unchanged |
| Chain.SolveEarlyExit | src/chain.rs:68-70 | a disabled chain, or an end effector already within the threshold, returns `Ok` and writes nothing; the query error when the end entity has no local transform |
| Chain.SolveOutcomes | src/chain.rs:68-102 | `Ok` exactly when disabled, or the end entity matches the query and either starts near the target or its whole chain matches; a non-joint end entity is the query error; the passes run exactly when enabled, not near and the whole chain matches |
| Chain.SolveGatherFails | src/chain.rs:83-102 | when the chain does not gather, `solve` ends at the first joint `k` that does not match: with the unwrap panic of joint `k - 1` when the `k`-th ancestor is missing, and with the query error of that ancestor otherwise; it writes nothing and returns no frames |
| Chain.SolveWritesOnlyPoses | src/chain.rs:114-122 | `solve` changes only local translations and rotations, and a call that does not return `Ok` changes nothing |
| Chain.SolveFrames | src/chain.rs:104-122 | when `solve` solves, it has one frame per joint, the root keeps its world position and the end effector the linear part of its world transform |
| Chain.SolveStops | src/chain.rs:104-112 | when `solve` solves, either the end effector ends within the threshold or the whole iteration budget was spent |
| Chain.SolveLeavesOthers | src/chain.rs:114-122 | every entity that is not a joint below the root, the root included when it occurs only as the root, is left exactly as it was |
| Chain.SolvePoses | src/chain.rs:114-122 | on a chain of distinct entities, joint `k` below the root ends with the translation and rotation of solved frame `k` relative to solved frame `k + 1` |
| Chain.IkChain.Solve | src/chain.rs:62-125 | `solve`, with its early exits, the gathering, the in-place passes on the frame array and the write-back through the scene, returns the outcome and leaves the scene of `SolveSpec` |

## Left out

- src/util.rs (`decompose`, `constrain`) and the glam/Bevy operations (`normalize`,
  `normalize_or`, `distance_squared`, `from_rotation_arc`, `reparented_to`,
  `compute_transform`, `up`, the `Affine3A` conversions) are fields of `Ops` with no
  properties. Their f32 trigonometry holds only up to rounding, so segment-length
  preservation, convergence and angle bounds are not claimed.
- f32 arithmetic. Lengths, thresholds and squared distances are unbounded reals
  here, and the threshold comparison is the code's strict `<` on them.
- src/lib.rs: system registration, scheduling, the loop over all chains, and the
  `warn!` logging of `solve`'s error. The host loop only calls `solve` once per chain.
- The demo program (basic.rs): scene spawning, rendering and the moving target.
- Bevy's `Query`, `QueryLens` and `DeferredWorld` mechanics. The scene is a map from
  entity to components, and a failed lookup is an outcome value. The `get_mut(current)?`
  of the write-back is not modelled as a failure, because the entities it visits
  matched the same query while gathering and only their local transforms change in
  between.
- Panics are outcome values (`HookPanic`, `ParentUnwrapPanic`), not a process abort.
  The hook's final `get_mut::<IkChain>` panic is not modelled, because the hook's own
  component is always present.
- Chain.IkChain.Solve: requires the state the insertion hook leaves (`Ready`: at least
  two joints, one length per segment), because `solve` is only reached after the
  hook has run without panicking.
- Chain.IkChain.BackwardPass: the passes act on the frame half of the joint buffer
  only. The constraint half is passed separately and never changes, as in the source.
- Chain.SolvePoses: stated only for chains whose joints are distinct entities. A bare
  map allows parent cycles that Bevy's hierarchy rules out.
- Chain.WriteBackPoses: stated only for distinct joint entities, for the same
  reason as `Chain.SolvePoses`.
- Fabrik.ForwardedAtPlace: assumes that the transform conversions copy the
  translation (`PreservesTranslation`), which is what keeps a turned joint in place.
- Fabrik.ForwardTop: the placement facts about translations assume that the
  transform conversions copy the translation (`PreservesTranslation`), and so do
  `ForwardedLink` and `ForwardShape`. Without that assumption, `ForwardEffector`
  states the placement of the end effector in the pass's result.
