/** The host scene graph as the solver sees it: entities, each with an
    optional `Parent`, an optional local `Transform`, an optional
    `GlobalTransform`, and optional `SwingConstraint`/`TwistConstraint`
    components. A missing entity is a key absent from the map. */
module Scene {
  import opened Wrappers
  import opened Geometry

  type Entity = nat

  datatype Node = Node(
    parent: Option<Entity>,
    local: Option<Transform>,
    global: Option<Affine>,
    swingLimit: Option<real>,
    twistLimit: Option<real>
  )

  /** `Parent` of an entity; none for a missing entity. */
  function ParentOf(nodes: map<Entity, Node>, e: Entity): Option<Entity>
  {
    if e in nodes then nodes[e].parent else None
  }

  /** The entity has a `GlobalTransform`. */
  predicate HasGlobal(nodes: map<Entity, Node>, e: Entity)
  {
    e in nodes && nodes[e].global.Some?
  }

  /** The entity has a local `Transform`. */
  predicate HasPose(nodes: map<Entity, Node>, e: Entity)
  {
    e in nodes && nodes[e].local.Some?
  }

  /** The entity matches the solver's transform query (local and global transform). */
  predicate HasJointComponents(nodes: map<Entity, Node>, e: Entity)
  {
    HasPose(nodes, e) && HasGlobal(nodes, e)
  }

  /** World position of an entity. */
  function Position(nodes: map<Entity, Node>, e: Entity): Vec3
    requires HasGlobal(nodes, e)
  {
    nodes[e].global.value.translation
  }

  /** The entity reached from `e` by following `k` parent links, if every link exists. */
  function Ancestor(nodes: map<Entity, Node>, e: Entity, k: nat): Option<Entity>
    decreases k
  {
    if k == 0 then Some(e)
    else match ParentOf(nodes, e)
      case None => None
      case Some(p) => Ancestor(nodes, p, k - 1)
  }

  /** The `k`-th ancestor of `e` exists and has a world transform. */
  predicate AncestorHasGlobal(nodes: map<Entity, Node>, e: Entity, k: nat)
  {
    Ancestor(nodes, e, k).Some? && HasGlobal(nodes, Ancestor(nodes, e, k).value)
  }

  /** The `k`-th ancestor of `e` exists and matches the solver's transform query. */
  predicate AncestorIsJoint(nodes: map<Entity, Node>, e: Entity, k: nat)
  {
    Ancestor(nodes, e, k).Some? && HasJointComponents(nodes, Ancestor(nodes, e, k).value)
  }

  /** Writing `transform.translation` and `transform.rotation` of one entity;
      its scale and every other component stay. */
  function WithPose(nodes: map<Entity, Node>, e: Entity, translation: Vec3, rotation: Quat): map<Entity, Node>
    requires HasPose(nodes, e)
  {
    var n := nodes[e];
    nodes[e := n.(local := Some(n.local.value.(translation := translation, rotation := rotation)))]
  }

  /** The two nodes agree on everything the solver does not write. */
  predicate SameStructure(a: Node, b: Node)
  {
    && a.parent == b.parent
    && a.global == b.global
    && a.swingLimit == b.swingLimit
    && a.twistLimit == b.twistLimit
    && a.local.Some? == b.local.Some?
    && (a.local.Some? ==> a.local.value.scale == b.local.value.scale)
  }

  /** The scene graph, whose local transforms the solver writes in place. */
  class World {
    var nodes: map<Entity, Node>

    constructor (nodes: map<Entity, Node>)
      ensures this.nodes == nodes
    {
      this.nodes := nodes;
    }

    /** Write the translation and rotation of one entity's local transform
        through a mutable query result. */
    method SetPose(e: Entity, translation: Vec3, rotation: Quat)
      requires HasPose(nodes, e)
      modifies this
      ensures nodes == WithPose(old(nodes), e, translation, rotation)
      ensures nodes.Keys == old(nodes).Keys
      ensures SameStructure(nodes[e], old(nodes)[e])
      ensures nodes[e].local.value.translation == translation && nodes[e].local.value.rotation == rotation
      ensures forall x :: x in nodes && x != e ==> nodes[x] == old(nodes)[x]
    {
      var n := nodes[e];
      nodes := nodes[e := n.(local := Some(n.local.value.(translation := translation, rotation := rotation)))];
    }
  }
}
