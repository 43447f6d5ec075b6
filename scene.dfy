/** The parts of the engine's scene that the gameplay scripts touch: vectors, axis-aligned
    boxes, named sub-nodes with an opaque local rotation, rigid bodies and spawned blocks.
    Positions and sizes are `real`; rotations of sub-nodes are carried, never computed on. */
module Scene {

  datatype Option<T> = None | Some(value: T)

  datatype Vec3 = Vec3(x: real, y: real, z: real)

  function Add(a: Vec3, b: Vec3): Vec3 { Vec3(a.x + b.x, a.y + b.y, a.z + b.z) }

  function Sub(a: Vec3, b: Vec3): Vec3 { Vec3(a.x - b.x, a.y - b.y, a.z - b.z) }

  function Scale(a: Vec3, k: real): Vec3 { Vec3(a.x * k, a.y * k, a.z * k) }

  function Min(a: real, b: real): real { if a <= b then a else b }

  function Max(a: real, b: real): real { if a >= b then a else b }

  /** A quaternion. The model copies rotations between nodes but never composes them. */
  datatype Rotation = Rotation(x: real, y: real, z: real, w: real)

  /** One node of a block's hierarchy, as enumerated root first: its name and local rotation. */
  datatype Bone = Bone(name: string, localRotation: Rotation)

  const Identity := Rotation(0.0, 0.0, 0.0, 1.0)

  /** The nodes of an object's hierarchy, root first; the root node is the object itself and
      carries the object's name. */
  type Hierarchy = s: seq<Bone> | |s| > 0 witness [Bone("", Identity)]

  /** The nodes of a clone of hierarchy `h` named `n` and placed with the identity rotation:
      the root node is the clone itself, so it carries the new name and the identity; every
      other node is the template's. */
  function CloneNodes(h: Hierarchy, n: string): (r: Hierarchy)
    ensures |r| == |h| && r[0] == Bone(n, Identity)
    ensures forall k :: 0 < k < |h| ==> r[k] == h[k]
  {
    h[0 := Bone(n, Identity)]
  }

  /** An axis-aligned bounding box given by its two extreme corners. */
  datatype Box = Box(min: Vec3, max: Vec3) {
    function Center(): Vec3 { Scale(Add(min, max), 0.5) }
    function Size(): Vec3 { Sub(max, min) }
  }

  /** `outer` contains `inner` on every axis. */
  predicate Encloses(outer: Box, inner: Box)
  {
    outer.min.x <= inner.min.x && outer.min.y <= inner.min.y && outer.min.z <= inner.min.z &&
    inner.max.x <= outer.max.x && inner.max.y <= outer.max.y && inner.max.z <= outer.max.z
  }

  /** A box moved by `p`. */
  function Offset(b: Box, p: Vec3): Box { Box(Add(b.min, p), Add(b.max, p)) }

  /** A collision volume on a block: a box (centre in the block's local space, size), or any other kind. */
  datatype Collider = OtherCollider(kind: string) | BoxCollider(center: Vec3, size: Vec3)

  datatype BodySettings = BodySettings(isKinematic: bool, mass: real, linearDamping: real, angularDamping: real)

  /** The settings of a rigid body freshly added to an object by the engine. */
  const DefaultBody := BodySettings(false, 1.0, 0.0, 0.05)

  /** A template a block is instantiated from; its name is that of its root node.
      `rendererBounds` are the bounds of its renderers relative to its origin. */
  datatype Prefab = Prefab(
    bones: Hierarchy,
    body: Option<BodySettings>,
    colliders: seq<Collider>,
    rendererBounds: seq<Box>)
  {
    function Name(): string { bones[0].name }
  }

  /** A rigid body. `speed` is the magnitude of its linear velocity, which the physics engine writes. */
  class Body {
    var isKinematic: bool
    var mass: real
    var linearDamping: real
    var angularDamping: real
    var speed: real

    constructor (s: BodySettings)
      ensures isKinematic == s.isKinematic && mass == s.mass
      ensures linearDamping == s.linearDamping && angularDamping == s.angularDamping
      ensures speed == 0.0
    {
      isKinematic, mass, linearDamping, angularDamping := s.isKinematic, s.mass, s.linearDamping, s.angularDamping;
      speed := 0.0;
    }
  }

  /** A spawned block: its name, its transform (position, and yaw in degrees about the
      vertical axis), its nodes root first (the root node is the block itself, so it carries
      the block's name), its rigid body if it has one, its colliders, and the world bounds of
      its renderers. The bounds are those of the unposed template at the spawn position: the
      model does not recompute them when the block is posed, moved or turned. */
  class Block {
    var name: string
    var position: Vec3
    var yaw: real
    const bones: array<Bone>
    var body: Body?
    var colliders: seq<Collider>
    var rendererBounds: seq<Box>

    /** The engine's clone of `prefab` placed at `position` with the identity rotation. */
    constructor Instantiate(prefab: Prefab, position: Vec3)
      ensures name == prefab.Name() + "(Clone)" && this.position == position && yaw == 0.0
      ensures fresh(bones) && bones[..] == CloneNodes(prefab.bones, name)
      ensures bones.Length > 0 && bones[0].name == name
      ensures prefab.body.None? ==> body == null
      ensures prefab.body.Some? ==>
        body != null && fresh(body) && body.speed == 0.0 &&
        body.isKinematic == prefab.body.value.isKinematic && body.mass == prefab.body.value.mass &&
        body.linearDamping == prefab.body.value.linearDamping &&
        body.angularDamping == prefab.body.value.angularDamping
      ensures colliders == prefab.colliders
      ensures |rendererBounds| == |prefab.rendererBounds|
      ensures forall i :: 0 <= i < |rendererBounds| ==> rendererBounds[i] == Offset(prefab.rendererBounds[i], position)
    {
      name := prefab.Name() + "(Clone)";
      this.position := position;
      yaw := 0.0;
      bones := new Bone[|prefab.bones|](i requires 0 <= i < |prefab.bones| =>
        if i == 0 then Bone(prefab.Name() + "(Clone)", Identity) else prefab.bones[i]);
      if prefab.body.Some? {
        body := new Body(prefab.body.value);
      } else {
        body := null;
      }
      colliders := prefab.colliders;
      rendererBounds := seq(|prefab.rendererBounds|, i requires 0 <= i < |prefab.rendererBounds| =>
        Offset(prefab.rendererBounds[i], position));
    }
  }
}
