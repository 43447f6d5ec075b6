/** The factory that clones the posed preview into a physics block: pose copying by node
    name, rigid-body setup, and a single box collider around all renderers. */
module PoseFactory {
  import opened Scene

  /** The name-to-node dictionary built by visiting `s` in order and writing each node under
      its name: it holds every name of `s`, each mapped to a node carrying that name. */
  function NameIndex(s: seq<Bone>): (m: map<string, nat>)
    ensures forall k :: 0 <= k < |s| ==> s[k].name in m
    ensures forall n :: n in m ==> m[n] < |s| && s[m[n]].name == n
  {
    if s == [] then map[] else NameIndex(s[..|s| - 1])[s[|s| - 1].name := |s| - 1]
  }

  /** The node a name maps to is the LAST one holding that name. */
  lemma {:induction false} NameIndexLast(s: seq<Bone>)
    ensures forall n, k :: n in NameIndex(s) && NameIndex(s)[n] < k < |s| ==> s[k].name != n
  {
    if s != [] {
      NameIndexLast(s[..|s| - 1]);
    }
  }

  /** A node no later node shares its name with is the one its name maps to. */
  lemma NameIndexAt(s: seq<Bone>, i: nat)
    requires i < |s|
    requires forall k :: i < k < |s| ==> s[k].name != s[i].name
    ensures NameIndex(s)[s[i].name] == i
  {
    NameIndexLast(s);
  }

  /** A dictionary whose entries all point at a node of `d` carrying the entry's name. */
  predicate IndexesInto(m: map<string, nat>, d: seq<Bone>)
  {
    forall n :: n in m ==> m[n] < |d| && d[m[n]].name == n
  }

  /** `d` after visiting the nodes of `src` in order and, for each whose name is in `m`,
      overwriting the local rotation of the node `m` names. */
  function Stamp(src: seq<Bone>, d: seq<Bone>, m: map<string, nat>): (r: seq<Bone>)
    ensures |r| == |d|
    ensures forall k :: 0 <= k < |d| ==> r[k].name == d[k].name
  {
    if src == [] then d
    else
      var prev := Stamp(src[..|src| - 1], d, m);
      var s := src[|src| - 1];
      if s.name in m && m[s.name] < |prev| then
        prev[m[s.name] := prev[m[s.name]].(localRotation := s.localRotation)]
      else prev
  }

  /** The destination hierarchy `dst` after its rotations are copied from `src` by name. */
  function PoseCopy(src: seq<Bone>, dst: seq<Bone>): seq<Bone>
  {
    Stamp(src, dst, NameIndex(dst))
  }

  /** Node `i` of a stamped hierarchy: rewritten exactly when the dictionary names it and
      some source node carries its name, and then with the last such source node's rotation. */
  lemma {:induction false} StampAt(src: seq<Bone>, d: seq<Bone>, m: map<string, nat>, i: nat)
    requires IndexesInto(m, d) && i < |d|
    ensures Stamp(src, d, m)[i] ==
      if d[i].name in m && m[d[i].name] == i && d[i].name in NameIndex(src)
      then d[i].(localRotation := src[NameIndex(src)[d[i].name]].localRotation)
      else d[i]
  {
    if src != [] {
      var init := src[..|src| - 1];
      StampAt(init, d, m, i);
      assert NameIndex(src) == NameIndex(init)[src[|src| - 1].name := |src| - 1];
    }
  }

  /** A destination node that is the last of its name, when some source node shares the
      name, takes the rotation of the last source node with that name. */
  lemma PoseCopyTakesLastSource(src: seq<Bone>, dst: seq<Bone>, i: nat, j: nat)
    requires i < |dst| && j < |src| && src[j].name == dst[i].name
    requires forall k :: i < k < |dst| ==> dst[k].name != dst[i].name
    requires forall k :: j < k < |src| ==> src[k].name != src[j].name
    ensures |PoseCopy(src, dst)| == |dst|
    ensures PoseCopy(src, dst)[i] == dst[i].(localRotation := src[j].localRotation)
  {
    NameIndexAt(src, j);
    NameIndexAt(dst, i);
    StampAt(src, dst, NameIndex(dst), i);
  }

  /** A destination node whose name no source node carries keeps its rotation. */
  lemma PoseCopyKeepsUnmatched(src: seq<Bone>, dst: seq<Bone>, i: nat)
    requires i < |dst|
    requires forall k :: 0 <= k < |src| ==> src[k].name != dst[i].name
    ensures |PoseCopy(src, dst)| == |dst|
    ensures PoseCopy(src, dst)[i] == dst[i]
  {
    StampAt(src, dst, NameIndex(dst), i);
  }

  /** When a later destination node has the same name, the dictionary points past node `i`,
      so node `i` keeps its rotation. */
  lemma PoseCopyKeepsShadowed(src: seq<Bone>, dst: seq<Bone>, i: nat, k: nat)
    requires i < k < |dst| && dst[k].name == dst[i].name
    ensures |PoseCopy(src, dst)| == |dst|
    ensures PoseCopy(src, dst)[i] == dst[i]
  {
    NameIndexLast(dst);
    StampAt(src, dst, NameIndex(dst), i);
  }

  /** The copy keeps the number, order and names of the destination nodes and changes
      nothing but local rotations. */
  lemma PoseCopyKeepsShape(src: seq<Bone>, dst: seq<Bone>)
    ensures |PoseCopy(src, dst)| == |dst|
    ensures forall k :: 0 <= k < |dst| ==> PoseCopy(src, dst)[k].name == dst[k].name
  {
  }

  /** A clone renamed "PoseBlock" keeps the identity rotation it was placed with at its root
      unless the posed preview has a node named "PoseBlock": the preview's own root does not
      reach it. */
  lemma CloneRootUnposed(preview: seq<Bone>, template: Hierarchy)
    requires forall k :: 0 <= k < |preview| ==> preview[k].name != "PoseBlock"
    ensures |PoseCopy(preview, CloneNodes(template, "PoseBlock"))| == |template|
    ensures PoseCopy(preview, CloneNodes(template, "PoseBlock"))[0] == Bone("PoseBlock", Identity)
  {
    PoseCopyKeepsUnmatched(preview, CloneNodes(template, "PoseBlock"), 0);
  }

  /** The smallest box enclosing both. */
  function Encapsulate(a: Box, b: Box): (r: Box)
    ensures Encloses(r, a) && Encloses(r, b)
  {
    Box(Vec3(Min(a.min.x, b.min.x), Min(a.min.y, b.min.y), Min(a.min.z, b.min.z)),
        Vec3(Max(a.max.x, b.max.x), Max(a.max.y, b.max.y), Max(a.max.z, b.max.z)))
  }

  /** Every face of `u` lies on a face of one of `bs`. */
  predicate Attained(u: Box, bs: seq<Box>)
  {
    (exists k :: 0 <= k < |bs| && u.min.x == bs[k].min.x) &&
    (exists k :: 0 <= k < |bs| && u.min.y == bs[k].min.y) &&
    (exists k :: 0 <= k < |bs| && u.min.z == bs[k].min.z) &&
    (exists k :: 0 <= k < |bs| && u.max.x == bs[k].max.x) &&
    (exists k :: 0 <= k < |bs| && u.max.y == bs[k].max.y) &&
    (exists k :: 0 <= k < |bs| && u.max.z == bs[k].max.z)
  }

  /** The first box encapsulated with each following one in turn. */
  function Union(bs: seq<Box>): (u: Box)
    requires |bs| > 0
    ensures |bs| == 1 ==> u == bs[0]
  {
    if |bs| == 1 then bs[0] else Encapsulate(Union(bs[..|bs| - 1]), bs[|bs| - 1])
  }

  /** The union encloses every box and each of its faces is a face of one of them. */
  lemma {:induction false} UnionBounds(bs: seq<Box>)
    requires |bs| > 0
    ensures forall k :: 0 <= k < |bs| ==> Encloses(Union(bs), bs[k])
    ensures Attained(Union(bs), bs)
  {
    if |bs| > 1 {
      var init := bs[..|bs| - 1];
      UnionBounds(init);
      assert forall k :: 0 <= k < |init| ==> init[k] == bs[k];
    }
  }

  /** Any box enclosing all of `bs` encloses their union, so the union is the least
      enclosing box. */
  lemma {:induction false} UnionIsLeast(bs: seq<Box>, c: Box)
    requires |bs| > 0
    requires forall k :: 0 <= k < |bs| ==> Encloses(c, bs[k])
    ensures Encloses(c, Union(bs))
  {
    UnionBounds(bs);
    var u := Union(bs);
    var k0 :| 0 <= k0 < |bs| && u.min.x == bs[k0].min.x;
    var k1 :| 0 <= k1 < |bs| && u.min.y == bs[k1].min.y;
    var k2 :| 0 <= k2 < |bs| && u.min.z == bs[k2].min.z;
    var k3 :| 0 <= k3 < |bs| && u.max.x == bs[k3].max.x;
    var k4 :| 0 <= k4 < |bs| && u.max.y == bs[k4].max.y;
    var k5 :| 0 <= k5 < |bs| && u.max.z == bs[k5].max.z;
    assert Encloses(c, bs[k0]) && Encloses(c, bs[k1]) && Encloses(c, bs[k2]);
    assert Encloses(c, bs[k3]) && Encloses(c, bs[k4]) && Encloses(c, bs[k5]);
  }

  /** The colliders a block keeps once every existing one is removed and, if it has renderers,
      one box around them all is added; the box centre is taken relative to `origin`. */
  function SingleBox(bounds: seq<Box>, origin: Vec3): seq<Collider>
  {
    if |bounds| == 0 then []
    else [BoxCollider(Sub(Union(bounds).Center(), origin), Union(bounds).Size())]
  }

  class PoseBlockFactory {
    /** The template every pose block is cloned from. */
    const posePreviewPrefab: Prefab
    /** The posed preview in the scene whose rotations are copied; may be unset. */
    const posePreviewInScene: Block?
    const mass: real
    const drag: real
    const angularDrag: real

    constructor (prefab: Prefab, preview: Block?, mass: real, drag: real, angularDrag: real)
      ensures posePreviewPrefab == prefab && posePreviewInScene == preview
      ensures this.mass == mass && this.drag == drag && this.angularDrag == angularDrag
    {
      posePreviewPrefab, posePreviewInScene := prefab, preview;
      this.mass, this.drag, this.angularDrag := mass, drag, angularDrag;
    }

    /** A new block named "PoseBlock" at `position`, posed like the scene preview, with a
        kinematic rigid body carrying the configured mass and damping and a single box collider.
        The block (its root node) is renamed before the pose is copied, so the copy matches the
        root only against a preview node named "PoseBlock". */
    method CreatePoseBlock(position: Vec3) returns (block: Block)
      ensures fresh(block) && fresh(block.bones) && block.body != null && fresh(block.body)
      ensures block.name == "PoseBlock" && block.position == position && block.yaw == 0.0
      ensures block.bones.Length > 0 && block.bones[0].name == block.name
      ensures block.body.isKinematic && block.body.speed == 0.0
      ensures block.body.mass == mass && block.body.linearDamping == drag && block.body.angularDamping == angularDrag
      ensures block.bones[..] ==
        if posePreviewInScene == null then CloneNodes(posePreviewPrefab.bones, "PoseBlock")
        else PoseCopy(posePreviewInScene.bones[..], CloneNodes(posePreviewPrefab.bones, "PoseBlock"))
      ensures block.rendererBounds == seq(|posePreviewPrefab.rendererBounds|,
        i requires 0 <= i < |posePreviewPrefab.rendererBounds| => Offset(posePreviewPrefab.rendererBounds[i], position))
      ensures block.colliders == SingleBox(block.rendererBounds, position)
    {
      block := new Block.Instantiate(posePreviewPrefab, position);
      block.name := "PoseBlock";
      block.bones[0] := block.bones[0].(name := "PoseBlock");
      ghost var cloned := CloneNodes(posePreviewPrefab.bones, "PoseBlock");
      assert block.bones[..] == cloned;

      CopyLocalRotations(posePreviewInScene, block);
      if posePreviewInScene != null {
        PoseCopyKeepsShape(posePreviewInScene.bones[..], cloned);
      }

      SetUpBody(block);

      EnsureSingleBoxCollider(block);
    }

    /** Gives `block` a rigid body, the one it has or else a new one, made kinematic and
        carrying the configured mass and damping. */
    method SetUpBody(block: Block)
      modifies block`body, block.body
      ensures block.body != null
      ensures old(block.body) != null ==> block.body == old(block.body) && block.body.speed == old(block.body.speed)
      ensures old(block.body) == null ==> fresh(block.body) && block.body.speed == 0.0
      ensures block.body.isKinematic
      ensures block.body.mass == mass && block.body.linearDamping == drag && block.body.angularDamping == angularDrag
    {
      var rb := block.body;
      if rb == null {
        rb := new Body(DefaultBody);
        block.body := rb;
      }
      rb.mass := mass;
      rb.linearDamping := drag;
      rb.angularDamping := angularDrag;
      rb.isKinematic := true;
    }

    /** Copies local rotations from the nodes of `srcRoot` onto the nodes of `dstRoot` with the
        same name, through a name dictionary of the destination (last node of a name wins).
        Nothing happens when either root is missing. */
    method CopyLocalRotations(srcRoot: Block?, dstRoot: Block?)
      requires srcRoot != null && dstRoot != null ==> srcRoot.bones != dstRoot.bones
      modifies if dstRoot != null then {dstRoot.bones} else {}
      ensures dstRoot != null ==>
                (dstRoot.bones[..] ==
                   if srcRoot == null then old(dstRoot.bones[..])
                   else PoseCopy(srcRoot.bones[..], old(dstRoot.bones[..])))
      ensures srcRoot != null ==> srcRoot.bones[..] == old(srcRoot.bones[..])
    {
      if srcRoot == null || dstRoot == null {
        return;
      }
      var dstMap := IndexByName(dstRoot.bones);
      StampRotations(srcRoot.bones, dstRoot.bones, dstMap);
    }

    /** The name dictionary of `dst`, filled in node order so that the last node of a name wins. */
    method IndexByName(dst: array<Bone>) returns (dstMap: map<string, nat>)
      ensures dstMap == NameIndex(dst[..])
    {
      dstMap := map[];
      var i := 0;
      while i < dst.Length
        invariant i <= dst.Length
        invariant dstMap == NameIndex(dst[..i])
      {
        assert dst[..i + 1][..i] == dst[..i];
        dstMap := dstMap[dst[i].name := i];
        i := i + 1;
      }
      assert dst[..i] == dst[..];
    }

    /** Visits the nodes of `src` in order and overwrites the local rotation of the node of
        `dst` that `dstMap` gives for each source node's name. */
    method StampRotations(src: array<Bone>, dst: array<Bone>, dstMap: map<string, nat>)
      requires src != dst && IndexesInto(dstMap, dst[..])
      modifies dst
      ensures dst[..] == Stamp(src[..], old(dst[..]), dstMap)
    {
      var j := 0;
      while j < src.Length
        invariant j <= src.Length
        invariant dst[..] == Stamp(src[..j], old(dst[..]), dstMap)
      {
        assert src[..j + 1][..j] == src[..j];
        var s := src[j];
        if s.name in dstMap {
          var d := dstMap[s.name];
          dst[d] := dst[d].(localRotation := s.localRotation);
        }
        j := j + 1;
      }
      assert src[..j] == src[..];
    }

    /** Removes every collider of `go` and, when it has renderers, adds one box collider
        around the union of their bounds, centred in the block's local space. */
    method EnsureSingleBoxCollider(go: Block)
      requires go.yaw == 0.0
      modifies go`colliders
      ensures go.colliders == SingleBox(go.rendererBounds, go.position)
      ensures go.rendererBounds == old(go.rendererBounds) && go.position == old(go.position)
      ensures go.name == old(go.name) && go.yaw == old(go.yaw) && go.body == old(go.body)
    {
      go.colliders := [];

      var renderers := go.rendererBounds;
      if |renderers| == 0 {
        return;
      }

      var bounds := renderers[0];
      for i := 1 to |renderers|
        invariant bounds == Union(renderers[..i])
      {
        assert renderers[..i + 1][..i] == renderers[..i];
        bounds := Encapsulate(bounds, renderers[i]);
      }
      assert renderers[..|renderers|] == renderers;

      go.colliders := [BoxCollider(Sub(bounds.Center(), go.position), bounds.Size())];
    }
  }
}
