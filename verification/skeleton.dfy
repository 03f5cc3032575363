/**
 * The bone map that retargeting matches track names against: built from the
 * skeleton of the first skinned mesh met while traversing the loaded avatar.
 */
module Skeleton {
  import opened Wrappers

  /** A bone of the avatar; `id` stands for the bone object's identity, so two bones may share a name. */
  datatype Bone = Bone(id: nat, name: string)

  /** A node of the avatar as `traverse` visits it: whether it is a skinned mesh, and its skeleton's bones. */
  datatype SceneNode = SceneNode(isSkinnedMesh: bool, skeleton: Option<seq<Bone>>)

  /** The guard under which a node contributes its bones: a skinned mesh that has a skeleton. */
  predicate HasSkeleton(node: SceneNode) {
    node.isSkinnedMesh && node.skeleton.Some?
  }

  /** The bones of the first node, in traversal order, that is a skinned mesh with a skeleton. */
  function FirstSkeleton(nodes: seq<SceneNode>): (r: Option<seq<Bone>>)
    ensures r.None? <==> forall i :: 0 <= i < |nodes| ==> !HasSkeleton(nodes[i])
    ensures r.Some? ==>
      exists i :: 0 <= i < |nodes| && HasSkeleton(nodes[i]) && nodes[i].skeleton == r &&
        forall j :: 0 <= j < i ==> !HasSkeleton(nodes[j])
  {
    if |nodes| == 0 then None
    else
      var earlier := FirstSkeleton(nodes[..|nodes| - 1]);
      if earlier.Some? then earlier
      else if HasSkeleton(nodes[|nodes| - 1]) then nodes[|nodes| - 1].skeleton
      else None
  }

  /** Each bone is stored under its name in order, so a later bone overwrites an earlier one of the same name. */
  function IndexBones(bones: seq<Bone>): map<string, Bone>
  {
    if |bones| == 0 then map[]
    else IndexBones(bones[..|bones| - 1])[bones[|bones| - 1].name := bones[|bones| - 1]]
  }

  /** The bone map of an avatar: empty when no skinned mesh has a skeleton. */
  function BoneMap(nodes: seq<SceneNode>): map<string, Bone>
  {
    match FirstSkeleton(nodes)
    case None => map[]
    case Some(bones) => IndexBones(bones)
  }

  /** Bone `i` carries `name` and no later bone does. */
  predicate LastWithName(bones: seq<Bone>, i: int, name: string)
    requires 0 <= i < |bones|
  {
    bones[i].name == name && forall j :: i < j < |bones| ==> bones[j].name != name
  }

  lemma {:induction false} IndexBonesKey(bones: seq<Bone>, name: string)
    ensures name in IndexBones(bones) <==> exists i :: 0 <= i < |bones| && bones[i].name == name
  {
    if |bones| > 0 {
      var init := bones[..|bones| - 1];
      IndexBonesKey(init, name);
      if name in IndexBones(init) {
        var i :| 0 <= i < |init| && init[i].name == name;
        assert bones[i] == init[i];
      }
      if exists i :: 0 <= i < |bones| && bones[i].name == name {
        var i :| 0 <= i < |bones| && bones[i].name == name;
        if i < |init| { assert init[i] == bones[i]; }
      }
    }
  }

  lemma {:induction false} IndexBonesValue(bones: seq<Bone>, name: string)
    requires name in IndexBones(bones)
    ensures exists i :: 0 <= i < |bones| && LastWithName(bones, i, name) && IndexBones(bones)[name] == bones[i]
  {
    var init := bones[..|bones| - 1];
    if name == bones[|bones| - 1].name {
      assert LastWithName(bones, |bones| - 1, name);
    } else {
      IndexBonesValue(init, name);
      var i :| 0 <= i < |init| && LastWithName(init, i, name) && IndexBones(init)[name] == init[i];
      assert bones[i] == init[i];
      forall j | i < j < |bones| ensures bones[j].name != name {
        if j < |init| { assert bones[j] == init[j]; }
      }
      assert LastWithName(bones, i, name);
    }
  }

  /**
   * The map's keys are exactly the bone names, and each name maps to the LAST
   * bone carrying it.
   */
  lemma IndexBonesLastWins(bones: seq<Bone>)
    ensures forall name :: name in IndexBones(bones) <==> exists i :: 0 <= i < |bones| && bones[i].name == name
    ensures forall name :: name in IndexBones(bones) ==>
      exists i :: 0 <= i < |bones| && LastWithName(bones, i, name) && IndexBones(bones)[name] == bones[i]
  {
    forall name ensures name in IndexBones(bones) <==> exists i :: 0 <= i < |bones| && bones[i].name == name {
      IndexBonesKey(bones, name);
    }
    forall name | name in IndexBones(bones)
      ensures exists i :: 0 <= i < |bones| && LastWithName(bones, i, name) && IndexBones(bones)[name] == bones[i]
    {
      IndexBonesValue(bones, name);
    }
  }

  /**
   * The avatar callback's traversal: the first skinned mesh with a skeleton
   * fills the bone map bone by bone; every later one is ignored.
   */
  method BuildBoneMap(nodes: seq<SceneNode>) returns (boneMap: map<string, Bone>)
    ensures boneMap == BoneMap(nodes)
  {
    var skeletonRoot: Option<seq<Bone>> := None;
    boneMap := map[];
    for i := 0 to |nodes|
      invariant skeletonRoot == FirstSkeleton(nodes[..i])
      invariant boneMap == BoneMap(nodes[..i])
    {
      assert nodes[..i + 1][..i] == nodes[..i];
      var child := nodes[i];
      if child.isSkinnedMesh {
        if skeletonRoot.None? && child.skeleton.Some? {
          skeletonRoot := child.skeleton;
          var bones := child.skeleton.value;
          for j := 0 to |bones|
            invariant boneMap == IndexBones(bones[..j])
          {
            assert bones[..j + 1][..j] == bones[..j];
            boneMap := boneMap[bones[j].name := bones[j]];
          }
          assert bones[..|bones|] == bones;
        }
      }
    }
    assert nodes[..|nodes|] == nodes;
  }
}
