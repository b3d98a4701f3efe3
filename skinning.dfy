/**
 * The skinning transforms: for every joint, the matrix that carries a
 * vertex bound to the joint at the binding pose to where the joint is at
 * the current coordinates. The skeleton is posed at the binding pose and
 * refreshed, then posed at the current coordinates and refreshed; each
 * joint's slot is its current world transform times the inverse of its
 * binding world transform, and a slot without a joint stays the identity.
 */
module Skinning {
  import opened Matrices
  import opened Names
  import opened KeyOrder
  import opened Kinematics
  import opened PoseSolver

  /** The joints after `setPose(pose)` followed by
      `getJointWorldTransformations()`. */
  ghost function PoseAndRefresh(joints: map<nat, Joint>, pose: map<nat, Mat>): (r: map<nat, Joint>)
    requires ParentsPresent(joints) && pose.Keys <= joints.Keys
    ensures SameShape(r, Posed(joints, pose))
  {
    PosedKeepsParents(joints, pose);
    Refreshed(Posed(joints, pose), Ascending(Posed(joints, pose).Keys))
  }

  /** The skeleton posed at the binding pose and refreshed. */
  ghost function BoundJoints(joints: map<nat, Joint>, treeJoints: seq<Vec3>): (r: map<nat, Joint>)
    requires |treeJoints| >= 7
    requires Poseable(joints)
    ensures Poseable(r) && r.Keys == joints.Keys
  {
    var r := PoseAndRefresh(joints, CalculateModelPoseFromCoordinates(BindingPose, treeJoints));
    ShapeKeepsParents(r, Posed(joints, CalculateModelPoseFromCoordinates(BindingPose, treeJoints)));
    PosedKeepsParents(joints, CalculateModelPoseFromCoordinates(BindingPose, treeJoints));
    r
  }

  /** The bound skeleton posed at the coordinates `q` and refreshed. */
  ghost function CurrentJoints(joints: map<nat, Joint>, q: map<int, real>, treeJoints: seq<Vec3>): (r: map<nat, Joint>)
    requires |treeJoints| >= 7
    requires Poseable(joints)
    ensures r.Keys == joints.Keys
  {
    PoseAndRefresh(BoundJoints(joints, treeJoints), CalculateModelPoseFromCoordinates(q, treeJoints))
  }

  /** The skinning transforms from the binding world transforms `bind` and
      the current ones `cur`, one slot per joint id below `JOINTS`. */
  function SkinningMatrices(bind: map<nat, Joint>, cur: map<nat, Joint>): (s: seq<Mat>)
    requires bind.Keys <= cur.Keys
    ensures |s| == JOINTS
    ensures forall k: nat :: k < JOINTS && k !in bind ==> s[k] == Identity
  {
    seq(JOINTS, i requires 0 <= i < JOINTS =>
      if i as nat in bind then Mul(cur[i as nat].world, Inv(bind[i as nat].world)) else Identity)
  }

  /** The skeleton can take every pose the solver produces. */
  ghost predicate Poseable(joints: map<nat, Joint>)
  {
    ParentsPresent(joints) && PosedJoints <= joints.Keys
  }

  /** `worlds` is a snapshot of the world transforms of `joints`, by id. */
  ghost predicate SnapshotOf(worlds: map<nat, Mat>, joints: map<nat, Joint>)
  {
    worlds.Keys == joints.Keys && forall k :: k in joints ==> worlds[k] == joints[k].world
  }

  /** One `setPose(pose)` followed by `getJointWorldTransformations()`:
      returns the snapshot of the refreshed world transforms. */
  method PoseAndSnapshot(skeleton: Skeleton, pose: map<nat, Mat>) returns (worlds: map<nat, Mat>)
    requires ParentsPresent(skeleton.joints) && pose.Keys <= skeleton.joints.Keys
    modifies skeleton
    ensures skeleton.bodies == old(skeleton.bodies)
    ensures skeleton.joints == PoseAndRefresh(old(skeleton.joints), pose)
    ensures SnapshotOf(worlds, skeleton.joints)
  {
    PosedKeepsParents(skeleton.joints, pose);
    skeleton.SetPose(pose);
    worlds := skeleton.GetJointWorldTransformations();
  }

  /** The loop of `calculateSkinningTransformations`: starting from
      `JOINTS` identity slots, visits the binding snapshot in ascending id
      order and sets each joint's slot to its current world transform times
      the inverse of its binding world transform. */
  method ComposeSkinning(bindWorlds: map<nat, Mat>, currentWorlds: map<nat, Mat>)
    returns (skinning: seq<Mat>)
    requires bindWorlds.Keys <= currentWorlds.Keys
    requires forall k :: k in bindWorlds ==> k < JOINTS
    ensures |skinning| == JOINTS
    ensures forall k: nat :: k < JOINTS ==>
              skinning[k] == if k in bindWorlds then Mul(currentWorlds[k], Inv(bindWorlds[k])) else Identity
  {
    skinning := seq(JOINTS, _ => Identity);
    var todo := bindWorlds.Keys;
    while todo != {}
      invariant todo <= bindWorlds.Keys
      invariant |skinning| == JOINTS
      invariant forall k: nat :: k < JOINTS ==>
                  skinning[k] == if k in bindWorlds && k !in todo
                                 then Mul(currentWorlds[k], Inv(bindWorlds[k])) else Identity
      decreases todo
    {
      LeastExists(todo);
      var id :| id in todo && IsLeast(id, todo);
      var bInvWorld := Inv(bindWorlds[id]);
      var jWorld := currentWorlds[id];
      skinning := skinning[id := Mul(jWorld, bInvWorld)];
      todo := todo - {id};
    }
  }

  /** The first half of `calculateSkinningTransformations`: poses the
      skeleton at the binding pose and snapshots its world transforms. */
  method BindSkeleton(skeleton: Skeleton, treeJoints: seq<Vec3>) returns (bindWorlds: map<nat, Mat>)
    requires |treeJoints| >= 7 && Poseable(skeleton.joints)
    modifies skeleton
    ensures skeleton.bodies == old(skeleton.bodies)
    ensures skeleton.joints == BoundJoints(old(skeleton.joints), treeJoints)
    ensures Poseable(skeleton.joints) && SnapshotOf(bindWorlds, skeleton.joints)
  {
    bindWorlds := PoseAndSnapshot(skeleton, CalculateModelPoseFromCoordinates(BindingPose, treeJoints));
  }

  /** The second half: poses the bound skeleton at the coordinates `q` and
      snapshots its world transforms. */
  method PoseSkeleton(skeleton: Skeleton, q: map<int, real>, treeJoints: seq<Vec3>, ghost start: map<nat, Joint>)
    returns (currentWorlds: map<nat, Mat>)
    requires |treeJoints| >= 7 && Poseable(start)
    requires skeleton.joints == BoundJoints(start, treeJoints)
    modifies skeleton
    ensures skeleton.bodies == old(skeleton.bodies)
    ensures skeleton.joints == CurrentJoints(start, q, treeJoints)
    ensures SnapshotOf(currentWorlds, skeleton.joints)
  {
    currentWorlds := PoseAndSnapshot(skeleton, CalculateModelPoseFromCoordinates(q, treeJoints));
  }

  /** The skinning transforms composed from the two snapshots. */
  method SkinningOf(bindWorlds: map<nat, Mat>, currentWorlds: map<nat, Mat>,
                    ghost bound: map<nat, Joint>, ghost current: map<nat, Joint>)
    returns (skinning: seq<Mat>)
    requires bound.Keys == current.Keys && forall k :: k in bound ==> k < JOINTS
    requires SnapshotOf(bindWorlds, bound) && SnapshotOf(currentWorlds, current)
    ensures skinning == SkinningMatrices(bound, current)
  {
    skinning := ComposeSkinning(bindWorlds, currentWorlds);
    SkinningFromSnapshots(bound, current, bindWorlds, currentWorlds, skinning);
  }

  /** `calculateSkinningTransformations(q)` on `skeleton`. Every joint id
      must index the array of `JOINTS` slots. */
  method CalculateSkinningTransformations(skeleton: Skeleton, q: map<int, real>, treeJoints: seq<Vec3>)
    returns (skinning: seq<Mat>)
    requires |treeJoints| >= 7 && Poseable(skeleton.joints)
    requires forall k :: k in skeleton.joints ==> k < JOINTS
    modifies skeleton
    ensures skeleton.bodies == old(skeleton.bodies)
    ensures skeleton.joints == CurrentJoints(old(skeleton.joints), q, treeJoints)
    ensures skinning == SkinningMatrices(BoundJoints(old(skeleton.joints), treeJoints), skeleton.joints)
  {
    ghost var start := skeleton.joints;
    var bindWorlds := BindSkeleton(skeleton, treeJoints);
    ghost var bound := skeleton.joints;
    var currentWorlds := PoseSkeleton(skeleton, q, treeJoints, start);
    skinning := SkinningOf(bindWorlds, currentWorlds, bound, skeleton.joints);
  }

  /** Slots composed from snapshots of `bind` and `cur` are the skinning
      transforms of those joints. */
  lemma SkinningFromSnapshots(bind: map<nat, Joint>, cur: map<nat, Joint>,
                              bindWorlds: map<nat, Mat>, currentWorlds: map<nat, Mat>, skinning: seq<Mat>)
    requires bind.Keys == cur.Keys
    requires SnapshotOf(bindWorlds, bind) && SnapshotOf(currentWorlds, cur)
    requires |skinning| == JOINTS
    requires forall k: nat :: k < JOINTS ==>
               skinning[k] == if k in bindWorlds then Mul(currentWorlds[k], Inv(bindWorlds[k])) else Identity
    ensures skinning == SkinningMatrices(bind, cur)
  {
    forall k: nat | k < JOINTS
      ensures skinning[k] == SkinningMatrices(bind, cur)[k]
    {
    }
  }

  // ---------------------------------------------------------------------
  // What the skinning transforms mean

  /** A joint's skinning transform carries its binding world transform to
      its current one. */
  lemma SkinningCarriesBindToCurrent(bind: map<nat, Joint>, cur: map<nat, Joint>, k: nat)
    requires bind.Keys <= cur.Keys && k in bind && k < JOINTS
    ensures Mul(SkinningMatrices(bind, cur)[k], bind[k].world) == cur[k].world
  {
    var b := bind[k].world;
    var c := cur[k].world;
    MulAssociative(c, Inv(b), b);
    MulInverseLeft(b);
    MulIdentityRight(c);
  }

  /** A joint's skinning transform is the identity exactly when the joint has
      not moved from where it was bound. */
  lemma SkinningIdentityIffUnmoved(bind: map<nat, Joint>, cur: map<nat, Joint>, k: nat)
    requires bind.Keys <= cur.Keys && k in bind && k < JOINTS
    ensures SkinningMatrices(bind, cur)[k] == Identity <==> cur[k].world == bind[k].world
  {
    var b := bind[k].world;
    if SkinningMatrices(bind, cur)[k] == Identity {
      SkinningCarriesBindToCurrent(bind, cur, k);
      MulIdentityLeft(b);
    }
    if cur[k].world == b {
      MulInverseRight(b);
    }
  }

  /** Posing twice with the same joints overwritten leaves only the second
      pose's local transforms. */
  lemma PosedOverrides(joints: map<nat, Joint>, first: map<nat, Mat>, second: map<nat, Mat>)
    requires first.Keys <= second.Keys <= joints.Keys
    ensures SameShape(Posed(Posed(joints, first), second), Posed(joints, second))
  {
  }

  /** The world transforms of the skeleton posed at `pose` and refreshed are
      the products of the posed local transforms from the root, whatever the
      world transforms were before. */
  lemma PoseAndRefreshIsWorldFromRoot(joints: map<nat, Joint>, pose: map<nat, Mat>, k: nat)
    requires ParentsPresent(joints) && ParentsPrecede(joints)
    requires pose.Keys <= joints.Keys && k in joints
    ensures ParentsPresent(Posed(joints, pose)) && ParentsPrecede(Posed(joints, pose))
    ensures PoseAndRefresh(joints, pose)[k].world == WorldFromRoot(Posed(joints, pose), k)
  {
    PosedKeepsParents(joints, pose);
    RefreshIsWorldFromRoot(Posed(joints, pose));
  }

  /** The world transform of joint `k` computed from the root after posing
      `joints` at `pose`. */
  ghost function PosedWorldFromRoot(joints: map<nat, Joint>, pose: map<nat, Mat>, k: nat): Mat
    requires ParentsPresent(joints) && ParentsPrecede(joints)
    requires pose.Keys <= joints.Keys && k in joints
  {
    PosedKeepsParents(joints, pose);
    WorldFromRoot(Posed(joints, pose), k)
  }

  /** Posing at `first`, refreshing, then posing at `second` (which
      overwrites every joint `first` does) and refreshing again leaves the
      world transforms of `second` alone. */
  lemma SecondPoseWins(joints: map<nat, Joint>, first: map<nat, Mat>, second: map<nat, Mat>, k: nat)
    requires ParentsPresent(joints) && ParentsPrecede(joints)
    requires first.Keys <= second.Keys <= joints.Keys && k in joints
    ensures ParentsPresent(PoseAndRefresh(joints, first))
    ensures PoseAndRefresh(PoseAndRefresh(joints, first), second)[k].world == PosedWorldFromRoot(joints, second, k)
  {
    var once := PoseAndRefresh(joints, first);
    PosedKeepsParents(joints, first);
    ShapeKeepsParents(once, Posed(joints, first));
    PoseAndRefreshIsWorldFromRoot(once, second, k);
    PosedKeepsShape(once, Posed(joints, first), second);
    PosedOverrides(joints, first, second);
    WorldFromRootDependsOnShape(Posed(once, second), Posed(Posed(joints, first), second), k);
    WorldFromRootDependsOnShape(Posed(Posed(joints, first), second), Posed(joints, second), k);
  }

  /** The skinning transform of joint `k` between two poses `first` and
      `second` of the same joints is the world transform at `second` times
      the inverse of the world transform at `first`. */
  lemma SkinningBetweenPoses(joints: map<nat, Joint>, first: map<nat, Mat>, second: map<nat, Mat>, k: nat)
    requires ParentsPresent(joints) && ParentsPrecede(joints)
    requires first.Keys <= second.Keys <= joints.Keys && k in joints && k < JOINTS
    ensures ParentsPresent(PoseAndRefresh(joints, first))
    ensures SkinningMatrices(PoseAndRefresh(joints, first), PoseAndRefresh(PoseAndRefresh(joints, first), second))[k]
            == Mul(PosedWorldFromRoot(joints, second, k), Inv(PosedWorldFromRoot(joints, first, k)))
  {
    PoseAndRefreshIsWorldFromRoot(joints, first, k);
    SecondPoseWins(joints, first, second, k);
  }

  /** End to end: for a skeleton whose parents precede their children, the
      skinning transform of joint `k` is its world transform at the
      coordinates `q` times the inverse of its world transform at the
      binding pose, both computed from the posed local transforms alone. */
  lemma SkinningIsRelativeWorld(joints: map<nat, Joint>, q: map<int, real>, treeJoints: seq<Vec3>, k: nat)
    requires |treeJoints| >= 7 && Poseable(joints) && ParentsPrecede(joints)
    requires k in joints && k < JOINTS
    ensures SkinningMatrices(BoundJoints(joints, treeJoints), CurrentJoints(joints, q, treeJoints))[k]
            == Mul(PosedWorldFromRoot(joints, CalculateModelPoseFromCoordinates(q, treeJoints), k),
                   Inv(PosedWorldFromRoot(joints, CalculateModelPoseFromCoordinates(BindingPose, treeJoints), k)))
  {
    SkinningBetweenPoses(joints, CalculateModelPoseFromCoordinates(BindingPose, treeJoints),
                         CalculateModelPoseFromCoordinates(q, treeJoints), k);
  }

  /** Posing twice at the same pose makes every skinning transform the
      identity. */
  lemma SkinningAtSamePoseIsIdentity(joints: map<nat, Joint>, pose: map<nat, Mat>)
    requires ParentsPresent(joints) && ParentsPrecede(joints) && pose.Keys <= joints.Keys
    ensures ParentsPresent(PoseAndRefresh(joints, pose))
    ensures forall k :: 0 <= k < JOINTS ==>
              SkinningMatrices(PoseAndRefresh(joints, pose), PoseAndRefresh(PoseAndRefresh(joints, pose), pose))[k] == Identity
  {
    PosedKeepsParents(joints, pose);
    ShapeKeepsParents(PoseAndRefresh(joints, pose), Posed(joints, pose));
    var s := SkinningMatrices(PoseAndRefresh(joints, pose), PoseAndRefresh(PoseAndRefresh(joints, pose), pose));
    forall k: nat | k < JOINTS
      ensures s[k] == Identity
    {
      if k in joints {
        SkinningBetweenPoses(joints, pose, pose, k);
        MulInverseRight(PosedWorldFromRoot(joints, pose, k));
      }
    }
  }

  /** At the binding pose, or at any coordinates that agree with it on the
      coordinates the solver reads, every skinning transform is the
      identity: the mesh stays where it was bound. */
  lemma SkinningAtBindingPoseIsIdentity(joints: map<nat, Joint>, q: map<int, real>, treeJoints: seq<Vec3>)
    requires |treeJoints| >= 7 && Poseable(joints) && ParentsPrecede(joints)
    requires forall c :: c in ReadCoordinates ==> Coord(q, c) == Coord(BindingPose, c)
    ensures forall k :: 0 <= k < JOINTS ==>
              SkinningMatrices(BoundJoints(joints, treeJoints), CurrentJoints(joints, q, treeJoints))[k] == Identity
  {
    PoseDependsOnlyOnReadCoordinates(q, BindingPose, treeJoints);
    SkinningAtSamePoseIsIdentity(joints, CalculateModelPoseFromCoordinates(BindingPose, treeJoints));
  }

  /** After the skinning transforms are computed, the skeleton stays posed
      at the coordinates `q`: every joint the solver poses holds the local
      transform `q` gives it, and every other joint keeps its own. */
  lemma SkeletonLeftAtCurrentPose(joints: map<nat, Joint>, q: map<int, real>, treeJoints: seq<Vec3>, k: nat)
    requires |treeJoints| >= 7 && Poseable(joints) && k in joints
    ensures k in PosedJoints ==>
              CurrentJoints(joints, q, treeJoints)[k].local == CalculateModelPoseFromCoordinates(q, treeJoints)[k]
    ensures k !in PosedJoints ==> CurrentJoints(joints, q, treeJoints)[k].local == joints[k].local
  {
    var bound := BoundJoints(joints, treeJoints);
    var bindPose := CalculateModelPoseFromCoordinates(BindingPose, treeJoints);
    var pose := CalculateModelPoseFromCoordinates(q, treeJoints);
    assert bound[k].local == Posed(joints, bindPose)[k].local;
    assert CurrentJoints(joints, q, treeJoints)[k].local == Posed(bound, pose)[k].local;
  }

  /** The assembled skeleton can be skinned: it has every joint the solver
      poses, its parents precede their children, and every id indexes the
      array of skinning transforms. */
  lemma BuiltSkeletonPoseable()
    ensures Poseable(BuiltJoints) && ParentsPrecede(BuiltJoints)
    ensures forall k :: k in BuiltJoints ==> k < JOINTS
  {
    forall k | k in BuiltJoints
      ensures BuiltJoints[k].parent.Some? ==> BuiltJoints[k].parent.value in BuiltJoints && BuiltJoints[k].parent.value < k
    {
      BuiltJointParent(k);
    }
  }
}
