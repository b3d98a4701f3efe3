/**
 * The pose solver: from a sparse map of generalized coordinates (angles in
 * degrees, the root's translation) and the joint offsets of the tree, one
 * local transform per joint of the skeleton. Each joint's local transform
 * is a translation by its offset followed by its rotations, X first, then
 * Y, then Z; the hinge joints rotate about Z only and the end joints only
 * translate.
 */
module PoseSolver {
  import opened Matrices
  import opened Names

  /** `q[c]` on the solver's own copy of the coordinate map: a coordinate
      that is absent reads as 0, the value `std::map::operator[]` inserts. */
  function Coord(q: map<int, real>, c: int): (v: real)
    ensures c in q ==> v == q[c]
    ensures c !in q ==> v == 0.0
  {
    if c in q then q[c] else 0.0
  }

  /** The joints the solver poses: ROOT to POINT7. */
  const PosedJoints: set<nat> := {ROOT, POINT2, POINT3, POINT4, POINT5, POINT6, POINT7}

  /** A rotation about X, then Y, then Z, by angles in degrees. */
  function RotationXYZ(x: real, y: real, z: real): Mat
  {
    Mul(Mul(Rotate(X, x), Rotate(Y, y)), Rotate(Z, z))
  }

  /** The local transform `calculateModelPoseFromCoordinates` computes for
      joint `k` from the coordinates `q` and the joint offsets `treeJoints`:
      the root translates by its three coordinates; the right hip and the
      back are ball joints, the right knee and ankle hinges, the calcaneus
      and toes fixed offsets. */
  function LocalTransform(q: map<int, real>, treeJoints: seq<Vec3>, k: nat): Mat
    requires |treeJoints| >= 7 && k in PosedJoints
  {
    if k == ROOT then
      Translate(Vec3(Coord(q, BONE1_TRA_X), Coord(q, BONE1_TRA_Y), Coord(q, BONE1_TRA_Z)))
    else if k == POINT2 then
      BallJoint(treeJoints[0], Coord(q, HIP_R_ADD), Coord(q, HIP_R_ROT), Coord(q, HIP_R_FLEX))
    else if k == POINT3 then
      Hinge(treeJoints[1], Coord(q, KNEE_R_FLEX))
    else if k == POINT4 then
      Hinge(treeJoints[2], Coord(q, ANKLE_R_FLEX))
    else if k == POINT5 then
      Translate(treeJoints[4])
    else if k == POINT6 then
      Translate(treeJoints[5])
    else
      BallJoint(treeJoints[6], Coord(q, LUMBAR_BEND), Coord(q, LUMBAR_ROT), Coord(q, LUMBAR_FLEX))
  }

  /** `calculateModelPoseFromCoordinates`: the local transform of every
      posed joint; the left leg is not posed. */
  function CalculateModelPoseFromCoordinates(q: map<int, real>, treeJoints: seq<Vec3>): (pose: map<nat, Mat>)
    requires |treeJoints| >= 7
    ensures pose.Keys == PosedJoints
    ensures pose[ROOT]
            == Translate(Vec3(Coord(q, BONE1_TRA_X), Coord(q, BONE1_TRA_Y), Coord(q, BONE1_TRA_Z)))
    ensures pose[POINT5] == Translate(treeJoints[4])
    ensures pose[POINT6] == Translate(treeJoints[5])
  {
    map k | k in PosedJoints :: LocalTransform(q, treeJoints, k)
  }

  /** The local transform of a ball joint, computed as the source does:
      `translate(offset) * rotX * rotY * rotZ`, multiplied left to right. */
  function BallJoint(offset: Vec3, x: real, y: real, z: real): Mat
  {
    Mul(Mul(Mul(Translate(offset), Rotate(X, x)), Rotate(Y, y)), Rotate(Z, z))
  }

  /** The local transform of a hinge: `translate(offset) * rotZ`. */
  function Hinge(offset: Vec3, z: real): Mat
  {
    Mul(Translate(offset), Rotate(Z, z))
  }

  // ---------------------------------------------------------------------
  // Which inputs feed which joint

  /** The coordinates joint `k`'s local transform reads. */
  function JointCoordinates(k: nat): set<int>
  {
    if k == ROOT then {BONE1_TRA_X, BONE1_TRA_Y, BONE1_TRA_Z}
    else if k == POINT2 then {HIP_R_ADD, HIP_R_ROT, HIP_R_FLEX}
    else if k == POINT3 then {KNEE_R_FLEX}
    else if k == POINT4 then {ANKLE_R_FLEX}
    else if k == POINT7 then {LUMBAR_BEND, LUMBAR_ROT, LUMBAR_FLEX}
    else {}
  }

  /** The joint offsets joint `k`'s local transform reads: the root reads
      none, and no joint reads `treeJoints[3]`. */
  function JointOffsets(k: nat): set<nat>
  {
    if k == POINT2 then {0}
    else if k == POINT3 then {1}
    else if k == POINT4 then {2}
    else if k == POINT5 then {4}
    else if k == POINT6 then {5}
    else if k == POINT7 then {6}
    else {}
  }

  /** Every coordinate the solver reads, over all joints. */
  const ReadCoordinates: set<int> :=
    {BONE1_TRA_X, BONE1_TRA_Y, BONE1_TRA_Z, HIP_R_FLEX, HIP_R_ADD, HIP_R_ROT,
     KNEE_R_FLEX, ANKLE_R_FLEX, LUMBAR_FLEX, LUMBAR_BEND, LUMBAR_ROT}

  /** A joint's local transform depends only on the coordinates and offsets
      it reads: two inputs that agree on those give the same transform. */
  lemma JointDependsOnlyOnItsInputs(q1: map<int, real>, t1: seq<Vec3>,
                                    q2: map<int, real>, t2: seq<Vec3>, k: nat)
    requires |t1| >= 7 && |t2| >= 7 && k in PosedJoints
    requires forall c :: c in JointCoordinates(k) ==> Coord(q1, c) == Coord(q2, c)
    requires forall i :: i in JointOffsets(k) ==> t1[i] == t2[i]
    ensures CalculateModelPoseFromCoordinates(q1, t1)[k] == CalculateModelPoseFromCoordinates(q2, t2)[k]
  {
    LocalTransformDependsOnlyOnItsInputs(q1, t1, q2, t2, k);
  }

  lemma LocalTransformDependsOnlyOnItsInputs(q1: map<int, real>, t1: seq<Vec3>,
                                             q2: map<int, real>, t2: seq<Vec3>, k: nat)
    requires |t1| >= 7 && |t2| >= 7 && k in PosedJoints
    requires forall c :: c in JointCoordinates(k) ==> Coord(q1, c) == Coord(q2, c)
    requires forall i :: i in JointOffsets(k) ==> t1[i] == t2[i]
    ensures LocalTransform(q1, t1, k) == LocalTransform(q2, t2, k)
  {
    if k == ROOT {
      assert BONE1_TRA_X in JointCoordinates(k) && BONE1_TRA_Y in JointCoordinates(k);
      assert BONE1_TRA_Z in JointCoordinates(k);
    } else if k == POINT2 {
      assert HIP_R_ADD in JointCoordinates(k) && HIP_R_ROT in JointCoordinates(k);
      assert HIP_R_FLEX in JointCoordinates(k) && 0 in JointOffsets(k);
    } else if k == POINT3 {
      assert KNEE_R_FLEX in JointCoordinates(k) && 1 in JointOffsets(k);
    } else if k == POINT4 {
      assert ANKLE_R_FLEX in JointCoordinates(k) && 2 in JointOffsets(k);
    } else if k == POINT5 {
      assert 4 in JointOffsets(k);
    } else if k == POINT6 {
      assert 5 in JointOffsets(k);
    } else {
      assert LUMBAR_BEND in JointCoordinates(k) && LUMBAR_ROT in JointCoordinates(k);
      assert LUMBAR_FLEX in JointCoordinates(k) && 6 in JointOffsets(k);
    }
  }

  /** Every coordinate a joint reads is in `ReadCoordinates`. */
  lemma JointCoordinatesAreRead(k: nat)
    ensures JointCoordinates(k) <= ReadCoordinates
  {
  }

  /** The whole pose depends only on the coordinates in `ReadCoordinates`. */
  lemma PoseDependsOnlyOnReadCoordinates(q1: map<int, real>, q2: map<int, real>, treeJoints: seq<Vec3>)
    requires |treeJoints| >= 7
    requires forall c :: c in ReadCoordinates ==> Coord(q1, c) == Coord(q2, c)
    ensures CalculateModelPoseFromCoordinates(q1, treeJoints) == CalculateModelPoseFromCoordinates(q2, treeJoints)
  {
    var p1 := CalculateModelPoseFromCoordinates(q1, treeJoints);
    var p2 := CalculateModelPoseFromCoordinates(q2, treeJoints);
    forall k | k in PosedJoints
      ensures p1[k] == p2[k]
    {
      JointCoordinatesAreRead(k);
      LocalTransformDependsOnlyOnItsInputs(q1, treeJoints, q2, treeJoints, k);
    }
    assert p1.Keys == p2.Keys;
  }

  /** The pelvis rotations and the left-leg coordinates are never read:
      setting any of them leaves the pose unchanged. */
  lemma UnreadCoordinateIgnored(q: map<int, real>, c: int, v: real, treeJoints: seq<Vec3>)
    requires |treeJoints| >= 7
    requires c !in ReadCoordinates
    ensures CalculateModelPoseFromCoordinates(q[c := v], treeJoints)
            == CalculateModelPoseFromCoordinates(q, treeJoints)
  {
    PoseDependsOnlyOnReadCoordinates(q[c := v], q, treeJoints);
  }

  /** An absent coordinate acts as an angle or offset of 0: adding it with
      value 0 leaves the pose unchanged. */
  lemma AbsentCoordinateIsZero(q: map<int, real>, c: int, treeJoints: seq<Vec3>)
    requires |treeJoints| >= 7
    requires c !in q
    ensures CalculateModelPoseFromCoordinates(q[c := 0.0], treeJoints)
            == CalculateModelPoseFromCoordinates(q, treeJoints)
  {
    PoseDependsOnlyOnReadCoordinates(q[c := 0.0], q, treeJoints);
  }

  // ---------------------------------------------------------------------
  // The shape of each local transform

  /** The rotating joints of the pose: the right hip and the back are ball
      joints, the right knee and ankle hinges about Z. */
  lemma PoseJointKinds(q: map<int, real>, treeJoints: seq<Vec3>)
    requires |treeJoints| >= 7
    ensures CalculateModelPoseFromCoordinates(q, treeJoints)[POINT2]
            == BallJoint(treeJoints[0], Coord(q, HIP_R_ADD), Coord(q, HIP_R_ROT), Coord(q, HIP_R_FLEX))
    ensures CalculateModelPoseFromCoordinates(q, treeJoints)[POINT3] == Hinge(treeJoints[1], Coord(q, KNEE_R_FLEX))
    ensures CalculateModelPoseFromCoordinates(q, treeJoints)[POINT4] == Hinge(treeJoints[2], Coord(q, ANKLE_R_FLEX))
    ensures CalculateModelPoseFromCoordinates(q, treeJoints)[POINT7]
            == BallJoint(treeJoints[6], Coord(q, LUMBAR_BEND), Coord(q, LUMBAR_ROT), Coord(q, LUMBAR_FLEX))
  {
  }

  /** The right hip is a ball joint: undoing its offset leaves exactly an
      X-Y-Z rotation by the hip's adduction, rotation and flexion. */
  lemma HipSeparates(q: map<int, real>, treeJoints: seq<Vec3>)
    requires |treeJoints| >= 7
    ensures Mul(Inv(Translate(treeJoints[0])), CalculateModelPoseFromCoordinates(q, treeJoints)[POINT2])
            == RotationXYZ(Coord(q, HIP_R_ADD), Coord(q, HIP_R_ROT), Coord(q, HIP_R_FLEX))
  {
    PoseJointKinds(q, treeJoints);
    BallJointRotation(treeJoints[0], Coord(q, HIP_R_ADD), Coord(q, HIP_R_ROT), Coord(q, HIP_R_FLEX));
  }

  /** The back is a ball joint: undoing its offset leaves exactly an X-Y-Z
      rotation by the lumbar bending, rotation and flexion. */
  lemma BackSeparates(q: map<int, real>, treeJoints: seq<Vec3>)
    requires |treeJoints| >= 7
    ensures Mul(Inv(Translate(treeJoints[6])), CalculateModelPoseFromCoordinates(q, treeJoints)[POINT7])
            == RotationXYZ(Coord(q, LUMBAR_BEND), Coord(q, LUMBAR_ROT), Coord(q, LUMBAR_FLEX))
  {
    PoseJointKinds(q, treeJoints);
    BallJointRotation(treeJoints[6], Coord(q, LUMBAR_BEND), Coord(q, LUMBAR_ROT), Coord(q, LUMBAR_FLEX));
  }

  /** The right knee is a hinge: undoing its offset leaves exactly a Z
      rotation by the knee flexion. */
  lemma KneeSeparates(q: map<int, real>, treeJoints: seq<Vec3>)
    requires |treeJoints| >= 7
    ensures Mul(Inv(Translate(treeJoints[1])), CalculateModelPoseFromCoordinates(q, treeJoints)[POINT3])
            == Rotate(Z, Coord(q, KNEE_R_FLEX))
  {
    PoseJointKinds(q, treeJoints);
    HingeRotation(treeJoints[1], Coord(q, KNEE_R_FLEX));
  }

  /** The right ankle is a hinge: undoing its offset leaves exactly a Z
      rotation by the ankle flexion. */
  lemma AnkleSeparates(q: map<int, real>, treeJoints: seq<Vec3>)
    requires |treeJoints| >= 7
    ensures Mul(Inv(Translate(treeJoints[2])), CalculateModelPoseFromCoordinates(q, treeJoints)[POINT4])
            == Rotate(Z, Coord(q, ANKLE_R_FLEX))
  {
    PoseJointKinds(q, treeJoints);
    HingeRotation(treeJoints[2], Coord(q, ANKLE_R_FLEX));
  }

  /** Undoing the offset of a ball joint leaves its X-Y-Z rotation. */
  lemma BallJointRotation(offset: Vec3, x: real, y: real, z: real)
    ensures Mul(Inv(Translate(offset)), BallJoint(offset, x, y, z)) == RotationXYZ(x, y, z)
  {
    var t := Translate(offset);
    var rx := Rotate(X, x);
    var ry := Rotate(Y, y);
    var rz := Rotate(Z, z);
    MulAssociative(t, rx, ry);
    MulAssociative(t, Mul(rx, ry), rz);
    Undo(t, Mul(Mul(rx, ry), rz));
  }

  /** Undoing the offset of a hinge leaves its Z rotation. */
  lemma HingeRotation(offset: Vec3, z: real)
    ensures Mul(Inv(Translate(offset)), Hinge(offset, z)) == Rotate(Z, z)
  {
    Undo(Translate(offset), Rotate(Z, z));
  }

  /** `inverse(a) * (a * b) == b`. */
  lemma Undo(a: Mat, b: Mat)
    ensures Mul(Inv(a), Mul(a, b)) == b
  {
    MulAssociative(Inv(a), a, b);
    MulInverseLeft(a);
    MulIdentityLeft(b);
  }

  // ---------------------------------------------------------------------
  // The binding pose

  /** The default pose used to bind the skeleton to the mesh. */
  const BindingPose: map<int, real> :=
    map c | 0 <= c < DOFS && c != PELVIS_ROT_X && c != PELVIS_ROT_Y && c != PELVIS_ROT_Z :: BindingValue(c)

  /** The angle the binding pose gives a coordinate: flexed hips and knees, flexed ankles, 0 elsewhere. */
  function BindingValue(c: int): real
  {
    if c == HIP_R_FLEX || c == HIP_L_FLEX then 3.0
    else if c == HIP_R_ADD || c == HIP_L_ADD then -5.0
    else if c == KNEE_R_FLEX || c == KNEE_L_FLEX then -15.0
    else if c == ANKLE_R_FLEX || c == ANKLE_L_FLEX then 15.0
    else 0.0
  }

  /** The binding pose sets every coordinate except the three pelvis rotations. */
  lemma BindingPoseKeys()
    ensures BindingPose.Keys == {0, 1, 2, 6, 7, 8, 9, 10, 11, 12, 13, 14, 15, 16, 17, 18}
  {
  }

  /** The binding pose entry by entry: the root at the origin, both hips
      flexed by 3 and adducted by -5 degrees, both knees at -15 and both
      ankles at 15 degrees, the hip rotations and the back straight. */
  lemma BindingPoseEntries()
    ensures BindingPose[BONE1_TRA_X] == 0.0 && BindingPose[BONE1_TRA_Y] == 0.0 && BindingPose[BONE1_TRA_Z] == 0.0
    ensures BindingPose[HIP_R_FLEX] == 3.0 && BindingPose[HIP_R_ADD] == -5.0 && BindingPose[HIP_R_ROT] == 0.0
    ensures BindingPose[KNEE_R_FLEX] == -15.0 && BindingPose[ANKLE_R_FLEX] == 15.0
    ensures BindingPose[HIP_L_FLEX] == 3.0 && BindingPose[HIP_L_ADD] == -5.0 && BindingPose[HIP_L_ROT] == 0.0
    ensures BindingPose[KNEE_L_FLEX] == -15.0 && BindingPose[ANKLE_L_FLEX] == 15.0
    ensures BindingPose[LUMBAR_FLEX] == 0.0 && BindingPose[LUMBAR_BEND] == 0.0 && BindingPose[LUMBAR_ROT] == 0.0
  {
  }

  /** At the binding pose the root sits at the origin. */
  lemma BindingPoseRoot(treeJoints: seq<Vec3>)
    requires |treeJoints| >= 7
    ensures CalculateModelPoseFromCoordinates(BindingPose, treeJoints)[ROOT] == Translate(Vec3(0.0, 0.0, 0.0))
  {
    assert BindingPose[BONE1_TRA_X] == 0.0 && BindingPose[BONE1_TRA_Y] == 0.0;
    assert BindingPose[BONE1_TRA_Z] == 0.0;
  }

  /** The binding pose leaves the pelvis rotations out, so they read as 0. */
  lemma BindingPoseOmitsPelvis()
    ensures PELVIS_ROT_X !in BindingPose && Coord(BindingPose, PELVIS_ROT_X) == 0.0
    ensures PELVIS_ROT_Y !in BindingPose && Coord(BindingPose, PELVIS_ROT_Y) == 0.0
    ensures PELVIS_ROT_Z !in BindingPose && Coord(BindingPose, PELVIS_ROT_Z) == 0.0
  {
  }
}
