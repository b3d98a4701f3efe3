/**
 * The mnemonic indices of the animation core: generalized coordinates,
 * joints and bodies, numbered as their enumerations number them.
 */
module Names {

  // Generalized coordinates (CoordinateName). Only the indices matter.
  const BONE1_TRA_X: int := 0
  const BONE1_TRA_Y: int := 1
  const BONE1_TRA_Z: int := 2
  const PELVIS_ROT_X: int := 3
  const PELVIS_ROT_Y: int := 4
  const PELVIS_ROT_Z: int := 5
  const HIP_R_FLEX: int := 6
  const HIP_R_ADD: int := 7
  const HIP_R_ROT: int := 8
  const KNEE_R_FLEX: int := 9
  const ANKLE_R_FLEX: int := 10
  const HIP_L_FLEX: int := 11
  const HIP_L_ADD: int := 12
  const HIP_L_ROT: int := 13
  const KNEE_L_FLEX: int := 14
  const ANKLE_L_FLEX: int := 15
  const LUMBAR_FLEX: int := 16
  const LUMBAR_BEND: int := 17
  const LUMBAR_ROT: int := 18
  const DOFS: int := 19

  // Joints (JointName).
  const ROOT: nat := 0
  const POINT2: nat := 1
  const POINT3: nat := 2
  const POINT4: nat := 3
  const POINT5: nat := 4
  const POINT6: nat := 5
  const POINT7: nat := 6
  const POINT8: nat := 7
  const POINT9: nat := 8
  const POINT10: nat := 9
  const POINT11: nat := 10
  const POINT12: nat := 11
  /** The number of joint slots: the length of the skinning matrix array. */
  const JOINTS: nat := 12

  // Bodies (BodyName).
  const BONE1: nat := 0
  const BONE2: nat := 1
  const BONE3: nat := 2
  const BONE4: nat := 3
  const BONE5: nat := 4
  const BONE6: nat := 5
  const BONE7: nat := 6
  const BONE8: nat := 7
}
