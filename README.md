# Skeletal animation core of Tree-Dynamics

This project is a Dafny model of the skeletal animation core of Tree-Dynamics' `main.cpp`, with proofs about it. The core is the part that moves a skinned mesh with a joint hierarchy.

- **Joint hierarchy** (`Kinematics`).
  - A skeleton holds joints and bodies, each keyed by an integer id.
  - Each joint has an optional parent, a local transform and a world transform.
  - A joint's world transform is its local transform when it has no parent. Otherwise it is the parent's world transform times its local transform.
  - `setPose` overwrites local transforms.
  - `getJointWorldTransformations` refreshes every joint in ascending id order and then snapshots the world transforms.
  - `draw` refreshes each body's joint in ascending body id order and uploads the joint's world transform as the model matrix.
  - The skeleton assembled in `createContext` is a tree in which every parent has a smaller id than its child. The model proves that, for such a tree, one ascending pass gives every joint the product of the local transforms on its path from the root.
- **Pose solver** (`PoseSolver`).
  - It maps a sparse map of generalized coordinates to one local transform per posed joint.
  - Each local transform is a translation by the joint's offset, followed by rotations about X, then Y, then Z.
  - An absent coordinate reads as 0.
- **Skinning solver** (`Skinning`).
  - It poses the shared skeleton at the binding pose and snapshots it. It then poses the skeleton at the current coordinates and snapshots it again.
  - Every joint's slot becomes its current world transform times the inverse of its binding world transform. The other slots of the 12 stay the identity.
  - The model proves three things about the result:
    - each slot carries the binding world transform to the current one;
    - a slot is the identity exactly when its joint has not moved;
    - at the binding pose every slot is the identity.
- **Vertex classifier** (`Classifier`). It turns each vertex's height into a joint id through a ladder of thresholds.
- **Dual-array quicksort** (`Sorting`).
  - It is a Hoare-partition quicksort of `arr[left..right]` that moves the parallel `indices` vector along with the values.
  - The model works in place on arrays.
  - It is proved to sort the range, to permute the (value, index) pairs inside it, and to leave everything outside the range alone.

Matrices (`Matrices`) are kept abstract, as the free group over translations and axis rotations. A matrix is a reduced word of elementary factors and their inverses. The group laws are proved rather than assumed. Any equation that holds in the free group holds in every group, so it also holds for the invertible 4x4 matrices the program builds. Ordered-map iteration (`KeyOrder`) is modelled as visiting the least remaining key, and `Ascending(s)` is the resulting listing.

## Model

| member | source | states |
|---|---|---|
| Matrices.Translate | main.cpp:319-322 | `translate(mat4(), v)`: the elementary translation by `v` on its own |
| Matrices.Rotate | main.cpp:328-330 | `rotate(mat4(), radians(d), axis)`: the elementary rotation about `axis` by `d` degrees on its own |
| Matrices.Mul | main.cpp:331 | glm's matrix product `a * b`: the factors of `b` multiplied onto `a` one at a time, each cancelling a directly preceding inverse. The laws it obeys are the rows below |
| Matrices.Inv | main.cpp:411 | glm's `inverse`: the factors in reverse order, each one inverted, so the result has as many factors as the argument |
| Matrices.MulAssociative | main.cpp:331 | Matrix products can be regrouped, so the left-to-right product `tra * rotX * rotY * rotZ` is independent of grouping |
| Matrices.MulIdentityLeft | main.cpp:319 | The constant `Identity` (the empty word), which stands for the default-constructed `mat4()`, is a left unit of the product |
| Matrices.MulIdentityRight | main.cpp:409 | `Identity`, the value of each default-constructed slot, is a right unit of the product |
| Matrices.MulInverseRight | main.cpp:411-413 | A matrix times its `inverse` is the identity |
| Matrices.MulInverseLeft | main.cpp:411-413 | The `inverse` of a matrix times the matrix is the identity |
| Matrices.InvInvolutive | main.cpp:411 | Inverting twice gives the matrix back |
| Matrices.InvMul | main.cpp:411 | The inverse of a product is the product of the inverses in reverse order |
| KeyOrder.Ascending | main.cpp:181 | The keys of a set in the order `std::map` visits them: strictly increasing, every key of the set exactly once |
| KeyOrder.AscendingStep | main.cpp:181-183 | The visit starts at the least key and goes on with the ascending visit of the remaining keys, which is what a loop picking the least unvisited key does |
| KeyOrder.AscendingUnique | main.cpp:172 | A strictly increasing listing of exactly the keys of a set is the `std::map` order of that set; there is no other |
| Kinematics.UpdateWorld | main.cpp:111-120 | After the update, a root joint's world transform equals its local transform, and a child's equals the parent's current world transform times its local transform. Every other joint, and this joint's parent and local transform, are unchanged |
| Kinematics.Skeleton.UpdateWorldTransformation | main.cpp:111-120 | The skeleton's joints become exactly `UpdateWorld` of the old joints, and the bodies are unchanged. The skeleton invariant `Valid()` holds afterwards exactly when it held before |
| Kinematics.Posed | main.cpp:165-169 | Every joint named in the pose gets the given local transform with its parent and world transform kept. Every other joint is unchanged, and the key set is the same |
| Kinematics.PosedKeepsParents | main.cpp:165-169 | Posing does not change whether parents are present or whether they precede their children |
| Kinematics.Skeleton.SetPose | main.cpp:165-169 | Afterwards the joints are `Posed(old joints, pose)` and the bodies are unchanged. Every key of the pose must already be a joint. The skeleton invariant `Valid()` holds afterwards exactly when it held before |
| Kinematics.Refreshed | main.cpp:181-183 | The joints after `updateWorldTransformation` ran on each joint of a listing, in the listing's order. Ids, parent links and local transforms are unchanged |
| Kinematics.Skeleton.RefreshInAscendingOrder | main.cpp:181-183 | The joints become the result of refreshing every joint, one after the other, in ascending id order. The skeleton invariant `Valid()` holds afterwards exactly when it held before |
| Kinematics.Skeleton.SnapshotWorlds | main.cpp:185-187 | Returns a map with exactly the joint ids as keys, holding each joint's world transform |
| Kinematics.Skeleton.GetJointWorldTransformations | main.cpp:178-190 | Refreshes in ascending id order, then returns the snapshot of the refreshed world transforms with the key set of the joints. The bodies are unchanged. The skeleton invariant `Valid()` holds afterwards exactly when it held before |
| Kinematics.WorldFromRoot | main.cpp:111-120 | The world transform the update rule defines when parents precede their children: a root's local transform, otherwise the parent's world transform from the root times the joint's local transform |
| Kinematics.Product | main.cpp:117-118 | The ordered product of a list of matrices, the first leftmost; the identity for an empty list |
| Kinematics.RootWorldIsLocal | main.cpp:112-115 | After any refresh order that includes a root joint, the root's world transform is its local transform |
| Kinematics.RefreshIsWorldFromRoot | main.cpp:178-190 | When every parent is present and has a smaller id, refreshing in ascending id order gives every joint the product of the local transforms from its root down to it |
| Kinematics.RefreshListingIsWorldFromRoot | main.cpp:181-183 | The same holds for any strictly increasing listing of the joints |
| Kinematics.RefreshPrefixIsWorldFromRoot | main.cpp:181-183 | Part-way through an ascending refresh, every joint already refreshed holds its product from the root |
| Kinematics.PathFromRoot | main.cpp:54 | Following parent links from a joint reaches a root. The returned path starts at that root, ends at the joint, and links each entry to the previous one as its parent |
| Kinematics.WorldFromRootIsProduct | main.cpp:117-118 | The world transform from the root is the ordered product of the local transforms along the path from the root |
| Kinematics.WorldFromRootDependsOnShape | main.cpp:111-120 | The world transform from the root depends only on parents and local transforms, not on stale world transforms |
| Kinematics.Skeleton.DrawBody | main.cpp:128-135 | Refreshes only the body's joint and returns that joint's new world transform as the uploaded model matrix. The skeleton invariant `Valid()` holds afterwards exactly when it held before |
| Kinematics.Skeleton.Draw | main.cpp:171-176 | The joints become the result of refreshing each body's joint in ascending body id order. The returned model matrices are those uploaded body after body, and the bodies are unchanged. The skeleton invariant `Valid()` holds afterwards exactly when it held before |
| Kinematics.DrawOrder | main.cpp:172 | The joints `draw` refreshes: the joint of each body, in ascending body id order, one entry per body |
| Kinematics.ModelMatrices | main.cpp:133-135 | The model matrices uploaded while refreshing the listed joints in turn, one per joint: each joint's world transform right after its own refresh |
| Kinematics.ModelMatricesAt | main.cpp:133-135 | The i-th uploaded model matrix is the i-th joint's world transform right after the first i + 1 refreshes |
| Kinematics.RefreshedSnoc | main.cpp:181-183 | Refreshing one more joint applies exactly one more `updateWorldTransformation`, to that joint, on top of the earlier refreshes |
| Kinematics.ModelMatricesSnoc | main.cpp:171-176 | Drawing one more body appends exactly that body's fresh world transform to the uploads |
| Kinematics.DrawOrderIsAscending | main.cpp:172 | With one body per joint, numbered in joint order, drawing refreshes the joints in ascending id order |
| Kinematics.DrawUploadsWorldFromRoot | main.cpp:171-176 | In that case, and when parents precede their children, every uploaded model matrix is the product of the local transforms from the root down to the body's joint |
| Kinematics.RefreshUploadsWorldFromRoot | main.cpp:133-135 | Refreshing in ascending order and reading each joint right after its own refresh gives its product from the root |
| Kinematics.NewJoint | main.cpp:543-544 | A new joint has the given parent and identity transforms |
| Kinematics.BuildSkeleton | main.cpp:539-612 | The assembled skeleton has the seven joints ROOT to POINT7 with their parents and the seven bodies BONE1 and BONE3 to BONE8 with their joints. It is well formed, and every parent precedes its child |
| Kinematics.BuiltSkeletonWellFormed | main.cpp:543-612 | In any pose of the assembled skeleton, parents are present and smaller than their children, every body is attached, and every id is below `JOINTS` |
| Kinematics.BuiltJointParent | main.cpp:543-607 | Every joint of the constant `BuiltJoints`, the joints assembled in `createContext`, is at most POINT7. Its parent, if it has one, is a joint of it with a smaller id |
| Kinematics.BuiltBodyJoint | main.cpp:547-612 | Each body of the constant `BuiltBodies`, the bodies assembled in `createContext`, hangs on a joint of `BuiltJoints`: BONE1 on ROOT, and BONEn on the joint numbered one below it |
| Kinematics.BuiltOneBodyPerJoint | main.cpp:543-612 | The assembled skeleton carries exactly one body per joint, in joint order |
| Kinematics.BuiltBodiesKeys | main.cpp:552-612 | The bodies are BONE1 and BONE3 to BONE8; there is no BONE2 |
| Kinematics.DrawBuiltSkeleton | main.cpp:171-176 | Drawing the assembled skeleton in any pose uploads, body after body, the product of the local transforms from the root down to the body's joint, whatever world transforms were left from before |
| Kinematics.Skeleton.constructor | main.cpp:539 | A new skeleton has no joints and no bodies |
| PoseSolver.Coord | main.cpp:320-322 | Reading a coordinate of the by-value copy of `q` gives its value when present and 0 when absent |
| PoseSolver.RotationXYZ | main.cpp:328-331 | A rotation about X, then Y, then Z, by angles in degrees |
| PoseSolver.BallJoint | main.cpp:326-331 | A ball joint's local transform: `translate(offset) * rotX * rotY * rotZ`, multiplied left to right |
| PoseSolver.Hinge | main.cpp:334-337 | A hinge's local transform: `translate(offset) * rotZ` |
| PoseSolver.LocalTransform | main.cpp:319-395 | The local transform of each posed joint. ROOT translates by coordinates 0 to 2. POINT2 is a ball joint on `treeJoints[0]` with the right-hip angles. POINT3 and POINT4 are hinges on `treeJoints[1]` and `treeJoints[2]`. POINT5 and POINT6 translate by `treeJoints[4]` and `treeJoints[5]`. POINT7 is a ball joint on `treeJoints[6]` with the lumbar angles |
| PoseSolver.JointCoordinates | main.cpp:319-395 | The coordinates each posed joint reads |
| PoseSolver.JointOffsets | main.cpp:326-390 | The entries of `treeJoints` each posed joint reads. None reads `treeJoints[3]` |
| PoseSolver.CalculateModelPoseFromCoordinates | main.cpp:315-398 | The pose has exactly the keys ROOT to POINT7. ROOT is the translation by the three root coordinates, and POINT5 and POINT6 are pure translations by `treeJoints[4]` and `treeJoints[5]` |
| PoseSolver.PoseJointKinds | main.cpp:325-344 | The right hip and the back are ball joints (`translate * rotX * rotY * rotZ`), and the right knee and ankle are hinges (`translate * rotZ`), each with the coordinates and offset the source reads |
| PoseSolver.JointDependsOnlyOnItsInputs | main.cpp:315-398 | Two inputs that agree on the coordinates and offsets a joint reads give that joint the same local transform |
| PoseSolver.PoseDependsOnlyOnReadCoordinates | main.cpp:315-398 | The whole pose depends only on the eleven coordinates the solver reads |
| PoseSolver.UnreadCoordinateIgnored | main.cpp:356-386 | Setting a pelvis rotation or any left-leg coordinate leaves the pose unchanged |
| PoseSolver.AbsentCoordinateIsZero | main.cpp:320-322 | Adding an absent coordinate with the value 0 leaves the pose unchanged |
| PoseSolver.HipSeparates | main.cpp:325-331 | Undoing the right hip's offset leaves exactly the X-Y-Z rotation by adduction, rotation and flexion |
| PoseSolver.KneeSeparates | main.cpp:333-337 | Undoing the right knee's offset leaves exactly the Z rotation by the knee flexion |
| PoseSolver.AnkleSeparates | main.cpp:339-344 | Undoing the right ankle's offset leaves exactly the Z rotation by the ankle flexion |
| PoseSolver.BackSeparates | main.cpp:389-395 | Undoing the back's offset leaves exactly the X-Y-Z rotation by bending, rotation and flexion |
| PoseSolver.BallJointRotation | main.cpp:327-331 | For any ball joint, the inverse of the offset translation times the joint's transform is its rotation |
| PoseSolver.HingeRotation | main.cpp:335-337 | For any hinge, the inverse of the offset translation times the joint's transform is its Z rotation |
| PoseSolver.BindingValue | main.cpp:296-313 | The value the constant `BindingPose` gives each coordinate it sets |
| PoseSolver.BindingPoseKeys | main.cpp:296-313 | The constant `BindingPose`, the source's `bindingPose`, sets every coordinate except the three pelvis rotations |
| PoseSolver.BindingPoseEntries | main.cpp:296-313 | The binding pose value of each of the sixteen coordinates it sets |
| PoseSolver.BindingPoseRoot | main.cpp:296-299 | At the binding pose the root is the translation by zero |
| PoseSolver.BindingPoseOmitsPelvis | main.cpp:296-313 | The pelvis rotations are absent from the binding pose and read as 0 |
| Skinning.PoseAndRefresh | main.cpp:402-403 | The joints after `setPose(pose)` followed by `getJointWorldTransformations()`: the posed skeleton with its world transforms refreshed |
| Skinning.BoundJoints | main.cpp:401-403 | The skeleton posed at `bindingPose` and refreshed. It keeps its ids and can still take every pose |
| Skinning.CurrentJoints | main.cpp:405-407 | The bound skeleton posed at the coordinates `q` and refreshed. It keeps its ids |
| Skinning.SkinningMatrices | main.cpp:409-414 | There are `JOINTS` slots, and every slot without a joint in the binding snapshot is the identity |
| Skinning.ComposeSkinning | main.cpp:409-414 | Starting from identity slots, each joint of the binding snapshot gets its current world transform times the inverse of its binding world transform, and every other slot stays the identity |
| Skinning.BindSkeleton | main.cpp:401-403 | The skeleton is posed at the binding pose and refreshed, and the returned snapshot is of its world transforms |
| Skinning.PoseSkeleton | main.cpp:405-407 | The bound skeleton is posed at `q` and refreshed, and the returned snapshot is of its world transforms |
| Skinning.SkinningOf | main.cpp:409-416 | The slots composed from the two snapshots are the skinning matrices of the bound and current joints |
| Skinning.PoseAndSnapshot | main.cpp:402-403 | One `setPose` then `getJointWorldTransformations`: the joints are posed and refreshed, and the snapshot holds their world transforms |
| Skinning.CalculateSkinningTransformations | main.cpp:400-417 | The skeleton is left at the current coordinates' pose, refreshed, and the result is the skinning matrices between the binding-pose joints and the current joints |
| Skinning.SkinningFromSnapshots | main.cpp:410-414 | Slots filled from snapshots of two joint maps are the skinning matrices of those maps |
| Skinning.SkinningCarriesBindToCurrent | main.cpp:411-413 | A joint's skinning matrix times its binding world transform is its current world transform |
| Skinning.SkinningIdentityIffUnmoved | main.cpp:411-413 | A joint's skinning matrix is the identity if and only if its current world transform equals its binding one |
| Skinning.PosedOverrides | main.cpp:402-406 | A second pose that names every joint the first one names leaves nothing of the first pose's local transforms |
| Skinning.PoseAndRefreshIsWorldFromRoot | main.cpp:402-403 | After posing and refreshing, each world transform is the product of the posed local transforms from the root |
| Skinning.SecondPoseWins | main.cpp:401-407 | After the second pose and refresh, the world transforms are those of the second pose alone, whatever the first one was |
| Skinning.SkinningBetweenPoses | main.cpp:400-417 | A joint's skinning matrix is its world transform from the root at the second pose times the inverse of that at the first pose |
| Skinning.SkinningIsRelativeWorld | main.cpp:400-417 | End to end: a joint's skinning matrix is its world transform at `q` times the inverse of its world transform at the binding pose, each computed from the posed local transforms |
| Skinning.SkinningAtSamePoseIsIdentity | main.cpp:400-417 | Posing twice at the same pose makes every slot the identity |
| Skinning.SkinningAtBindingPoseIsIdentity | main.cpp:400-417 | At the binding pose, or at any coordinates that agree with it on the coordinates read, every slot is the identity |
| Skinning.SkeletonLeftAtCurrentPose | main.cpp:405-406 | After the computation the skeleton holds the local transforms of the current pose. Joints the solver does not pose keep their own |
| Skinning.BuiltSkeletonPoseable | main.cpp:543-612 | The assembled skeleton has every joint the solver poses, its parents precede their children, and every id is below `JOINTS` |
| Classifier.SkinningIndex | main.cpp:426-449 | The threshold ladder as written, where the first test that holds picks the joint. The result always names one of the `JOINTS` skinning transforms |
| Classifier.EffectiveBands | main.cpp:426-449 | The ladder as written gives ROOT if and only if y <= 2.5, POINT6 if and only if 2.5 < y < 2.75, POINT7 if and only if 2.75 <= y < 3.25, and POINT8 if and only if y >= 3.25 |
| Classifier.MiddleJointsNeverAssigned | main.cpp:429-440 | POINT2 to POINT5 are never assigned a vertex, and every vertex gets ROOT, POINT6, POINT7 or POINT8 |
| Classifier.ClassifierExamples | main.cpp:426-430 | A vertex at height 0.6 lies in POINT2's band but gets ROOT; a vertex at height 10 gets POINT8 |
| Classifier.CalculateSkinningIndices | main.cpp:419-452 | One index per vertex, in vertex order, and entry i depends only on vertex i's height |
| Sorting.Mid | main.cpp:1000 | The pivot position lies between `left` and `right` |
| Sorting.Swap | main.cpp:1015-1022 | Swaps the values at `i` and `j` and the indices at `i` and `j`, and nothing else |
| Sorting.SwapRearranges | main.cpp:1015-1022 | Such a swap keeps the multiset of (value, index) pairs and changes nothing outside the range |
| Sorting.ScanUp | main.cpp:1008 | The scan stops inside the range, at the first value that is not below the pivot |
| Sorting.ScanDown | main.cpp:1010 | The scan stops inside the range, at the first value, going down, that is not above the pivot |
| Sorting.Partition | main.cpp:997-1027 | The pairs are only rearranged inside the range. Everything before `i` is at most the pivot and everything after `j` at least the pivot. When the range is non-empty, `j < i` and both sides are strictly smaller than the range |
| Sorting.QuickSort | main.cpp:995-1039 | Afterwards `arr[left..right]` is non-decreasing, the (value, index) pairs are a permutation of the old ones within the range, and every position outside the range is unchanged |
| Sorting.SidesSorted | main.cpp:1031-1037 | Two sorted sides around a pivot, with everything on the left at most it and everything on the right at least it, make a sorted range |
| Sorting.RearrangedKeepsAtMost | main.cpp:1033-1037 | Sorting one side keeps an upper bound that held on a range containing it or disjoint from it |
| Sorting.RearrangedKeepsAtLeast | main.cpp:1033-1037 | Sorting one side keeps a lower bound that held on a range containing it or disjoint from it |
| Sorting.RearrangedRange | main.cpp:995-1039 | A rearrangement of the range keeps the multiset of pairs inside the range |
| Sorting.QuickSortExample | main.cpp:995-1039 | Sorting 3, 1, 2 with the indices 10, 20, 30 gives 1, 2, 3 with the indices 20, 30, 10 |

## Left out

- GLM numerics are not modelled. `translate`, `rotate`, `radians`, `inverse` and the float product are abstracted as the free group on translations and axis rotations. Equations proved here hold for the real matrices, but numeric rounding and singular matrices are not modelled.
- Float behaviour in the classifier and the sort is not modelled. Heights and sort values are `real`, so NaN and float comparison quirks are out. The classifier's ids are stored as `nat`, whereas the source pushes them into a `vector<float>`.
- GL uploads are left out: `glUniformMatrix4fv` of the view and projection matrices and the drawables' `bind`/`draw` calls. `Skeleton.Draw` returns the model matrices it would upload instead.
- The skin mesh and the OBJ loader are left out. `CalculateSkinningIndices` takes the vertex positions as a parameter instead of reading `skeletonSkin->indexedVertices`.
- The numeric contents of `treeJoints` (built by `defineJointPoints`) are left out. The offsets are a parameter of at least seven entries.
- The shared global `skeleton` is passed explicitly to the skinning methods.
- Destructors and the ownership of the heap-allocated joints, bodies and drawables are left out. A parent link is a joint id, not an address.
- The shader uniform locations stored by the `Skeleton` constructor are left out.
- The body drawables created during the skeleton assembly are left out.
- A joint's third transform, `jointBindTransformation` (main.cpp:54-56), is left out, because nothing in main.cpp reads or writes it.
- Kinematics.Skeleton.SetPose requires every key of the pose to be a joint. In the source, `operator[]` would insert a null entry for a missing key and then dereference it, so that case has no behaviour to model.
- Skinning.CalculateSkinningTransformations requires every joint id to be below `JOINTS`, because the source writes slot `id` of a 12-slot vector without a bounds check.
- Sorting.QuickSort requires `left` and `right` to be valid positions. The source reads `arr[(left + right) / 2]` and the scanned elements without bounds checks.
- The per-frame driver in `mainLoop`, the camera, the lighting and material uploads, and the window and context setup are outside this model.

## Notes

- The classifier's first test, `v.y <= 2.5` at main.cpp:426, catches every height up to 2.5. This swallows the bands written for POINT2 to POINT5 at main.cpp:429-440: [0.25, 0.75), [0.75, 1.25), [1.25, 1.75) and [1.75, 2.25).
- Together with [2.25, 2.75) and [2.75, 3.25) at main.cpp:441-446, those branches form a contiguous ladder of half-open bands 0.5 wide starting at 0.25. The first test breaks that pattern.
- The model follows the code as written:
  - `Classifier.SkinningIndex` is the ladder at main.cpp:426-449;
  - `Classifier.EffectiveBands` states the bands it actually produces;
  - `Classifier.MiddleJointsNeverAssigned` shows that POINT2 to POINT5 never get a vertex;
  - `Classifier.ClassifierExamples` shows a height of 0.6, inside POINT2's written band, going to ROOT.
- The pose solver poses only the right leg and the back. The left-leg block at main.cpp:356-386 is commented out, so its coordinates are never read (`PoseSolver.UnreadCoordinateIgnored`).
- The assembled skeleton has no body BONE2: BONE1 hangs on ROOT and BONE3 to BONE8 on POINT2 to POINT7.
- The two inner scans of the partition are written as the methods `Sorting.ScanUp` and `Sorting.ScanDown`.
