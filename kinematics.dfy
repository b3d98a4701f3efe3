/**
 * The joint hierarchy of the skeleton and the propagation of world
 * transforms down it.
 *
 * A joint is kept as a record in the skeleton's map from joint id to joint,
 * and its parent link is the parent's id. A joint's world transform is its
 * local transform when it has no parent, and otherwise the parent's world
 * transform times its local transform. World transforms are recomputed only
 * on request: `GetJointWorldTransformations` refreshes every joint in
 * ascending id order, and `Draw` refreshes each body's joint in ascending
 * body id order. When every parent has a smaller id than its child, as in
 * the assembled skeleton, one ascending pass is parent-before-child, and
 * every world transform becomes the product of the local transforms on the
 * path from the root.
 */
module Kinematics {
  import opened Matrices
  import opened KeyOrder
  import opened Names

  datatype Option<T> = None | Some(value: T)

  /** A joint: the id of its parent (None for a root), its transform
      relative to the parent, and its last computed world transform. */
  datatype Joint = Joint(parent: Option<nat>, local: Mat, world: Mat)

  /** A body: the id of the joint it is drawn with. Its drawables are left out. */
  datatype Body = Body(joint: nat)

  /** Every parent link names a joint of the skeleton. */
  ghost predicate ParentsPresent(joints: map<nat, Joint>)
  {
    forall k :: k in joints && joints[k].parent.Some? ==> joints[k].parent.value in joints
  }

  /** Every parent has a smaller id than its child. */
  ghost predicate ParentsPrecede(joints: map<nat, Joint>)
  {
    forall k :: k in joints && joints[k].parent.Some? ==> joints[k].parent.value < k
  }

  /** Every body is attached to a joint of the skeleton. */
  ghost predicate BodiesAttached(bodies: map<nat, Body>, joints: map<nat, Joint>)
  {
    forall b :: b in bodies ==> bodies[b].joint in joints
  }

  /** The same joints, parents and local transforms; world transforms may differ. */
  ghost predicate SameShape(a: map<nat, Joint>, b: map<nat, Joint>)
  {
    && a.Keys == b.Keys
    && forall k :: k in a ==> a[k].parent == b[k].parent && a[k].local == b[k].local
  }

  lemma ShapeKeepsParents(a: map<nat, Joint>, b: map<nat, Joint>)
    requires SameShape(a, b)
    ensures ParentsPresent(a) <==> ParentsPresent(b)
    ensures ParentsPrecede(a) <==> ParentsPrecede(b)
  {
  }

  // ---------------------------------------------------------------------
  // Specification functions

  /** The joints after `Joint::updateWorldTransformation` ran on joint `id`:
      only that joint's world transform changes, to its local transform for a
      root and to the parent's current world transform times its local
      transform otherwise. */
  function UpdateWorld(joints: map<nat, Joint>, id: nat): (r: map<nat, Joint>)
    requires id in joints && ParentsPresent(joints)
    ensures SameShape(r, joints)
    ensures joints[id].parent.None? ==> r[id].world == joints[id].local
    ensures joints[id].parent.Some? ==>
              r[id].world == Mul(joints[joints[id].parent.value].world, joints[id].local)
    ensures forall k :: k in joints && k != id ==> r[k] == joints[k]
  {
    var joint := joints[id];
    var world := match joint.parent
      case None => joint.local
      case Some(p) => Mul(joints[p].world, joint.local);
    joints[id := joint.(world := world)]
  }

  /** The joints after refreshing the joints listed in `order`, in that order. */
  function Refreshed(joints: map<nat, Joint>, order: seq<nat>): (r: map<nat, Joint>)
    requires ParentsPresent(joints)
    requires forall k :: k in order ==> k in joints
    ensures SameShape(r, joints)
    decreases |order|
  {
    if order == [] then joints
    else
      var before := Refreshed(joints, order[..|order| - 1]);
      ShapeKeepsParents(before, joints);
      UpdateWorld(before, order[|order| - 1])
  }

  /** The joints after `setPose(pose)`: the listed joints take the given
      local transforms; nothing else changes. */
  function Posed(joints: map<nat, Joint>, pose: map<nat, Mat>): (r: map<nat, Joint>)
    requires pose.Keys <= joints.Keys
    ensures r.Keys == joints.Keys
    ensures forall k :: k in pose ==> r[k] == joints[k].(local := pose[k])
    ensures forall k :: k in joints && k !in pose ==> r[k] == joints[k]
  {
    map k | k in joints :: if k in pose then joints[k].(local := pose[k]) else joints[k]
  }

  /** `setPose` keeps the joints and their parent links. */
  lemma PosedKeepsParents(joints: map<nat, Joint>, pose: map<nat, Mat>)
    requires pose.Keys <= joints.Keys
    ensures ParentsPresent(Posed(joints, pose)) <==> ParentsPresent(joints)
    ensures ParentsPrecede(Posed(joints, pose)) <==> ParentsPrecede(joints)
  {
    var r := Posed(joints, pose);
    assert forall k :: k in joints ==> r[k].parent == joints[k].parent;
  }

  /** Posing two skeletons of the same shape with the same pose gives two
      skeletons of the same shape. */
  lemma PosedKeepsShape(a: map<nat, Joint>, b: map<nat, Joint>, pose: map<nat, Mat>)
    requires SameShape(a, b) && pose.Keys <= a.Keys
    ensures SameShape(Posed(a, pose), Posed(b, pose))
  {
  }

  /** The product of the local transforms on the path from the root down
      to joint `k`, the root's first. */
  function WorldFromRoot(joints: map<nat, Joint>, k: nat): Mat
    requires ParentsPresent(joints) && ParentsPrecede(joints) && k in joints
    decreases k
  {
    match joints[k].parent
    case None => joints[k].local
    case Some(p) => Mul(WorldFromRoot(joints, p), joints[k].local)
  }

  /** The joints from a root down to `k`, following parent links. */
  function PathFromRoot(joints: map<nat, Joint>, k: nat): (path: seq<nat>)
    requires ParentsPresent(joints) && ParentsPrecede(joints) && k in joints
    ensures |path| > 0 && path[|path| - 1] == k
    ensures forall i :: 0 <= i < |path| ==> path[i] in joints
    ensures joints[path[0]].parent.None?
    ensures forall i :: 0 < i < |path| ==> joints[path[i]].parent == Some(path[i - 1])
    decreases k
  {
    match joints[k].parent
    case None => [k]
    case Some(p) => PathFromRoot(joints, p) + [k]
  }

  /** The local transforms of the joints listed in `path`. */
  function Locals(joints: map<nat, Joint>, path: seq<nat>): (ms: seq<Mat>)
    requires forall i :: 0 <= i < |path| ==> path[i] in joints
    ensures |ms| == |path| && forall i :: 0 <= i < |path| ==> ms[i] == joints[path[i]].local
  {
    seq(|path|, i requires 0 <= i < |path| => joints[path[i]].local)
  }

  /** The product `ms[0] * ms[1] * ... * ms[|ms| - 1]`. */
  function Product(ms: seq<Mat>): Mat
    decreases |ms|
  {
    if ms == [] then Identity else Mul(ms[0], Product(ms[1..]))
  }

  /** The joints of the bodies listed in `ids`, in the same order. */
  function JointsOf(bodies: map<nat, Body>, ids: seq<nat>): (order: seq<nat>)
    requires forall b :: b in ids ==> b in bodies
    ensures |order| == |ids|
    ensures forall i :: 0 <= i < |ids| ==> order[i] == bodies[ids[i]].joint
  {
    seq(|ids|, i requires 0 <= i < |ids| => bodies[ids[i]].joint)
  }

  /** The joints `Skeleton::draw` refreshes: each body's joint, in
      ascending body id order. */
  ghost function DrawOrder(bodies: map<nat, Body>): (order: seq<nat>)
    ensures |order| == |bodies|
  {
    JointsOf(bodies, Ascending(bodies.Keys))
  }

  /** The model matrices uploaded while refreshing the joints of `order` in
      turn: each refresh uploads its joint's new world transform. */
  function ModelMatrices(joints: map<nat, Joint>, order: seq<nat>): (ms: seq<Mat>)
    requires ParentsPresent(joints)
    requires forall k :: k in order ==> k in joints
    ensures |ms| == |order|
    decreases |order|
  {
    if order == [] then []
    else ModelMatrices(joints, order[..|order| - 1]) + [Refreshed(joints, order)[order[|order| - 1]].world]
  }

  /** The i-th upload is the i-th joint's world transform right after the
      first i + 1 refreshes. */
  lemma {:induction false} ModelMatricesAt(joints: map<nat, Joint>, order: seq<nat>, i: nat)
    requires ParentsPresent(joints)
    requires forall k :: k in order ==> k in joints
    requires i < |order|
    ensures ModelMatrices(joints, order)[i] == Refreshed(joints, order[..i + 1])[order[i]].world
    decreases |order|
  {
    if i < |order| - 1 {
      var prefix := order[..|order| - 1];
      calc {
        ModelMatrices(joints, order)[i];
      == { ModelMatricesEarlier(joints, order, i); }
        ModelMatrices(joints, prefix)[i];
      == { ModelMatricesAt(joints, prefix, i); }
        Refreshed(joints, prefix[..i + 1])[prefix[i]].world;
      == { assert prefix[..i + 1] == order[..i + 1]; }
        Refreshed(joints, order[..i + 1])[order[i]].world;
      }
    } else {
      calc {
        ModelMatrices(joints, order)[i];
      == { ModelMatricesLast(joints, order); }
        Refreshed(joints, order)[order[i]].world;
      == { assert order[..i + 1] == order; }
        Refreshed(joints, order[..i + 1])[order[i]].world;
      }
    }
  }

  /** The last upload is the last joint's world transform after every refresh. */
  lemma ModelMatricesLast(joints: map<nat, Joint>, order: seq<nat>)
    requires ParentsPresent(joints)
    requires forall k :: k in order ==> k in joints
    requires order != []
    ensures ModelMatrices(joints, order)[|order| - 1] == Refreshed(joints, order)[order[|order| - 1]].world
  {
  }

  /** The uploads before the last are those of the shorter refresh. */
  lemma ModelMatricesEarlier(joints: map<nat, Joint>, order: seq<nat>, i: nat)
    requires ParentsPresent(joints)
    requires forall k :: k in order ==> k in joints
    requires i < |order| - 1
    ensures ModelMatrices(joints, order)[i] == ModelMatrices(joints, order[..|order| - 1])[i]
  {
    var earlier := ModelMatrices(joints, order[..|order| - 1]);
    var last := Refreshed(joints, order)[order[|order| - 1]].world;
    assert ModelMatrices(joints, order) == earlier + [last];
    AppendKeepsIndex(earlier, last, i);
  }

  /** Appending leaves the earlier elements in place. */
  lemma AppendKeepsIndex<T>(s: seq<T>, x: T, i: nat)
    requires i < |s|
    ensures (s + [x])[i] == s[i]
  {
  }

  /** Refreshing one more joint extends the refresh by one update. */
  lemma {:induction false} RefreshedSnoc(joints: map<nat, Joint>, order: seq<nat>, id: nat)
    requires ParentsPresent(joints)
    requires forall k :: k in order ==> k in joints
    requires id in joints
    ensures ParentsPresent(Refreshed(joints, order))
    ensures Refreshed(joints, order + [id]) == UpdateWorld(Refreshed(joints, order), id)
  {
    ShapeKeepsParents(Refreshed(joints, order), joints);
    assert (order + [id])[..|order|] == order;
  }

  /** Uploading after one more refresh appends that joint's new world transform. */
  lemma {:induction false} ModelMatricesSnoc(joints: map<nat, Joint>, order: seq<nat>, id: nat)
    requires ParentsPresent(joints)
    requires forall k :: k in order ==> k in joints
    requires id in joints
    ensures ModelMatrices(joints, order + [id])
            == ModelMatrices(joints, order) + [Refreshed(joints, order + [id])[id].world]
  {
    assert (order + [id])[..|order|] == order;
  }

  /** The progress of the refresh loop of `getJointWorldTransformations`
      from the joints `start`: the ids in `done` have been refreshed, in
      ascending order, and those in `todo` remain. */
  ghost predicate RefreshedSoFar(start: map<nat, Joint>, done: seq<nat>, todo: set<nat>,
                                 joints: map<nat, Joint>)
  {
    && ParentsPresent(start)
    && todo <= start.Keys
    && (forall k :: k in done ==> k in start)
    && done + Ascending(todo) == Ascending(start.Keys)
    && joints == Refreshed(start, done)
  }

  /** Nothing is refreshed yet. */
  lemma RefreshedSoFarStart(start: map<nat, Joint>)
    requires ParentsPresent(start)
    ensures RefreshedSoFar(start, [], start.Keys, start)
  {
  }

  /** Refreshing the least remaining id. */
  lemma RefreshedSoFarStep(start: map<nat, Joint>, done: seq<nat>, todo: set<nat>,
                           joints: map<nat, Joint>, id: nat)
    requires RefreshedSoFar(start, done, todo, joints)
    requires id in todo && IsLeast(id, todo)
    ensures ParentsPresent(joints) && id in joints
    ensures RefreshedSoFar(start, done + [id], todo - {id}, UpdateWorld(joints, id))
  {
    AscendingAdvance(done, todo, id, start.Keys);
    RefreshedSnoc(start, done, id);
  }

  /** Once every id is refreshed, they were refreshed in ascending order. */
  lemma RefreshedSoFarEnd(start: map<nat, Joint>, done: seq<nat>, joints: map<nat, Joint>)
    requires RefreshedSoFar(start, done, {}, joints)
    ensures done == Ascending(start.Keys)
  {
    AscendingEmpty();
    assert done + [] == done;
  }

  /** The progress of `Skeleton::draw` from the joints `start`: the bodies
      in `done` have been drawn, in ascending id order, and those in `todo`
      remain; `joints` and the uploads `ms` are what drawing `done` gives. */
  ghost predicate DrawnSoFar(start: map<nat, Joint>, bodies: map<nat, Body>, done: seq<nat>,
                             todo: set<nat>, joints: map<nat, Joint>, ms: seq<Mat>)
  {
    && ParentsPresent(start) && BodiesAttached(bodies, start)
    && todo <= bodies.Keys
    && (forall b :: b in done ==> b in bodies)
    && done + Ascending(todo) == Ascending(bodies.Keys)
    && (forall k :: k in JointsOf(bodies, done) ==> k in start)
    && joints == Refreshed(start, JointsOf(bodies, done))
    && ms == ModelMatrices(start, JointsOf(bodies, done))
  }

  /** Nothing is drawn yet. */
  lemma DrawnSoFarStart(start: map<nat, Joint>, bodies: map<nat, Body>)
    requires ParentsPresent(start) && BodiesAttached(bodies, start)
    ensures DrawnSoFar(start, bodies, [], bodies.Keys, start, [])
  {
  }

  /** Drawing the least remaining body refreshes its joint and uploads that
      joint's new world transform. */
  lemma DrawnSoFarStep(start: map<nat, Joint>, bodies: map<nat, Body>, done: seq<nat>,
                       todo: set<nat>, joints: map<nat, Joint>, ms: seq<Mat>, b: nat)
    requires DrawnSoFar(start, bodies, done, todo, joints, ms)
    requires b in todo && IsLeast(b, todo)
    ensures ParentsPresent(joints) && bodies[b].joint in joints
    ensures DrawnSoFar(start, bodies, done + [b], todo - {b}, UpdateWorld(joints, bodies[b].joint),
                       ms + [UpdateWorld(joints, bodies[b].joint)[bodies[b].joint].world])
  {
    AscendingAdvance(done, todo, b, bodies.Keys);
    DrawStep(start, bodies, done, b);
  }

  /** The joints and uploads after drawing one more body. */
  lemma DrawStep(start: map<nat, Joint>, bodies: map<nat, Body>, done: seq<nat>, b: nat)
    requires ParentsPresent(start) && BodiesAttached(bodies, start)
    requires forall x :: x in done ==> x in bodies
    requires b in bodies
    ensures JointsOf(bodies, done + [b]) == JointsOf(bodies, done) + [bodies[b].joint]
    ensures ParentsPresent(Refreshed(start, JointsOf(bodies, done)))
    ensures Refreshed(start, JointsOf(bodies, done + [b]))
            == UpdateWorld(Refreshed(start, JointsOf(bodies, done)), bodies[b].joint)
    ensures ModelMatrices(start, JointsOf(bodies, done + [b]))
            == ModelMatrices(start, JointsOf(bodies, done))
               + [Refreshed(start, JointsOf(bodies, done + [b]))[bodies[b].joint].world]
  {
    var order := JointsOf(bodies, done);
    assert JointsOf(bodies, done + [b]) == order + [bodies[b].joint];
    RefreshedSnoc(start, order, bodies[b].joint);
    ModelMatricesSnoc(start, order, bodies[b].joint);
  }

  /** Once every body is drawn, the bodies were drawn in ascending id order. */
  lemma DrawnSoFarEnd(start: map<nat, Joint>, bodies: map<nat, Body>, done: seq<nat>,
                      joints: map<nat, Joint>, ms: seq<Mat>)
    requires DrawnSoFar(start, bodies, done, {}, joints, ms)
    ensures done == Ascending(bodies.Keys)
  {
    AscendingEmpty();
    assert done + [] == done;
  }

  // ---------------------------------------------------------------------
  // World transforms after a refresh

  /** A root's world transform is its local transform once it has been
      refreshed, whatever the order of the refresh and whatever the other
      joints' parents. */
  lemma {:induction false} RootWorldIsLocal(joints: map<nat, Joint>, order: seq<nat>, k: nat)
    requires ParentsPresent(joints)
    requires forall k :: k in order ==> k in joints
    requires k in order && joints[k].parent.None?
    ensures Refreshed(joints, order)[k].world == joints[k].local
    decreases |order|
  {
    var m := |order| - 1;
    var before := order[..m];
    var r := Refreshed(joints, before);
    ShapeKeepsParents(r, joints);
    if order[m] == k {
      calc {
        Refreshed(joints, order)[k].world;
        UpdateWorld(r, k)[k].world;
        r[k].local;
        joints[k].local;
      }
    } else {
      assert k in before by {
        var i :| 0 <= i < |order| && order[i] == k;
        assert before[i] == k;
      }
      calc {
        Refreshed(joints, order)[k].world;
        UpdateWorld(r, order[m])[k].world;
        r[k].world;
      == { RootWorldIsLocal(joints, before, k); }
        joints[k].local;
      }
    }
  }

  /** When parents precede children and `order` lists every joint in
      ascending order, each of the first n joints of `order` holds the
      product of the local transforms from its root once the first n
      joints have been refreshed. */
  lemma {:induction false} RefreshPrefixIsWorldFromRoot(joints: map<nat, Joint>, order: seq<nat>, n: nat)
    requires ParentsPresent(joints) && ParentsPrecede(joints)
    requires StrictlyIncreasing(order)
    requires forall k :: k in joints <==> k in order
    requires n <= |order|
    ensures forall i :: 0 <= i < n ==>
              Refreshed(joints, order[..n])[order[i]].world == WorldFromRoot(joints, order[i])
    decreases n
  {
    if n > 0 {
      var m := n - 1;
      var id := order[m];
      RefreshPrefixIsWorldFromRoot(joints, order, m);
      RefreshedSnoc(joints, order[..m], id);
      assert order[..m] + [id] == order[..n];
      var before := Refreshed(joints, order[..m]);
      forall i | 0 <= i < n
        ensures Refreshed(joints, order[..n])[order[i]].world == WorldFromRoot(joints, order[i])
      {
        if i < m {
          assert order[i] < id;
        } else {
          match joints[id].parent
          case None =>
          case Some(p) =>
            assert p in order;
            var j :| 0 <= j < |order| && order[j] == p;
            assert j < m;
        }
      }
    }
  }

  /** After a refresh in ascending id order of a skeleton whose parents
      precede their children, every world transform is the product of the
      local transforms from the root. */
  lemma RefreshIsWorldFromRoot(joints: map<nat, Joint>)
    requires ParentsPresent(joints) && ParentsPrecede(joints)
    ensures forall k :: k in joints ==>
              Refreshed(joints, Ascending(joints.Keys))[k].world == WorldFromRoot(joints, k)
  {
    RefreshListingIsWorldFromRoot(joints, Ascending(joints.Keys));
  }

  /** The same, for any strictly increasing listing of the joints. */
  lemma RefreshListingIsWorldFromRoot(joints: map<nat, Joint>, order: seq<nat>)
    requires ParentsPresent(joints) && ParentsPrecede(joints)
    requires StrictlyIncreasing(order)
    requires forall k :: k in joints <==> k in order
    ensures forall k :: k in joints ==>
              Refreshed(joints, order)[k].world == WorldFromRoot(joints, k)
  {
    RefreshPrefixIsWorldFromRoot(joints, order, |order|);
    assert order[..|order|] == order;
    var after := Refreshed(joints, order);
    forall k | k in joints
      ensures after[k].world == WorldFromRoot(joints, k)
    {
      var i :| 0 <= i < |order| && order[i] == k;
    }
  }

  /** The world transform from the root depends only on the parents and the
      local transforms, not on any stale world transform. */
  lemma {:induction false} WorldFromRootDependsOnShape(a: map<nat, Joint>, b: map<nat, Joint>, k: nat)
    requires ParentsPresent(a) && ParentsPrecede(a) && SameShape(a, b) && k in a
    ensures ParentsPresent(b) && ParentsPrecede(b)
    ensures WorldFromRoot(a, k) == WorldFromRoot(b, k)
    decreases k
  {
    ShapeKeepsParents(a, b);
    match a[k].parent
    case None =>
    case Some(p) => WorldFromRootDependsOnShape(a, b, p);
  }

  /** Appending a factor to a product multiplies it on the right. */
  lemma {:induction false} ProductSnoc(ms: seq<Mat>, m: Mat)
    ensures Product(ms + [m]) == Mul(Product(ms), m)
    decreases |ms|
  {
    if ms == [] {
      assert [m][1..] == [];
      MulIdentityRight(m);
      MulIdentityLeft(m);
    } else {
      assert (ms + [m])[1..] == ms[1..] + [m];
      ProductSnoc(ms[1..], m);
      MulAssociative(ms[0], Product(ms[1..]), m);
    }
  }

  /** `WorldFromRoot` is the ordered product of the local transforms along
      the path from the root down to the joint. */
  lemma {:induction false} WorldFromRootIsProduct(joints: map<nat, Joint>, k: nat)
    requires ParentsPresent(joints) && ParentsPrecede(joints) && k in joints
    ensures WorldFromRoot(joints, k) == Product(Locals(joints, PathFromRoot(joints, k)))
    decreases k
  {
    var path := PathFromRoot(joints, k);
    match joints[k].parent
    case None =>
      ProductSnoc([], joints[k].local);
      MulIdentityLeft(joints[k].local);
      assert Locals(joints, path) == [] + [joints[k].local];
    case Some(p) =>
      var up := PathFromRoot(joints, p);
      WorldFromRootIsProduct(joints, p);
      assert Locals(joints, path) == Locals(joints, up) + [joints[k].local];
      ProductSnoc(Locals(joints, up), joints[k].local);
  }

  /** The bodies hang on distinct joints, in the same order as their ids,
      and every joint carries a body. */
  ghost predicate OneBodyPerJoint(bodies: map<nat, Body>, joints: map<nat, Joint>)
  {
    && BodiesAttached(bodies, joints)
    && (forall a, b :: a in bodies && b in bodies && a < b ==> bodies[a].joint < bodies[b].joint)
    && (forall k :: k in joints ==> exists b :: b in bodies && bodies[b].joint == k)
  }

  /** With one body per joint, in joint order, `Skeleton::draw` refreshes
      the joints in ascending id order. */
  lemma DrawOrderIsAscending(bodies: map<nat, Body>, joints: map<nat, Joint>)
    requires OneBodyPerJoint(bodies, joints)
    ensures DrawOrder(bodies) == Ascending(joints.Keys)
  {
    DrawOrderIncreasing(bodies, joints);
    DrawOrderCovers(bodies, joints);
    AscendingUnique(joints.Keys, DrawOrder(bodies));
  }

  /** Bodies in joint order are drawn with strictly increasing joint ids. */
  lemma DrawOrderIncreasing(bodies: map<nat, Body>, joints: map<nat, Joint>)
    requires OneBodyPerJoint(bodies, joints)
    ensures StrictlyIncreasing(DrawOrder(bodies))
  {
    var ids := Ascending(bodies.Keys);
    var order := DrawOrder(bodies);
    forall i, j | 0 <= i < j < |order|
      ensures order[i] < order[j]
    {
      assert ids[i] < ids[j];
    }
  }

  /** With one body per joint, the draw refreshes exactly the joints. */
  lemma DrawOrderCovers(bodies: map<nat, Body>, joints: map<nat, Joint>)
    requires OneBodyPerJoint(bodies, joints)
    ensures forall k :: k in joints <==> k in DrawOrder(bodies)
  {
    var ids := Ascending(bodies.Keys);
    var order := DrawOrder(bodies);
    forall k | k in joints
      ensures k in order
    {
      var b :| b in bodies && bodies[b].joint == k;
      var i :| 0 <= i < |ids| && ids[i] == b;
      assert order[i] == k;
    }
  }

  /** With one body per joint, in joint order, and parents before their
      children, `Skeleton::draw` uploads for each body the product of the
      local transforms from the root down to the body's joint. */
  lemma DrawUploadsWorldFromRoot(joints: map<nat, Joint>, bodies: map<nat, Body>)
    requires ParentsPresent(joints) && ParentsPrecede(joints)
    requires OneBodyPerJoint(bodies, joints)
    ensures forall i :: 0 <= i < |bodies| ==>
              ModelMatrices(joints, DrawOrder(bodies))[i] == WorldFromRoot(joints, DrawOrder(bodies)[i])
  {
    DrawOrderIsAscending(bodies, joints);
    RefreshUploadsWorldFromRoot(joints, DrawOrder(bodies));
  }

  /** Refreshing every joint in ascending id order and taking each joint's
      world transform right after its own refresh gives, joint by joint,
      the product of the local transforms from the root. */
  lemma RefreshUploadsWorldFromRoot(joints: map<nat, Joint>, order: seq<nat>)
    requires ParentsPresent(joints) && ParentsPrecede(joints)
    requires ListsAscending(order, joints.Keys)
    ensures forall i :: 0 <= i < |order| ==> ModelMatrices(joints, order)[i] == WorldFromRoot(joints, order[i])
  {
    forall i | 0 <= i < |order|
      ensures ModelMatrices(joints, order)[i] == WorldFromRoot(joints, order[i])
    {
      ModelMatricesAt(joints, order, i);
      RefreshPrefixIsWorldFromRoot(joints, order, i + 1);
    }
  }

  // ---------------------------------------------------------------------
  // The skeleton

  class Skeleton {
    /** Joints by joint id (JointName). */
    var joints: map<nat, Joint>
    /** Bodies by body id (BodyName). */
    var bodies: map<nat, Body>

    /** Every parent link and every body names a joint of the skeleton.
        Each mutating method keeps this, since none of them changes the
        joints' ids or parent links. */
    ghost predicate Valid()
      reads this
    {
      ParentsPresent(joints) && BodiesAttached(bodies, joints)
    }

    /** An empty skeleton. The shader uniform locations are left out. */
    constructor ()
      ensures joints == map[] && bodies == map[]
      ensures Valid()
    {
      joints := map[];
      bodies := map[];
    }

    /** `Joint::updateWorldTransformation` on joint `id`. */
    method UpdateWorldTransformation(id: nat)
      requires id in joints && ParentsPresent(joints)
      modifies this
      ensures joints == UpdateWorld(old(joints), id)
      ensures bodies == old(bodies)
      ensures Valid() <==> old(Valid())
    {
      var joint := joints[id];
      if joint.parent == None {
        joint := joint.(world := joint.local);
      } else {
        joint := joint.(world := Mul(joints[joint.parent.value].world, joint.local));
      }
      joints := joints[id := joint];
    }

    /** `setPose`: overwrites the local transform of every joint named in
        `pose`. Every key must already be a joint: the source would look up
        a missing one as a null entry and dereference it. */
    method SetPose(pose: map<nat, Mat>)
      requires pose.Keys <= joints.Keys
      modifies this
      ensures joints == Posed(old(joints), pose)
      ensures bodies == old(bodies)
      ensures Valid() <==> old(Valid())
    {
      var todo := pose.Keys;
      while todo != {}
        invariant todo <= pose.Keys
        invariant joints == Posed(old(joints), pose - todo)
        invariant bodies == old(bodies)
        decreases todo
      {
        LeastExists(todo);
        var k :| k in todo && IsLeast(k, todo);
        joints := joints[k := joints[k].(local := pose[k])];
        todo := todo - {k};
      }
      assert pose - todo == pose;
    }

    /** `Body::draw` for body `b`: refreshes the body's joint and returns
        the joint's new world transform, the model matrix it uploads. The
        view and projection uploads and the draw calls are left out. */
    method DrawBody(b: nat) returns (model: Mat)
      requires b in bodies && bodies[b].joint in joints && ParentsPresent(joints)
      modifies this
      ensures bodies == old(bodies)
      ensures joints == UpdateWorld(old(joints), bodies[b].joint)
      ensures model == joints[bodies[b].joint].world
      ensures Valid() <==> old(Valid())
    {
      var joint := bodies[b].joint;
      UpdateWorldTransformation(joint);
      model := joints[joint].world;
    }

    /** `Skeleton::draw`: draws every body in ascending body id order and
        returns the model matrices uploaded, one per body. */
    method Draw() returns (modelMatrices: seq<Mat>)
      requires ParentsPresent(joints) && BodiesAttached(bodies, joints)
      modifies this
      ensures bodies == old(bodies)
      ensures joints == Refreshed(old(joints), DrawOrder(bodies))
      ensures modelMatrices == ModelMatrices(old(joints), DrawOrder(bodies))
      ensures Valid() <==> old(Valid())
    {
      var bs := bodies;
      ghost var done: seq<nat> := [];
      var todo := bs.Keys;
      modelMatrices := [];
      DrawnSoFarStart(joints, bs);
      while todo != {}
        invariant bodies == bs
        invariant DrawnSoFar(old(joints), bs, done, todo, joints, modelMatrices)
        decreases todo
      {
        LeastExists(todo);
        var b :| b in todo && IsLeast(b, todo);
        DrawnSoFarStep(old(joints), bs, done, todo, joints, modelMatrices, b);
        var model := DrawBody(b);
        modelMatrices := modelMatrices + [model];
        done := done + [b];
        todo := todo - {b};
      }
      DrawnSoFarEnd(old(joints), bs, done, joints, modelMatrices);
      ShapeKeepsParents(joints, old(joints));
    }

    /** The second loop of `getJointWorldTransformations`: copies each
        joint's world transform into a fresh map, by joint id. */
    method SnapshotWorlds() returns (snapshot: map<nat, Mat>)
      ensures snapshot.Keys == joints.Keys
      ensures forall k :: k in joints ==> snapshot[k] == joints[k].world
    {
      snapshot := map[];
      var rest := joints.Keys;
      while rest != {}
        invariant rest <= joints.Keys
        invariant snapshot.Keys == joints.Keys - rest
        invariant forall k :: k in snapshot ==> snapshot[k] == joints[k].world
        decreases rest
      {
        LeastExists(rest);
        var id :| id in rest && IsLeast(id, rest);
        snapshot := snapshot[id := joints[id].world];
        rest := rest - {id};
      }
    }

    /** The first loop of `getJointWorldTransformations`: refreshes every
        joint's world transform, in ascending id order. */
    method RefreshInAscendingOrder()
      requires ParentsPresent(joints)
      modifies this
      ensures joints == Refreshed(old(joints), Ascending(old(joints).Keys))
      ensures bodies == old(bodies)
      ensures Valid() <==> old(Valid())
    {
      ghost var done: seq<nat> := [];
      var todo := joints.Keys;
      RefreshedSoFarStart(joints);
      while todo != {}
        invariant bodies == old(bodies)
        invariant RefreshedSoFar(old(joints), done, todo, joints)
        decreases todo
      {
        LeastExists(todo);
        var id :| id in todo && IsLeast(id, todo);
        RefreshedSoFarStep(old(joints), done, todo, joints, id);
        UpdateWorldTransformation(id);
        done := done + [id];
        todo := todo - {id};
      }
      RefreshedSoFarEnd(old(joints), done, joints);
      ShapeKeepsParents(joints, old(joints));
    }

    /** `getJointWorldTransformations`: refreshes every joint in ascending
        id order, then returns a snapshot of the world transforms. */
    method GetJointWorldTransformations() returns (snapshot: map<nat, Mat>)
      requires ParentsPresent(joints)
      modifies this
      ensures joints == Refreshed(old(joints), Ascending(old(joints).Keys))
      ensures snapshot.Keys == joints.Keys
      ensures forall k :: k in joints ==> snapshot[k] == joints[k].world
      ensures bodies == old(bodies)
      ensures Valid() <==> old(Valid())
    {
      RefreshInAscendingOrder();
      snapshot := SnapshotWorlds();
    }
  }

  // ---------------------------------------------------------------------
  // The assembled skeleton

  /** A joint as `new Joint()` creates it: identity transforms. */
  function NewJoint(parent: Option<nat>): (j: Joint)
    ensures j.parent == parent && j.local == Identity && j.world == Identity
  {
    Joint(parent, Identity, Identity)
  }

  /** The joints of the assembled skeleton: a right leg chain
      ROOT - POINT2 - POINT3 - POINT4 - POINT5 - POINT6, and the torso joint
      POINT7 on the root. */
  const BuiltJoints: map<nat, Joint> := map[
    ROOT := NewJoint(None),
    POINT2 := NewJoint(Some(ROOT)),
    POINT3 := NewJoint(Some(POINT2)),
    POINT4 := NewJoint(Some(POINT3)),
    POINT5 := NewJoint(Some(POINT4)),
    POINT6 := NewJoint(Some(POINT5)),
    POINT7 := NewJoint(Some(ROOT))]

  /** The bodies of the assembled skeleton and the joints they hang on
      (there is no BONE2). */
  const BuiltBodies: map<nat, Body> := map[
    BONE1 := Body(ROOT),
    BONE3 := Body(POINT2),
    BONE4 := Body(POINT3),
    BONE5 := Body(POINT4),
    BONE6 := Body(POINT5),
    BONE7 := Body(POINT6),
    BONE8 := Body(POINT7)]

  /** The skeleton assembly of `createContext`: creates the skeleton and
      adds each joint with its parent and each body with its joint, in the
      order the source does. The drawables of the bodies are left out. */
  method BuildSkeleton() returns (skeleton: Skeleton)
    ensures fresh(skeleton)
    ensures skeleton.joints == BuiltJoints && skeleton.bodies == BuiltBodies
    ensures skeleton.Valid() && ParentsPrecede(skeleton.joints)
  {
    skeleton := new Skeleton();
    // pelvis
    skeleton.joints := skeleton.joints[ROOT := NewJoint(None)];
    skeleton.bodies := skeleton.bodies[BONE1 := Body(ROOT)];
    // right femur
    skeleton.joints := skeleton.joints[POINT2 := NewJoint(Some(ROOT))];
    skeleton.bodies := skeleton.bodies[BONE3 := Body(POINT2)];
    // right tibia
    skeleton.joints := skeleton.joints[POINT3 := NewJoint(Some(POINT2))];
    skeleton.bodies := skeleton.bodies[BONE4 := Body(POINT3)];
    // right talus
    skeleton.joints := skeleton.joints[POINT4 := NewJoint(Some(POINT3))];
    skeleton.bodies := skeleton.bodies[BONE5 := Body(POINT4)];
    // right calcaneus
    skeleton.joints := skeleton.joints[POINT5 := NewJoint(Some(POINT4))];
    skeleton.bodies := skeleton.bodies[BONE6 := Body(POINT5)];
    // right toes
    skeleton.joints := skeleton.joints[POINT6 := NewJoint(Some(POINT5))];
    skeleton.bodies := skeleton.bodies[BONE7 := Body(POINT6)];
    // torso
    skeleton.joints := skeleton.joints[POINT7 := NewJoint(Some(ROOT))];
    skeleton.bodies := skeleton.bodies[BONE8 := Body(POINT7)];
    BuiltSkeletonWellFormed(skeleton.joints);
  }

  /** Any pose of the assembled skeleton (same joints and parents, any
      transforms) has its parents present and smaller than their children,
      every body attached, and every joint id a skinning slot. */
  lemma BuiltSkeletonWellFormed(joints: map<nat, Joint>)
    requires joints.Keys == BuiltJoints.Keys
    requires forall k :: k in joints ==> joints[k].parent == BuiltJoints[k].parent
    ensures ParentsPresent(joints) && ParentsPrecede(joints)
    ensures BodiesAttached(BuiltBodies, joints)
    ensures forall k :: k in joints ==> k < JOINTS
  {
    forall k | k in joints
      ensures k < JOINTS
      ensures joints[k].parent.Some? ==> joints[k].parent.value in joints && joints[k].parent.value < k
    {
      BuiltJointParent(k);
    }
    forall b | b in BuiltBodies
      ensures BuiltBodies[b].joint in joints
    {
      BuiltBodyJoint(b);
    }
  }

  /** Each joint of the assembled skeleton is a skinning slot, and its
      parent is a joint with a smaller id. */
  lemma BuiltJointParent(k: nat)
    requires k in BuiltJoints
    ensures k <= POINT7
    ensures BuiltJoints[k].parent.Some? ==>
              BuiltJoints[k].parent.value in BuiltJoints && BuiltJoints[k].parent.value < k
  {
  }

  /** Each body of the assembled skeleton hangs on a joint of it. */
  lemma BuiltBodyJoint(b: nat)
    requires b in BuiltBodies
    ensures BuiltBodies[b].joint in BuiltJoints
    ensures BuiltBodies[b].joint == if b == BONE1 then ROOT else b - 1
  {
  }

  /** The assembled skeleton in any pose carries one body per joint, the
      bodies in the same order as their joints. */
  lemma BuiltOneBodyPerJoint(joints: map<nat, Joint>)
    requires joints.Keys == BuiltJoints.Keys
    ensures OneBodyPerJoint(BuiltBodies, joints)
  {
    BuiltBodiesKeys();
    forall b | b in BuiltBodies
      ensures BuiltBodies[b].joint in joints
    {
      BuiltBodyJoint(b);
    }
    forall a, b | a in BuiltBodies && b in BuiltBodies && a < b
      ensures BuiltBodies[a].joint < BuiltBodies[b].joint
    {
      BuiltBodyJoint(a);
      BuiltBodyJoint(b);
    }
    forall k | k in joints
      ensures exists b :: b in BuiltBodies && BuiltBodies[b].joint == k
    {
      BuiltJointParent(k);
      var b := if k == ROOT then BONE1 else k + 1;
      BuiltBodyJoint(b);
    }
  }

  /** The assembled skeleton has every body but BONE2. */
  lemma BuiltBodiesKeys()
    ensures BuiltBodies.Keys == {BONE1, BONE3, BONE4, BONE5, BONE6, BONE7, BONE8}
  {
  }

  /** Drawing the assembled skeleton in any pose uploads, body after body,
      the product of the local transforms from the root down to the body's
      joint, whatever world transforms were left from before. */
  lemma DrawBuiltSkeleton(joints: map<nat, Joint>)
    requires joints.Keys == BuiltJoints.Keys
    requires forall k :: k in joints ==> joints[k].parent == BuiltJoints[k].parent
    ensures ParentsPresent(joints) && ParentsPrecede(joints) && BodiesAttached(BuiltBodies, joints)
    ensures forall i :: 0 <= i < |BuiltBodies| ==>
              ModelMatrices(joints, DrawOrder(BuiltBodies))[i]
              == WorldFromRoot(joints, DrawOrder(BuiltBodies)[i])
  {
    BuiltSkeletonWellFormed(joints);
    BuiltOneBodyPerJoint(joints);
    DrawUploadsWorldFromRoot(joints, BuiltBodies);
  }
}
