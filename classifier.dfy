/**
 * The vertex classifier: every vertex of the skin mesh gets the id of the
 * joint whose skinning transform moves it, chosen from the vertex's height
 * by a ladder of thresholds on y. The ids are stored one per vertex, in
 * vertex order.
 */
module Classifier {
  import opened Matrices
  import opened Names

  /** The threshold ladder exactly as written: the first test that holds
      picks the joint, which always names one of the `JOINTS` skinning
      transforms. The first test already takes every height up to 2.5, so
      the four bands after it can never be reached. */
  function SkinningIndex(y: real): (j: nat)
    ensures j < JOINTS
  {
    if y <= 2.5 then ROOT
    else if 0.25 <= y < 0.75 then POINT2
    else if 0.75 <= y < 1.25 then POINT3
    else if 1.25 <= y < 1.75 then POINT4
    else if 1.75 <= y < 2.25 then POINT5
    else if 2.25 <= y < 2.75 then POINT6
    else if 2.75 <= y < 3.25 then POINT7
    else POINT8
  }

  /** The bands the ladder actually produces: the root up to 2.5, POINT6
      above 2.5 and below 2.75, POINT7 from 2.75 to below 3.25, POINT8 from
      3.25 up. Each joint gets exactly its band. */
  lemma EffectiveBands(y: real)
    ensures SkinningIndex(y) == ROOT <==> y <= 2.5
    ensures SkinningIndex(y) == POINT6 <==> 2.5 < y < 2.75
    ensures SkinningIndex(y) == POINT7 <==> 2.75 <= y < 3.25
    ensures SkinningIndex(y) == POINT8 <==> 3.25 <= y
  {
  }

  /** The joints POINT2 to POINT5 are never assigned a vertex. */
  lemma MiddleJointsNeverAssigned(y: real)
    ensures SkinningIndex(y) !in {POINT2, POINT3, POINT4, POINT5}
    ensures SkinningIndex(y) in {ROOT, POINT6, POINT7, POINT8}
  {
  }

  /** A vertex at height 0.6 goes to the root, not to POINT2 whose band
      0.25 to 0.75 it lies in; a vertex at height 10 goes to the last,
      open-ended band. */
  lemma ClassifierExamples()
    ensures SkinningIndex(0.6) == ROOT
    ensures 0.25 <= 0.6 < 0.75 && SkinningIndex(0.6) != POINT2
    ensures SkinningIndex(10.0) == POINT8
  {
  }

  /** The skinning index of every vertex, in vertex order: one entry per
      vertex, appended as the vertices are visited. */
  method CalculateSkinningIndices(vertices: seq<Vec3>) returns (indices: seq<nat>)
    ensures |indices| == |vertices|
    ensures forall i :: 0 <= i < |vertices| ==> indices[i] == SkinningIndex(vertices[i].y)
  {
    indices := [];
    for n := 0 to |vertices|
      invariant |indices| == n
      invariant forall i :: 0 <= i < n ==> indices[i] == SkinningIndex(vertices[i].y)
    {
      var v := vertices[n];
      indices := indices + [SkinningIndex(v.y)];
    }
  }
}
