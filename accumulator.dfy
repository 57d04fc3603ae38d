/**
 * The collection lists of one root: the vertices and indices gathered for a
 * single MeshCollider and the count of triangles added, and the finalisation
 * that turns them into a collider mesh or reports that there is nothing.
 */
module Accumulation {
  import opened Wrappers
  import opened Vectors
  import opened Bounds
  import opened ColliderMesh

  class Accumulator {
    var outVerts: seq<Vec3>
    var outTris: seq<int>
    var addedTris: nat

    /**
     * The buffers grow in lock-step, three entries per added triangle, and
     * the index buffer is the identity: no vertex is ever shared.
     */
    ghost predicate Valid()
      reads this
    {
      |outVerts| == |outTris| == 3 * addedTris &&
      forall k :: 0 <= k < |outTris| ==> outTris[k] == k
    }

    constructor ()
      ensures Valid()
      ensures outVerts == [] && outTris == [] && addedTris == 0
    {
      outVerts := [];
      outTris := [];
      addedTris := 0;
    }

    /** Appends three fresh vertices and the triple baseIdx, baseIdx + 1, baseIdx + 2. */
    method AddTriangle(l0: Vec3, l1: Vec3, l2: Vec3)
      requires Valid()
      modifies this
      ensures Valid()
      ensures outVerts == old(outVerts) + [l0, l1, l2]
      ensures outTris == old(outTris) + [|old(outVerts)|, |old(outVerts)| + 1, |old(outVerts)| + 2]
      ensures addedTris == old(addedTris) + 1
    {
      var baseIdx := |outVerts|;
      outVerts := outVerts + [l0];
      outVerts := outVerts + [l1];
      outVerts := outVerts + [l2];
      outTris := outTris + [baseIdx];
      outTris := outTris + [baseIdx + 1];
      outTris := outTris + [baseIdx + 2];
      addedTris := addedTris + 1;
    }

    /**
     * Nothing when no index was emitted; otherwise a mesh over exactly the
     * gathered vertices and indices, one triangle per added triangle, every
     * index in range and, under 16-bit indices, below 2^16, the index format
     * chosen from the vertex count, and the bounds of the gathered vertices.
     */
    function Finalize(): (r: Option<Collider>)
      reads this
      requires Valid()
      ensures r.None? <==> addedTris == 0
      ensures r.Some? ==> r.value.vertices == outVerts && r.value.triangles == outTris
      ensures r.Some? ==> |r.value.triangles| == 3 * addedTris
      ensures r.Some? ==> forall k :: 0 <= k < |r.value.triangles| ==> 0 <= r.value.triangles[k] < |r.value.vertices|
      ensures r.Some? ==> r.value.indexFormat == IndexFormatFor(3 * addedTris)
      ensures r.Some? && r.value.indexFormat == IndexFormat.UInt16 ==>
        forall k :: 0 <= k < |r.value.triangles| ==> r.value.triangles[k] < 0x1_0000
      ensures r.Some? ==> r.value.bounds == BoundsOf(outVerts)
    {
      if |outTris| == 0 then None
      else Some(Collider(outVerts, outTris, IndexFormatFor(|outVerts|), BoundsOf(outVerts)))
    }
  }
}
