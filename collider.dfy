/** The generated collider mesh and the choice of its index format. */
module ColliderMesh {
  import opened Vectors
  import opened Bounds

  /** UnityEngine.Rendering.IndexFormat */
  datatype IndexFormat = UInt16 | UInt32

  /** The most vertices that a mesh with 16-bit indices may have in Unity. */
  const MaxUInt16Vertices: nat := 65535

  /** The format chosen at finalisation from the vertex count. */
  function IndexFormatFor(vertexCount: nat): IndexFormat
  {
    if vertexCount > 65535 then IndexFormat.UInt32 else IndexFormat.UInt16
  }

  /** The mesh that is assigned to the root's MeshCollider. */
  datatype Collider = Collider(vertices: seq<Vec3>, triangles: seq<int>, indexFormat: IndexFormat, bounds: Aabb)

  /**
   * A mesh whose format was chosen from its vertex count and whose indices
   * are in range never holds an index that its format cannot store: under
   * 16-bit indices every index is below 2^16, and 32-bit indices are chosen
   * only for more than 65535 vertices.
   */
  lemma IndexFormatIsNarrowestThatFits(c: Collider)
    requires c.indexFormat == IndexFormatFor(|c.vertices|)
    requires forall k :: 0 <= k < |c.triangles| ==> 0 <= c.triangles[k] < |c.vertices|
    ensures c.indexFormat == IndexFormat.UInt16 ==> forall k :: 0 <= k < |c.triangles| ==> c.triangles[k] < 0x1_0000
    ensures c.indexFormat == IndexFormat.UInt32 ==> |c.vertices| > MaxUInt16Vertices
  {
  }

  /** The boundary: 65535 vertices are still 16-bit, 65536 already 32-bit. */
  lemma IndexFormatBoundary()
    ensures IndexFormatFor(65535) == IndexFormat.UInt16
    ensures IndexFormatFor(65536) == IndexFormat.UInt32
  {
  }
}
