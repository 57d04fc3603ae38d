/**
 * BuildForRoot: the pass over one root's mesh filters that gathers the
 * walkable triangles into one collider mesh.
 */
module Builder {
  import opened Wrappers
  import opened Vectors
  import opened Classify
  import opened ColliderMesh
  import opened Accumulation
  import opened Surface

  /**
   * The body of the triangle loop once the corners are in world space: the
   * slope test, the area test, and for a kept triangle the skin offset, the
   * root transform and the append. A rejected triangle changes nothing.
   */
  method AddIfWalkable(acc: Accumulator, w0: Vec3, w1: Vec3, w2: Vec3, s: Settings, invRoot: Matrix3x4, sqrt: real -> real)
    returns (kept: bool)
    requires acc.Valid()
    modifies acc
    ensures acc.Valid()
    ensures kept == Keep(Tri(w0, w1, w2), s.minUpDot, s.minTriArea, sqrt)
    ensures kept ==>
      var p := Place(Tri(w0, w1, w2), s.skin, invRoot, sqrt);
      acc.outVerts == old(acc.outVerts) + [p.v0, p.v1, p.v2] &&
      acc.outTris == old(acc.outTris) + [|old(acc.outVerts)|, |old(acc.outVerts)| + 1, |old(acc.outVerts)| + 2] &&
      acc.addedTris == old(acc.addedTris) + 1
    ensures !kept ==>
      acc.outVerts == old(acc.outVerts) && acc.outTris == old(acc.outTris) && acc.addedTris == old(acc.addedTris)
  {
    var faceNormal := Normalize(Cross(Sub(w1, w0), Sub(w2, w0)), sqrt);
    var dotUp := Dot(faceNormal, Up);
    if dotUp < s.minUpDot {
      return false;
    }
    var triArea := 0.5 * Magnitude(Cross(Sub(w1, w0), Sub(w2, w0)), sqrt);
    if triArea < s.minTriArea {
      return false;
    }
    var o0 := Add(w0, Scale(faceNormal, s.skin));
    var o1 := Add(w1, Scale(faceNormal, s.skin));
    var o2 := Add(w2, Scale(faceNormal, s.skin));
    var l0 := MultiplyPoint3x4(invRoot, o0);
    var l1 := MultiplyPoint3x4(invRoot, o1);
    var l2 := MultiplyPoint3x4(invRoot, o2);
    acc.AddTriangle(l0, l1, l2);
    kept := true;
  }

  /** The vertex buffer the loop has built after examining the triangles `seen`. */
  function Gathered(seen: seq<Tri>, s: Settings, invRoot: Matrix3x4, sqrt: real -> real): seq<Vec3>
  {
    Flatten(Placed(Kept(seen, s.minUpDot, s.minTriArea, sqrt), s.skin, invRoot, sqrt))
  }

  /** The accumulator holds what the loop has gathered from the triangles `seen`. */
  ghost predicate Mirrors(acc: Accumulator, seen: seq<Tri>, s: Settings, invRoot: Matrix3x4, sqrt: real -> real)
    reads acc
  {
    acc.Valid() &&
    acc.outVerts == Gathered(seen, s, invRoot, sqrt) &&
    acc.addedTris == |Kept(seen, s.minUpDot, s.minTriArea, sqrt)|
  }

  /** Examining one more triangle appends its placed corners if it is kept, and nothing otherwise. */
  lemma GatheredSnoc(seen: seq<Tri>, t: Tri, s: Settings, invRoot: Matrix3x4, sqrt: real -> real)
    ensures var p := Place(t, s.skin, invRoot, sqrt);
      Gathered(seen + [t], s, invRoot, sqrt)
        == Gathered(seen, s, invRoot, sqrt) + (if Keep(t, s.minUpDot, s.minTriArea, sqrt) then [p.v0, p.v1, p.v2] else [])
    ensures |Kept(seen + [t], s.minUpDot, s.minTriArea, sqrt)|
        == |Kept(seen, s.minUpDot, s.minTriArea, sqrt)| + (if Keep(t, s.minUpDot, s.minTriArea, sqrt) then 1 else 0)
  {
    assert (seen + [t])[..|seen|] == seen;
    var ks := Kept(seen, s.minUpDot, s.minTriArea, sqrt);
    if Keep(t, s.minUpDot, s.minTriArea, sqrt) {
      assert Kept(seen + [t], s.minUpDot, s.minTriArea, sqrt) == ks + [t];
      assert (ks + [t])[..|ks|] == ks;
      var ps := Placed(ks, s.skin, invRoot, sqrt);
      assert Placed(ks + [t], s.skin, invRoot, sqrt) == ps + [Place(t, s.skin, invRoot, sqrt)];
      assert (ps + [Place(t, s.skin, invRoot, sqrt)])[..|ps|] == ps;
      var p := Place(t, s.skin, invRoot, sqrt);
      assert Flatten(ps + [p]) == Flatten(ps) + [p.v0, p.v1, p.v2];
      assert Gathered(seen + [t], s, invRoot, sqrt) == Flatten(ps + [p]);
    } else {
      assert Kept(seen + [t], s.minUpDot, s.minTriArea, sqrt) == ks;
    }
  }

  /** A read of triangle j that is out of range means the mesh is not well formed. */
  lemma OutOfRangeReadIllFormed(mesh: MeshData, i: nat, j: nat)
    requires i == 3 * j && TrianglesReadable(mesh, j) && i < |mesh.triangles|
    requires !(i + 2 < |mesh.triangles| && 0 <= mesh.triangles[i] < |mesh.vertices| &&
               0 <= mesh.triangles[i + 1] < |mesh.vertices| && 0 <= mesh.triangles[i + 2] < |mesh.vertices|)
    ensures !WellFormed(mesh)
  {
    if i + 2 >= |mesh.triangles| {
      assert |mesh.triangles| % 3 != 0;
    } else if |mesh.triangles| % 3 == 0 {
      assert j + 1 <= |mesh.triangles| / 3;
      assert !TrianglesReadable(mesh, |mesh.triangles| / 3);
    }
  }

  /** When triangle j can be read, the examined triangles grow by WorldTriangle(j). */
  lemma NextWorldTriangle(mesh: MeshData, l2w: Matrix3x4, i: nat, j: nat, before: seq<Tri>, seen: seq<Tri>)
    requires i == 3 * j && TrianglesReadable(mesh, j)
    requires seen == before + WorldTriangles(mesh, l2w, j)
    requires i + 2 < |mesh.triangles| && 0 <= mesh.triangles[i] < |mesh.vertices| &&
             0 <= mesh.triangles[i + 1] < |mesh.vertices| && 0 <= mesh.triangles[i + 2] < |mesh.vertices|
    ensures TrianglesReadable(mesh, j + 1)
    ensures seen + [WorldTriangle(mesh, l2w, j)] == before + WorldTriangles(mesh, l2w, j + 1)
  {
    assert WorldTriangles(mesh, l2w, j + 1) == WorldTriangles(mesh, l2w, j) + [WorldTriangle(mesh, l2w, j)];
  }

  /**
   * One turn of the triangle loop: read triangle j = i / 3 through the index
   * buffer, take its corners to world space, and keep it or not.
   */
  method ExamineTriangle(acc: Accumulator, mesh: MeshData, l2w: Matrix3x4, i: nat, s: Settings, invRoot: Matrix3x4,
                         sqrt: real -> real, ghost j: nat, ghost seen: seq<Tri>)
    requires i == 3 * j && TrianglesReadable(mesh, j + 1)
    requires Mirrors(acc, seen, s, invRoot, sqrt)
    modifies acc
    ensures Mirrors(acc, seen + [WorldTriangle(mesh, l2w, j)], s, invRoot, sqrt)
  {
    var verts := mesh.vertices;
    var tris := mesh.triangles;
    var i0, i1, i2 := tris[i], tris[i + 1], tris[i + 2];
    var w0 := MultiplyPoint3x4(l2w, verts[i0]);
    var w1 := MultiplyPoint3x4(l2w, verts[i1]);
    var w2 := MultiplyPoint3x4(l2w, verts[i2]);
    assert Tri(w0, w1, w2) == WorldTriangle(mesh, l2w, j);
    GatheredSnoc(seen, Tri(w0, w1, w2), s, invRoot, sqrt);
    var _ := AddIfWalkable(acc, w0, w1, w2, s, invRoot, sqrt);
  }

  /**
   * The triangle loop over one eligible mesh, three indices at a time. It
   * stops with `ok` false where reading tris[i + 1], tris[i + 2] or a vertex
   * would raise, which happens iff the mesh is not well formed; otherwise
   * every triangle of the mesh has been examined, in index-buffer order.
   */
  method GatherMesh(acc: Accumulator, mesh: MeshData, l2w: Matrix3x4, s: Settings, invRoot: Matrix3x4, sqrt: real -> real,
                    ghost before: seq<Tri>)
    returns (ok: bool)
    requires Mirrors(acc, before, s, invRoot, sqrt)
    modifies acc
    ensures acc.Valid()
    ensures ok <==> WellFormed(mesh)
    ensures ok ==> Mirrors(acc, before + WorldTriangles(mesh, l2w, |mesh.triangles| / 3), s, invRoot, sqrt)
  {
    var verts := mesh.vertices;
    var tris := mesh.triangles;
    var i := 0;
    ghost var j: nat := 0;
    ghost var seen := before;
    assert before + WorldTriangles(mesh, l2w, 0) == before;
    while i < |tris|
      invariant i == 3 * j && i <= |tris|
      invariant TrianglesReadable(mesh, j)
      invariant seen == before + WorldTriangles(mesh, l2w, j)
      invariant Mirrors(acc, seen, s, invRoot, sqrt)
    {
      if !(i + 2 < |tris| && 0 <= tris[i] < |verts| && 0 <= tris[i + 1] < |verts| && 0 <= tris[i + 2] < |verts|) {
        OutOfRangeReadIllFormed(mesh, i, j);
        return false;
      }
      NextWorldTriangle(mesh, l2w, i, j, before, seen);
      ExamineTriangle(acc, mesh, l2w, i, s, invRoot, sqrt, j, seen);
      seen := seen + [WorldTriangle(mesh, l2w, j)];
      i := i + 3;
      j := j + 1;
    }
    assert j == |tris| / 3;
    ok := true;
  }

  /**
   * One pass of the filter loop: the three skips, then the triangle loop of
   * an eligible mesh. It fails exactly when the mesh is eligible and not
   * well formed; otherwise the buffers mirror the triangles seen so far
   * followed by this filter's.
   */
  method VisitFilter(acc: Accumulator, mf: MeshFilter, s: Settings, walkableLayer: int, invRoot: Matrix3x4, sqrt: real -> real,
                     ghost before: seq<Tri>)
    returns (ok: bool)
    requires Mirrors(acc, before, s, invRoot, sqrt)
    modifies acc
    ensures acc.Valid()
    ensures ok <==> !Eligible(mf, s, walkableLayer) || WellFormed(mf.sharedMesh.value)
    ensures ok ==> Mirrors(acc, before + (if Eligible(mf, s, walkableLayer) then MeshTriangles(mf) else []), s, invRoot, sqrt)
  {
    if s.onlyWalkableLayer && mf.layer != walkableLayer {
      // wrong layer: skipped
      assert before + [] == before;
      return true;
    }
    if s.ignoreDisabledRenderers &&
       (mf.renderer.None? || !mf.renderer.value.enabled || !mf.renderer.value.activeInHierarchy) {
      // missing, disabled or inactive renderer: skipped
      assert before + [] == before;
      return true;
    }
    if mf.sharedMesh.None? {
      // no mesh: skipped
      assert before + [] == before;
      return true;
    }
    ok := GatherMesh(acc, mf.sharedMesh.value, mf.localToWorld, s, invRoot, sqrt, before);
  }

  /** The filters seen so far grow by one: readability and the examined triangles extend accordingly. */
  lemma RootTrianglesStep(filters: seq<MeshFilter>, f: nat, s: Settings, walkableLayer: int)
    requires f < |filters| && Readable(filters[..f], s, walkableLayer)
    requires !Eligible(filters[f], s, walkableLayer) || WellFormed(filters[f].sharedMesh.value)
    ensures Readable(filters[..f + 1], s, walkableLayer)
    ensures RootTriangles(filters[..f + 1], s, walkableLayer)
         == RootTriangles(filters[..f], s, walkableLayer)
          + (if Eligible(filters[f], s, walkableLayer) then MeshTriangles(filters[f]) else [])
  {
    assert filters[..f + 1][..f] == filters[..f];
    assert filters[..f + 1][f] == filters[f];
  }

  /** Once every filter is seen, finalising the buffers gives the specified result. */
  lemma FinishedBuild(acc: Accumulator, filters: seq<MeshFilter>, s: Settings, walkableLayer: int, invRoot: Matrix3x4,
                      sqrt: real -> real)
    requires Readable(filters, s, walkableLayer)
    requires Mirrors(acc, RootTriangles(filters, s, walkableLayer), s, invRoot, sqrt)
    ensures acc.addedTris == 0 ==> ExpectedBuild(filters, s, walkableLayer, invRoot, sqrt) == Build(0, None, 0)
    ensures acc.addedTris != 0 ==>
      ExpectedBuild(filters, s, walkableLayer, invRoot, sqrt) == Build(1, acc.Finalize(), acc.addedTris)
  {
    if acc.addedTris != 0 {
      assert acc.outTris == IndexRange(|acc.outVerts|);
    }
  }

  /**
   * One call of BuildForRoot. It raises IndexOutOfRange exactly when some
   * eligible mesh has a triangle array whose length is no multiple of three
   * or that names a missing vertex; otherwise it returns what ExpectedBuild
   * describes.
   */
  method BuildForRoot(filters: seq<MeshFilter>, s: Settings, walkableLayer: int, invRoot: Matrix3x4, sqrt: real -> real)
    returns (r: Result<Build, Fault>)
    ensures r.Success? <==> Readable(filters, s, walkableLayer)
    ensures r.Success? ==> r.value == ExpectedBuild(filters, s, walkableLayer, invRoot, sqrt)
  {
    var acc := new Accumulator();
    var f := 0;
    while f < |filters|
      invariant 0 <= f <= |filters|
      invariant Readable(filters[..f], s, walkableLayer)
      invariant Mirrors(acc, RootTriangles(filters[..f], s, walkableLayer), s, invRoot, sqrt)
    {
      var ok := VisitFilter(acc, filters[f], s, walkableLayer, invRoot, sqrt, RootTriangles(filters[..f], s, walkableLayer));
      if !ok {
        assert Eligible(filters[f], s, walkableLayer) && !WellFormed(filters[f].sharedMesh.value);
        return Failure(IndexOutOfRange);
      }
      RootTrianglesStep(filters, f, s, walkableLayer);
      f := f + 1;
    }
    assert filters[..|filters|] == filters;
    FinishedBuild(acc, filters, s, walkableLayer, invRoot, sqrt);
    var collider := acc.Finalize();
    if collider.None? {
      return Success(Build(0, None, acc.addedTris));
    }
    r := Success(Build(1, collider, acc.addedTris));
  }
}
