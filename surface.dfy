/**
 * What BuildForRoot computes for one root, written as functions of its
 * inputs: the world triangles of each eligible mesh in filter order, the
 * kept ones among them, their placement in the root frame, and the
 * collider (or nothing) that results.
 */
module Surface {
  import opened Wrappers
  import opened Vectors
  import opened Bounds
  import opened Classify
  import opened ColliderMesh

  /** Mesh.vertices and Mesh.triangles of a shared mesh. */
  datatype MeshData = MeshData(vertices: seq<Vec3>, triangles: seq<int>)

  /** The MeshRenderer beside a filter: its enabled flag and its game object's activeInHierarchy. */
  datatype Renderer = Renderer(enabled: bool, activeInHierarchy: bool)

  /** One MeshFilter under the root, with what BuildForRoot reads of it and of its game object. */
  datatype MeshFilter = MeshFilter(layer: int, renderer: Option<Renderer>, sharedMesh: Option<MeshData>, localToWorld: Matrix3x4)

  /** The editor window's settings that BuildForRoot reads (minUpDot already derived). */
  datatype Settings = Settings(minUpDot: real, skin: real, minTriArea: real, onlyWalkableLayer: bool, ignoreDisabledRenderers: bool)

  /** The exception an out-of-range read of the triangle or vertex array raises. */
  datatype Fault = IndexOutOfRange

  /** What one call returns: the count of colliders built (0 or 1), the mesh, and the triangles added. */
  datatype Build = Build(built: int, collider: Option<Collider>, addedTris: nat)

  /** The three skips at the top of the filter loop all fail to apply. */
  predicate Eligible(mf: MeshFilter, s: Settings, walkableLayer: int)
  {
    !(s.onlyWalkableLayer && mf.layer != walkableLayer) &&
    !(s.ignoreDisabledRenderers &&
      (mf.renderer.None? || !mf.renderer.value.enabled || !mf.renderer.value.activeInHierarchy)) &&
    mf.sharedMesh.Some?
  }

  /** The first `n` triangles can be read: their 3n indices exist and name existing vertices. */
  predicate TrianglesReadable(m: MeshData, n: nat)
  {
    3 * n <= |m.triangles| && forall k :: 0 <= k < 3 * n ==> 0 <= m.triangles[k] < |m.vertices|
  }

  /** The triangle loop reads nothing out of range. */
  predicate WellFormed(m: MeshData)
  {
    |m.triangles| % 3 == 0 && TrianglesReadable(m, |m.triangles| / 3)
  }

  /** Every mesh that passes the skips is well formed. */
  predicate Readable(mfs: seq<MeshFilter>, s: Settings, walkableLayer: int)
  {
    forall g :: 0 <= g < |mfs| && Eligible(mfs[g], s, walkableLayer) ==> WellFormed(mfs[g].sharedMesh.value)
  }

  /** Triangle `j` of a mesh in world space: the corners named by triangles[3j], [3j+1], [3j+2]. */
  function WorldTriangle(m: MeshData, l2w: Matrix3x4, j: nat): Tri
    requires TrianglesReadable(m, j + 1)
  {
    Tri(MultiplyPoint3x4(l2w, m.vertices[m.triangles[3 * j]]),
        MultiplyPoint3x4(l2w, m.vertices[m.triangles[3 * j + 1]]),
        MultiplyPoint3x4(l2w, m.vertices[m.triangles[3 * j + 2]]))
  }

  /** The first `n` world triangles of a mesh, in index-buffer order. */
  function WorldTriangles(m: MeshData, l2w: Matrix3x4, n: nat): seq<Tri>
    requires TrianglesReadable(m, n)
    decreases n
  {
    if n == 0 then [] else WorldTriangles(m, l2w, n - 1) + [WorldTriangle(m, l2w, n - 1)]
  }

  /** All world triangles of one well-formed mesh. */
  function MeshTriangles(mf: MeshFilter): seq<Tri>
    requires mf.sharedMesh.Some? && WellFormed(mf.sharedMesh.value)
  {
    var m := mf.sharedMesh.value;
    WorldTriangles(m, mf.localToWorld, |m.triangles| / 3)
  }

  /** The world triangles that the root's loop examines: eligible meshes in filter order. */
  function RootTriangles(mfs: seq<MeshFilter>, s: Settings, walkableLayer: int): seq<Tri>
    requires Readable(mfs, s, walkableLayer)
    decreases |mfs|
  {
    if |mfs| == 0 then []
    else
      var last := mfs[|mfs| - 1];
      RootTriangles(mfs[..|mfs| - 1], s, walkableLayer) + (if Eligible(last, s, walkableLayer) then MeshTriangles(last) else [])
  }

  /** The meshes that pass the skips, in filter order. */
  function EligibleOnly(mfs: seq<MeshFilter>, s: Settings, walkableLayer: int): seq<MeshFilter>
    decreases |mfs|
  {
    if |mfs| == 0 then []
    else
      var last := mfs[|mfs| - 1];
      EligibleOnly(mfs[..|mfs| - 1], s, walkableLayer) + (if Eligible(last, s, walkableLayer) then [last] else [])
  }

  /** The triangles that pass both thresholds, in their input order. */
  function Kept(ts: seq<Tri>, minUpDot: real, minTriArea: real, sqrt: real -> real): seq<Tri>
    decreases |ts|
  {
    if |ts| == 0 then []
    else
      var last := ts[|ts| - 1];
      Kept(ts[..|ts| - 1], minUpDot, minTriArea, sqrt) + (if Keep(last, minUpDot, minTriArea, sqrt) then [last] else [])
  }

  /** The positions of the triangles that pass both thresholds, ascending. */
  function KeptPositions(ts: seq<Tri>, minUpDot: real, minTriArea: real, sqrt: real -> real): seq<nat>
    decreases |ts|
  {
    if |ts| == 0 then []
    else
      KeptPositions(ts[..|ts| - 1], minUpDot, minTriArea, sqrt) + (if Keep(ts[|ts| - 1], minUpDot, minTriArea, sqrt) then [|ts| - 1] else [])
  }

  /** Each triangle offset by the skin and mapped into the root frame. */
  function Placed(ts: seq<Tri>, skin: real, invRoot: Matrix3x4, sqrt: real -> real): (r: seq<Tri>)
    ensures |r| == |ts|
    decreases |ts|
  {
    if |ts| == 0 then []
    else Placed(ts[..|ts| - 1], skin, invRoot, sqrt) + [Place(ts[|ts| - 1], skin, invRoot, sqrt)]
  }

  /** The vertex buffer of unwelded triangles: three fresh vertices per triangle. */
  function Flatten(ts: seq<Tri>): (r: seq<Vec3>)
    ensures |r| == 3 * |ts|
    decreases |ts|
  {
    if |ts| == 0 then []
    else
      var last := ts[|ts| - 1];
      Flatten(ts[..|ts| - 1]) + [last.v0, last.v1, last.v2]
  }

  /** The identity index buffer 0, 1, ..., n - 1. */
  function IndexRange(n: nat): seq<int>
  {
    seq(n, k => k)
  }

  function KeptTriangles(mfs: seq<MeshFilter>, s: Settings, walkableLayer: int, sqrt: real -> real): seq<Tri>
    requires Readable(mfs, s, walkableLayer)
  {
    Kept(RootTriangles(mfs, s, walkableLayer), s.minUpDot, s.minTriArea, sqrt)
  }

  /** The result of a call that raises nothing. */
  function ExpectedBuild(mfs: seq<MeshFilter>, s: Settings, walkableLayer: int, invRoot: Matrix3x4, sqrt: real -> real): Build
    requires Readable(mfs, s, walkableLayer)
  {
    var kept := KeptTriangles(mfs, s, walkableLayer, sqrt);
    var vs := Flatten(Placed(kept, s.skin, invRoot, sqrt));
    if |kept| == 0 then Build(0, None, 0)
    else Build(1, Some(Collider(vs, IndexRange(|vs|), IndexFormatFor(|vs|), BoundsOf(vs))), |kept|)
  }

  // ---------------------------------------------------------------------------
  // Properties of the specification

  /** A mesh contributes |triangles| / 3 triangles, the j-th read from triangles[3j..3j+2]. */
  lemma {:induction false} WorldTrianglesEnumerate(m: MeshData, l2w: Matrix3x4, n: nat)
    requires TrianglesReadable(m, n)
    ensures |WorldTriangles(m, l2w, n)| == n
    ensures forall j :: 0 <= j < n ==> WorldTriangles(m, l2w, n)[j] == WorldTriangle(m, l2w, j)
  {
    if n > 0 {
      WorldTrianglesEnumerate(m, l2w, n - 1);
    }
  }

  lemma MeshTriangleCount(mf: MeshFilter)
    requires mf.sharedMesh.Some? && WellFormed(mf.sharedMesh.value)
    ensures |MeshTriangles(mf)| == |mf.sharedMesh.value.triangles| / 3
    ensures 3 * |MeshTriangles(mf)| == |mf.sharedMesh.value.triangles|
  {
    var m := mf.sharedMesh.value;
    WorldTrianglesEnumerate(m, mf.localToWorld, |m.triangles| / 3);
  }

  /** Vertex 3j + c of the buffer is corner c of triangle j. */
  lemma {:induction false} FlattenAt(ts: seq<Tri>, j: nat, c: nat)
    requires j < |ts| && c < 3
    ensures Flatten(ts)[3 * j + c] == Corner(ts[j], c)
    decreases |ts|
  {
    if j < |ts| - 1 {
      FlattenAt(ts[..|ts| - 1], j, c);
    }
  }

  lemma {:induction false} PlacedAt(ts: seq<Tri>, skin: real, invRoot: Matrix3x4, sqrt: real -> real, j: nat)
    requires j < |ts|
    ensures Placed(ts, skin, invRoot, sqrt)[j] == Place(ts[j], skin, invRoot, sqrt)
    decreases |ts|
  {
    if j < |ts| - 1 {
      PlacedAt(ts[..|ts| - 1], skin, invRoot, sqrt, j);
    }
  }

  /**
   * The kept triangles are exactly the input triangles that pass both
   * thresholds, each once and in their input order: the j-th kept triangle is
   * the input triangle at the j-th ascending kept position, and a position is
   * kept iff its triangle passes.
   */
  lemma {:induction false} KeptInOrder(ts: seq<Tri>, minUpDot: real, minTriArea: real, sqrt: real -> real)
    ensures var ps := KeptPositions(ts, minUpDot, minTriArea, sqrt);
      var ks := Kept(ts, minUpDot, minTriArea, sqrt);
      |ps| == |ks| &&
      (forall j :: 0 <= j < |ps| ==> ps[j] < |ts| && ks[j] == ts[ps[j]]) &&
      (forall j, j' :: 0 <= j < j' < |ps| ==> ps[j] < ps[j']) &&
      (forall k :: 0 <= k < |ts| ==> (k in ps <==> Keep(ts[k], minUpDot, minTriArea, sqrt)))
    decreases |ts|
  {
    if |ts| > 0 {
      var init := ts[..|ts| - 1];
      var last := ts[|ts| - 1];
      KeptInOrder(init, minUpDot, minTriArea, sqrt);
      var ps0 := KeptPositions(init, minUpDot, minTriArea, sqrt);
      var ks0 := Kept(init, minUpDot, minTriArea, sqrt);
      var ps := KeptPositions(ts, minUpDot, minTriArea, sqrt);
      var ks := Kept(ts, minUpDot, minTriArea, sqrt);
      if Keep(last, minUpDot, minTriArea, sqrt) {
        assert ps == ps0 + [|ts| - 1] && ks == ks0 + [last];
        forall k | 0 <= k < |ts|
          ensures k in ps <==> Keep(ts[k], minUpDot, minTriArea, sqrt)
        {
          if k < |ts| - 1 {
            assert ts[k] == init[k];
            assert k in ps <==> k in ps0;
          }
        }
      } else {
        assert ps == ps0 && ks == ks0;
        forall k | 0 <= k < |ts|
          ensures k in ps <==> Keep(ts[k], minUpDot, minTriArea, sqrt)
        {
          if k < |ts| - 1 {
            assert ts[k] == init[k];
          } else {
            assert k !in ps0;
          }
        }
      }
    }
  }

  /**
   * Raising either threshold keeps a subset of the positions kept before, and
   * so no more triangles.
   */
  lemma {:induction false} KeptMonotone(ts: seq<Tri>, minUpDot: real, minTriArea: real, minUpDot': real, minTriArea': real, sqrt: real -> real)
    requires minUpDot <= minUpDot' && minTriArea <= minTriArea'
    ensures forall k :: k in KeptPositions(ts, minUpDot', minTriArea', sqrt) ==> k in KeptPositions(ts, minUpDot, minTriArea, sqrt)
    ensures |Kept(ts, minUpDot', minTriArea', sqrt)| <= |Kept(ts, minUpDot, minTriArea, sqrt)|
    decreases |ts|
  {
    if |ts| > 0 {
      var init := ts[..|ts| - 1];
      var last := ts[|ts| - 1];
      KeptMonotone(init, minUpDot, minTriArea, minUpDot', minTriArea', sqrt);
      if Keep(last, minUpDot', minTriArea', sqrt) {
        KeepMonotone(last, minUpDot, minTriArea, minUpDot', minTriArea', sqrt);
      }
    }
  }

  /** Readable is closed under taking a prefix. */
  lemma ReadablePrefix(mfs: seq<MeshFilter>, s: Settings, walkableLayer: int, n: nat)
    requires n <= |mfs| && Readable(mfs, s, walkableLayer)
    ensures Readable(mfs[..n], s, walkableLayer)
  {
    forall g | 0 <= g < n && Eligible(mfs[..n][g], s, walkableLayer)
      ensures WellFormed(mfs[..n][g].sharedMesh.value)
    {
      assert mfs[..n][g] == mfs[g];
    }
  }

  /** Every mesh that EligibleOnly keeps is eligible and comes from the input. */
  lemma {:induction false} EligibleOnlyMembers(mfs: seq<MeshFilter>, s: Settings, walkableLayer: int)
    ensures forall g :: 0 <= g < |EligibleOnly(mfs, s, walkableLayer)| ==>
      Eligible(EligibleOnly(mfs, s, walkableLayer)[g], s, walkableLayer) &&
      EligibleOnly(mfs, s, walkableLayer)[g] in mfs
    decreases |mfs|
  {
    if |mfs| > 0 {
      var init := mfs[..|mfs| - 1];
      EligibleOnlyMembers(init, s, walkableLayer);
      forall mf | mf in init ensures mf in mfs {
        var g :| 0 <= g < |init| && init[g] == mf;
        assert mfs[g] == mf;
      }
    }
  }

  /**
   * The skipped meshes (wrong layer, missing, disabled or inactive renderer,
   * no mesh) contribute nothing: the root examines the same triangles as it
   * would with only the eligible meshes under it.
   */
  lemma {:induction false} SkippedMeshesContributeNothing(mfs: seq<MeshFilter>, s: Settings, walkableLayer: int)
    requires Readable(mfs, s, walkableLayer)
    ensures Readable(EligibleOnly(mfs, s, walkableLayer), s, walkableLayer)
    ensures RootTriangles(EligibleOnly(mfs, s, walkableLayer), s, walkableLayer) == RootTriangles(mfs, s, walkableLayer)
    decreases |mfs|
  {
    var eo := EligibleOnly(mfs, s, walkableLayer);
    EligibleOnlyMembers(mfs, s, walkableLayer);
    forall g | 0 <= g < |eo| && Eligible(eo[g], s, walkableLayer)
      ensures WellFormed(eo[g].sharedMesh.value)
    {
      var h :| 0 <= h < |mfs| && mfs[h] == eo[g];
    }
    if |mfs| > 0 {
      var init := mfs[..|mfs| - 1];
      var last := mfs[|mfs| - 1];
      ReadablePrefix(mfs, s, walkableLayer, |mfs| - 1);
      SkippedMeshesContributeNothing(init, s, walkableLayer);
      var eo0 := EligibleOnly(init, s, walkableLayer);
      if Eligible(last, s, walkableLayer) {
        assert eo == eo0 + [last];
        assert eo[..|eo| - 1] == eo0;
      } else {
        assert eo == eo0;
      }
    }
  }

  /** Meshes are taken in filter order: the triangles of a split list are those of its parts, concatenated. */
  lemma {:induction false} RootTrianglesConcat(a: seq<MeshFilter>, b: seq<MeshFilter>, s: Settings, walkableLayer: int)
    requires Readable(a + b, s, walkableLayer)
    ensures Readable(a, s, walkableLayer) && Readable(b, s, walkableLayer)
    ensures RootTriangles(a + b, s, walkableLayer) == RootTriangles(a, s, walkableLayer) + RootTriangles(b, s, walkableLayer)
    decreases |b|
  {
    forall g | 0 <= g < |a| && Eligible(a[g], s, walkableLayer) ensures WellFormed(a[g].sharedMesh.value) {
      assert (a + b)[g] == a[g];
    }
    forall g | 0 <= g < |b| && Eligible(b[g], s, walkableLayer) ensures WellFormed(b[g].sharedMesh.value) {
      assert (a + b)[|a| + g] == b[g];
    }
    if |b| > 0 {
      var b0 := b[..|b| - 1];
      var last := b[|b| - 1];
      assert (a + b)[..|a + b| - 1] == a + b0;
      ReadablePrefix(a + b, s, walkableLayer, |a + b| - 1);
      RootTrianglesConcat(a, b0, s, walkableLayer);
    } else {
      assert a + b == a;
    }
  }

  /**
   * The collider of a call that raises nothing: none iff no triangle was kept;
   * otherwise three vertices and three indices per kept triangle, the identity
   * index buffer, vertex 3j + c is corner c of the j-th kept triangle after
   * offset and root transform, 32-bit indices iff more than 65535 vertices,
   * that is iff at least 21846 triangles were kept (so that under 16-bit
   * indices every index is below 2^16), and the bounds of those vertices.
   */
  lemma ExpectedCollider(mfs: seq<MeshFilter>, s: Settings, walkableLayer: int, invRoot: Matrix3x4, sqrt: real -> real)
    requires Readable(mfs, s, walkableLayer)
    ensures var b := ExpectedBuild(mfs, s, walkableLayer, invRoot, sqrt);
      var kept := KeptTriangles(mfs, s, walkableLayer, sqrt);
      b.addedTris == |kept| &&
      (b.built == if kept == [] then 0 else 1) &&
      (b.collider.None? <==> kept == []) &&
      (b.collider.Some? ==>
        var c := b.collider.value;
        |c.vertices| == |c.triangles| == 3 * |kept| &&
        (forall k :: 0 <= k < |c.triangles| ==> c.triangles[k] == k) &&
        (forall j, corner :: 0 <= j < |kept| && 0 <= corner < 3 ==>
          c.vertices[3 * j + corner] == Corner(Place(kept[j], s.skin, invRoot, sqrt), corner)) &&
        (c.indexFormat == IndexFormat.UInt32 <==> |kept| >= 21846) &&
        (c.indexFormat == IndexFormat.UInt16 ==> forall k :: 0 <= k < |c.triangles| ==> c.triangles[k] < 0x1_0000) &&
        c.bounds == BoundsOf(c.vertices))
  {
    var kept := KeptTriangles(mfs, s, walkableLayer, sqrt);
    var placed := Placed(kept, s.skin, invRoot, sqrt);
    forall j, corner | 0 <= j < |kept| && 0 <= corner < 3
      ensures Flatten(placed)[3 * j + corner] == Corner(Place(kept[j], s.skin, invRoot, sqrt), corner)
    {
      FlattenAt(placed, j, corner);
      PlacedAt(kept, s.skin, invRoot, sqrt, j);
    }
  }
}
