/**
 * Concrete roots: a walkable unit square, the same square facing down, the
 * square on another layer, and a mesh whose triangle array is cut short.
 * The corners and the layer are parameters fixed by a precondition, so that
 * each scenario is stated about values rather than literals.
 */
module Scenarios {
  import opened Wrappers
  import opened Vectors
  import opened Bounds
  import opened Classify
  import opened ColliderMesh
  import opened Surface

  /** The corners of the unit square in the ground plane, in the order the meshes list them. */
  predicate UnitSquare(p0: Vec3, p1: Vec3, p2: Vec3, p3: Vec3)
  {
    p0 == Vec3(0.0, 0.0, 0.0) && p1 == Vec3(0.0, 0.0, 1.0) && p2 == Vec3(1.0, 0.0, 1.0) && p3 == Vec3(1.0, 0.0, 0.0)
  }

  /** The square as two triangles wound so that their normals point up. */
  function SquareUp(p0: Vec3, p1: Vec3, p2: Vec3, p3: Vec3): MeshData
  {
    MeshData([p0, p1, p2, p3], [0, 1, 2, 0, 2, 3])
  }

  /** The same square with the winding reversed: both normals point down. */
  function SquareDown(p0: Vec3, p1: Vec3, p2: Vec3, p3: Vec3): MeshData
  {
    MeshData([p0, p1, p2, p3], [0, 2, 1, 0, 3, 2])
  }

  /** A filter on `layer` with an enabled, active renderer and no transform. */
  function FilterOn(mesh: MeshData, layer: int): MeshFilter
  {
    MeshFilter(layer, Some(Renderer(true, true)), Some(mesh), Identity)
  }

  /** No skin, 0.01 minimum area, only the walkable layer, disabled renderers ignored. */
  function SquareSettings(minUpDot: real): Settings
  {
    Settings(minUpDot, 0.0, 0.01, true, true)
  }

  /** Such a filter passes all three skips under the scenarios' settings, for the walkable layer. */
  lemma FilterOnEligible(mesh: MeshData, layer: int, minUpDot: real)
    ensures Eligible(FilterOn(mesh, layer), SquareSettings(minUpDot), layer)
  {
  }

  /** A triangle whose edge cross product is the unit up vector faces straight up with area one half. */
  lemma FacingUp(t: Tri, sqrt: real -> real)
    requires EdgeCross(t) == Up && sqrt(1.0) == 1.0
    ensures FaceNormal(t, sqrt) == Up && DotUp(t, sqrt) == 1.0 && Area(t, sqrt) == 0.5
  {
    assert Dot(Up, Up) == 1.0;
    assert Magnitude(Up, sqrt) == 1.0;
  }

  /** A triangle whose edge cross product is the unit down vector faces straight down. */
  lemma FacingDown(t: Tri, sqrt: real -> real)
    requires EdgeCross(t) == Vec3(0.0, -1.0, 0.0) && sqrt(1.0) == 1.0
    ensures DotUp(t, sqrt) == -1.0
  {
    var down := Vec3(0.0, -1.0, 0.0);
    assert Dot(down, down) == 1.0;
    assert Magnitude(down, sqrt) == 1.0;
    assert FaceNormal(t, sqrt) == down;
  }

  // Each cross product is first taken of literal corners, the edge vectors
  // and the product in lemmas of their own, so that every product is between
  // literal coordinates.

  lemma FirstUpEdges()
    ensures EdgeCross(Tri(Vec3(0.0, 0.0, 0.0), Vec3(0.0, 0.0, 1.0), Vec3(1.0, 0.0, 1.0))) == Cross(Vec3(0.0, 0.0, 1.0), Vec3(1.0, 0.0, 1.0))
  {
  }

  lemma FirstUpProduct()
    ensures Cross(Vec3(0.0, 0.0, 1.0), Vec3(1.0, 0.0, 1.0)) == Up
  {
  }

  lemma FirstUpCross(p0: Vec3, p1: Vec3, p2: Vec3, p3: Vec3)
    requires UnitSquare(p0, p1, p2, p3)
    ensures EdgeCross(Tri(p0, p1, p2)) == Up
  {
    FirstUpEdges();
    FirstUpProduct();
  }

  lemma SecondUpEdges()
    ensures EdgeCross(Tri(Vec3(0.0, 0.0, 0.0), Vec3(1.0, 0.0, 1.0), Vec3(1.0, 0.0, 0.0))) == Cross(Vec3(1.0, 0.0, 1.0), Vec3(1.0, 0.0, 0.0))
  {
  }

  lemma SecondUpProduct()
    ensures Cross(Vec3(1.0, 0.0, 1.0), Vec3(1.0, 0.0, 0.0)) == Up
  {
  }

  lemma SecondUpCross(p0: Vec3, p1: Vec3, p2: Vec3, p3: Vec3)
    requires UnitSquare(p0, p1, p2, p3)
    ensures EdgeCross(Tri(p0, p2, p3)) == Up
  {
    SecondUpEdges();
    SecondUpProduct();
  }

  lemma FirstDownEdges()
    ensures EdgeCross(Tri(Vec3(0.0, 0.0, 0.0), Vec3(1.0, 0.0, 1.0), Vec3(0.0, 0.0, 1.0))) == Cross(Vec3(1.0, 0.0, 1.0), Vec3(0.0, 0.0, 1.0))
  {
  }

  lemma FirstDownProduct()
    ensures Cross(Vec3(1.0, 0.0, 1.0), Vec3(0.0, 0.0, 1.0)) == Vec3(0.0, -1.0, 0.0)
  {
  }

  lemma FirstDownCross(p0: Vec3, p1: Vec3, p2: Vec3, p3: Vec3)
    requires UnitSquare(p0, p1, p2, p3)
    ensures EdgeCross(Tri(p0, p2, p1)) == Vec3(0.0, -1.0, 0.0)
  {
    FirstDownEdges();
    FirstDownProduct();
  }

  lemma SecondDownEdges()
    ensures EdgeCross(Tri(Vec3(0.0, 0.0, 0.0), Vec3(1.0, 0.0, 0.0), Vec3(1.0, 0.0, 1.0))) == Cross(Vec3(1.0, 0.0, 0.0), Vec3(1.0, 0.0, 1.0))
  {
  }

  lemma SecondDownProduct()
    ensures Cross(Vec3(1.0, 0.0, 0.0), Vec3(1.0, 0.0, 1.0)) == Vec3(0.0, -1.0, 0.0)
  {
  }

  lemma SecondDownCross(p0: Vec3, p1: Vec3, p2: Vec3, p3: Vec3)
    requires UnitSquare(p0, p1, p2, p3)
    ensures EdgeCross(Tri(p0, p3, p2)) == Vec3(0.0, -1.0, 0.0)
  {
    SecondDownEdges();
    SecondDownProduct();
  }

  /** The world triangles of a six-index mesh under the identity transform. */
  lemma TwoTriangles(m: MeshData, layer: int, a: Tri, b: Tri)
    requires WellFormed(m) && |m.triangles| == 6
    requires a == Tri(m.vertices[m.triangles[0]], m.vertices[m.triangles[1]], m.vertices[m.triangles[2]])
    requires b == Tri(m.vertices[m.triangles[3]], m.vertices[m.triangles[4]], m.vertices[m.triangles[5]])
    ensures MeshTriangles(FilterOn(m, layer)) == [a, b]
  {
    var t := m.triangles;
    IdentityFixesPoints(m.vertices[t[0]]);
    IdentityFixesPoints(m.vertices[t[1]]);
    IdentityFixesPoints(m.vertices[t[2]]);
    IdentityFixesPoints(m.vertices[t[3]]);
    IdentityFixesPoints(m.vertices[t[4]]);
    IdentityFixesPoints(m.vertices[t[5]]);
    WorldTrianglesEnumerate(m, Identity, 2);
  }

  /** A root holding one eligible filter examines exactly that filter's triangles. */
  lemma SingleFilterRoot(mf: MeshFilter, s: Settings, layer: int)
    requires Eligible(mf, s, layer) && WellFormed(mf.sharedMesh.value)
    ensures Readable([mf], s, layer)
    ensures RootTriangles([mf], s, layer) == MeshTriangles(mf)
  {
    assert [mf][..0] == [];
  }

  /** Nothing kept: nothing built. */
  lemma NothingKeptBuildsNothing(mfs: seq<MeshFilter>, s: Settings, layer: int, invRoot: Matrix3x4, sqrt: real -> real)
    requires Readable(mfs, s, layer) && KeptTriangles(mfs, s, layer, sqrt) == []
    ensures ExpectedBuild(mfs, s, layer, invRoot, sqrt) == Build(0, None, 0)
  {
  }

  /** Some kept triangles: one collider over their gathered vertices. */
  lemma KeptBuildsCollider(mfs: seq<MeshFilter>, s: Settings, layer: int, invRoot: Matrix3x4, sqrt: real -> real,
                           ts: seq<Tri>, vs: seq<Vec3>)
    requires Readable(mfs, s, layer) && KeptTriangles(mfs, s, layer, sqrt) == ts && |ts| > 0
    requires Flatten(Placed(ts, s.skin, invRoot, sqrt)) == vs
    ensures |vs| > 0
    ensures ExpectedBuild(mfs, s, layer, invRoot, sqrt)
         == Build(1, Some(Collider(vs, IndexRange(|vs|), IndexFormatFor(|vs|), BoundsOf(vs))), |ts|)
  {
  }

  /** Of two triangles, Kept keeps each that passes the thresholds, in order. */
  lemma KeptOfTwo(a: Tri, b: Tri, minUpDot: real, minTriArea: real, sqrt: real -> real)
    ensures Kept([a, b], minUpDot, minTriArea, sqrt)
         == (if Keep(a, minUpDot, minTriArea, sqrt) then [a] else [])
          + (if Keep(b, minUpDot, minTriArea, sqrt) then [b] else [])
  {
    assert [a, b][..1] == [a];
    assert [a][..0] == [];
    assert Kept([a], minUpDot, minTriArea, sqrt) == (if Keep(a, minUpDot, minTriArea, sqrt) then [a] else []);
  }

  lemma BothKept(a: Tri, b: Tri, minUpDot: real, minTriArea: real, sqrt: real -> real)
    requires Keep(a, minUpDot, minTriArea, sqrt) && Keep(b, minUpDot, minTriArea, sqrt)
    ensures Kept([a, b], minUpDot, minTriArea, sqrt) == [a, b]
  {
    KeptOfTwo(a, b, minUpDot, minTriArea, sqrt);
    assert [a] + [b] == [a, b];
  }

  lemma NeitherKept(a: Tri, b: Tri, minUpDot: real, minTriArea: real, sqrt: real -> real)
    requires DotUp(a, sqrt) < minUpDot && DotUp(b, sqrt) < minUpDot
    ensures Kept([a, b], minUpDot, minTriArea, sqrt) == []
  {
    KeepIffBothThresholds(a, minUpDot, minTriArea, sqrt);
    KeepIffBothThresholds(b, minUpDot, minTriArea, sqrt);
    KeptOfTwo(a, b, minUpDot, minTriArea, sqrt);
  }

  /** With no skin and the identity root, two triangles stay where they are and are flattened corner by corner. */
  lemma GatherTwo(a: Tri, b: Tri, sqrt: real -> real)
    ensures Flatten(Placed([a, b], 0.0, Identity, sqrt)) == [a.v0, a.v1, a.v2, b.v0, b.v1, b.v2]
  {
    NoSkinNoOffset(a, Identity, sqrt);
    NoSkinNoOffset(b, Identity, sqrt);
    assert [a, b][..1] == [a];
    assert [a][..0] == [];
    assert Placed([a, b], 0.0, Identity, sqrt) == [a, b];
    assert Flatten([a, b]) == [a.v0, a.v1, a.v2, b.v0, b.v1, b.v2];
  }

  lemma SixIndices()
    ensures IndexRange(6) == [0, 1, 2, 3, 4, 5]
  {
  }

  /** The bounds of the square's vertex buffer are its two opposite corners. */
  lemma SquareBounds(p0: Vec3, p1: Vec3, p2: Vec3, p3: Vec3)
    requires UnitSquare(p0, p1, p2, p3)
    ensures BoundsOf([p0, p1, p2, p0, p2, p3]) == Aabb(p0, p2)
  {
    var vs := [p0, p1, p2, p0, p2, p3];
    var b := Aabb(p0, p2);
    forall k | 0 <= k < |vs| ensures Encloses(b, vs[k]) {
      assert vs[k] == p0 || vs[k] == p1 || vs[k] == p2 || vs[k] == p3;
    }
    assert vs[0] == p0 && vs[2] == p2;
    forall a: Axis ensures exists k :: 0 <= k < |vs| && Coord(vs[k], a) == Coord(b.min, a) {
      assert 0 <= 0 < |vs| && Coord(vs[0], a) == Coord(b.min, a);
    }
    forall a: Axis ensures exists k :: 0 <= k < |vs| && Coord(vs[k], a) == Coord(b.max, a) {
      assert 0 <= 2 < |vs| && Coord(vs[2], a) == Coord(b.max, a);
    }
    TightBoxIsBoundsOf(vs, b);
  }

  /** The squares' meshes are well formed and list their two triangles in order. */
  lemma SquareUpMesh(p0: Vec3, p1: Vec3, p2: Vec3, p3: Vec3, layer: int)
    ensures WellFormed(SquareUp(p0, p1, p2, p3))
    ensures MeshTriangles(FilterOn(SquareUp(p0, p1, p2, p3), layer)) == [Tri(p0, p1, p2), Tri(p0, p2, p3)]
  {
    TwoTriangles(SquareUp(p0, p1, p2, p3), layer, Tri(p0, p1, p2), Tri(p0, p2, p3));
  }

  lemma SquareDownMesh(p0: Vec3, p1: Vec3, p2: Vec3, p3: Vec3, layer: int)
    ensures WellFormed(SquareDown(p0, p1, p2, p3))
    ensures MeshTriangles(FilterOn(SquareDown(p0, p1, p2, p3), layer)) == [Tri(p0, p2, p1), Tri(p0, p3, p2)]
  {
    TwoTriangles(SquareDown(p0, p1, p2, p3), layer, Tri(p0, p2, p1), Tri(p0, p3, p2));
  }

  /** A triangle facing straight up passes a threshold in (0, 1] and the 0.01 area minimum. */
  lemma FacingUpKept(t: Tri, minUpDot: real, sqrt: real -> real)
    requires EdgeCross(t) == Up
    requires 0.0 < minUpDot <= 1.0
    requires sqrt(1.0) == 1.0
    ensures Keep(t, minUpDot, 0.01, sqrt)
  {
    FacingUp(t, sqrt);
  }

  lemma UpwardPairKept(a: Tri, b: Tri, minUpDot: real, sqrt: real -> real)
    requires EdgeCross(a) == Up && EdgeCross(b) == Up
    requires 0.0 < minUpDot <= 1.0
    requires sqrt(1.0) == 1.0
    ensures Kept([a, b], minUpDot, 0.01, sqrt) == [a, b]
  {
    FacingUpKept(a, minUpDot, sqrt);
    FacingUpKept(b, minUpDot, sqrt);
    BothKept(a, b, minUpDot, 0.01, sqrt);
  }

  /** Both triangles of the upward square pass a threshold in (0, 1]. */
  lemma SquareUpKept(p0: Vec3, p1: Vec3, p2: Vec3, p3: Vec3, minUpDot: real, sqrt: real -> real)
    requires UnitSquare(p0, p1, p2, p3)
    requires 0.0 < minUpDot <= 1.0
    requires sqrt(1.0) == 1.0
    ensures Kept([Tri(p0, p1, p2), Tri(p0, p2, p3)], minUpDot, 0.01, sqrt) == [Tri(p0, p1, p2), Tri(p0, p2, p3)]
  {
    FirstUpCross(p0, p1, p2, p3);
    SecondUpCross(p0, p1, p2, p3);
    UpwardPairKept(Tri(p0, p1, p2), Tri(p0, p2, p3), minUpDot, sqrt);
  }

  /** Two triangles facing straight down fail any threshold above -1. */
  lemma DownwardPairDropped(a: Tri, b: Tri, minUpDot: real, sqrt: real -> real)
    requires EdgeCross(a) == Vec3(0.0, -1.0, 0.0) && EdgeCross(b) == Vec3(0.0, -1.0, 0.0)
    requires -1.0 < minUpDot
    requires sqrt(1.0) == 1.0
    ensures Kept([a, b], minUpDot, 0.01, sqrt) == []
  {
    FacingDown(a, sqrt);
    FacingDown(b, sqrt);
    NeitherKept(a, b, minUpDot, 0.01, sqrt);
  }

  /** Neither triangle of the downward square passes a threshold above -1. */
  lemma SquareDownDropped(p0: Vec3, p1: Vec3, p2: Vec3, p3: Vec3, minUpDot: real, sqrt: real -> real)
    requires UnitSquare(p0, p1, p2, p3)
    requires -1.0 < minUpDot
    requires sqrt(1.0) == 1.0
    ensures Kept([Tri(p0, p2, p1), Tri(p0, p3, p2)], minUpDot, 0.01, sqrt) == []
  {
    FirstDownCross(p0, p1, p2, p3);
    SecondDownCross(p0, p1, p2, p3);
    DownwardPairDropped(Tri(p0, p2, p1), Tri(p0, p3, p2), minUpDot, sqrt);
  }

  /** One unmoved filter whose two triangles are both kept builds one collider over their six corners. */
  lemma PairKeptBuildsCollider(mf: MeshFilter, minUpDot: real, layer: int, a: Tri, b: Tri, sqrt: real -> real)
    requires Eligible(mf, SquareSettings(minUpDot), layer) && WellFormed(mf.sharedMesh.value)
    requires MeshTriangles(mf) == [a, b]
    requires Kept([a, b], minUpDot, 0.01, sqrt) == [a, b]
    ensures Readable([mf], SquareSettings(minUpDot), layer)
    ensures ExpectedBuild([mf], SquareSettings(minUpDot), layer, Identity, sqrt)
         == Build(1, Some(Collider([a.v0, a.v1, a.v2, b.v0, b.v1, b.v2], [0, 1, 2, 3, 4, 5], IndexFormat.UInt16,
                                   BoundsOf([a.v0, a.v1, a.v2, b.v0, b.v1, b.v2]))), 2)
  {
    var s := SquareSettings(minUpDot);
    SingleFilterRoot(mf, s, layer);
    GatherTwo(a, b, sqrt);
    KeptBuildsCollider([mf], s, layer, Identity, sqrt, [a, b], [a.v0, a.v1, a.v2, b.v0, b.v1, b.v2]);
    SixIndices();
  }

  /** One filter whose triangles are all dropped builds nothing. */
  lemma PairDroppedBuildsNothing(mf: MeshFilter, minUpDot: real, layer: int, a: Tri, b: Tri, sqrt: real -> real)
    requires Eligible(mf, SquareSettings(minUpDot), layer) && WellFormed(mf.sharedMesh.value)
    requires MeshTriangles(mf) == [a, b]
    requires Kept([a, b], minUpDot, 0.01, sqrt) == []
    ensures Readable([mf], SquareSettings(minUpDot), layer)
    ensures ExpectedBuild([mf], SquareSettings(minUpDot), layer, Identity, sqrt) == Build(0, None, 0)
  {
    var s := SquareSettings(minUpDot);
    SingleFilterRoot(mf, s, layer);
    NothingKeptBuildsNothing([mf], s, layer, Identity, sqrt);
  }

  /**
   * The walkable unit square with a slope threshold in (0, 1] (35 degrees in
   * the editor's default) gives one collider of six unwelded vertices, the
   * identity indices, 16-bit format and the square's extent as bounds.
   */
  lemma UnitSquareBuildsCollider(p0: Vec3, p1: Vec3, p2: Vec3, p3: Vec3, layer: int, minUpDot: real, sqrt: real -> real)
    requires UnitSquare(p0, p1, p2, p3)
    requires 0.0 < minUpDot <= 1.0
    requires sqrt(1.0) == 1.0
    ensures Readable([FilterOn(SquareUp(p0, p1, p2, p3), layer)], SquareSettings(minUpDot), layer)
    ensures ExpectedBuild([FilterOn(SquareUp(p0, p1, p2, p3), layer)], SquareSettings(minUpDot), layer, Identity, sqrt)
         == Build(1, Some(Collider([p0, p1, p2, p0, p2, p3], [0, 1, 2, 3, 4, 5], IndexFormat.UInt16, Aabb(p0, p2))), 2)
  {
    var a, b := Tri(p0, p1, p2), Tri(p0, p2, p3);
    SquareUpMesh(p0, p1, p2, p3, layer);
    FilterOnEligible(SquareUp(p0, p1, p2, p3), layer, minUpDot);
    SquareUpKept(p0, p1, p2, p3, minUpDot, sqrt);
    PairKeptBuildsCollider(FilterOn(SquareUp(p0, p1, p2, p3), layer), minUpDot, layer, a, b, sqrt);
    SquareBounds(p0, p1, p2, p3);
  }

  /** The downward-facing square keeps nothing, so no collider is built. */
  lemma DownwardSquareBuildsNothing(p0: Vec3, p1: Vec3, p2: Vec3, p3: Vec3, layer: int, minUpDot: real, sqrt: real -> real)
    requires UnitSquare(p0, p1, p2, p3)
    requires -1.0 < minUpDot
    requires sqrt(1.0) == 1.0
    ensures Readable([FilterOn(SquareDown(p0, p1, p2, p3), layer)], SquareSettings(minUpDot), layer)
    ensures ExpectedBuild([FilterOn(SquareDown(p0, p1, p2, p3), layer)], SquareSettings(minUpDot), layer, Identity, sqrt)
         == Build(0, None, 0)
  {
    var a, b := Tri(p0, p2, p1), Tri(p0, p3, p2);
    SquareDownMesh(p0, p1, p2, p3, layer);
    FilterOnEligible(SquareDown(p0, p1, p2, p3), layer, minUpDot);
    SquareDownDropped(p0, p1, p2, p3, minUpDot, sqrt);
    PairDroppedBuildsNothing(FilterOn(SquareDown(p0, p1, p2, p3), layer), minUpDot, layer, a, b, sqrt);
  }

  /** On any layer other than the walkable one the square is skipped, so no collider is built. */
  lemma OtherLayerBuildsNothing(p0: Vec3, p1: Vec3, p2: Vec3, p3: Vec3, layer: int, walkableLayer: int,
                                minUpDot: real, invRoot: Matrix3x4, sqrt: real -> real)
    requires layer != walkableLayer
    ensures Readable([FilterOn(SquareUp(p0, p1, p2, p3), layer)], SquareSettings(minUpDot), walkableLayer)
    ensures ExpectedBuild([FilterOn(SquareUp(p0, p1, p2, p3), layer)], SquareSettings(minUpDot), walkableLayer, invRoot, sqrt)
         == Build(0, None, 0)
  {
    var mfs := [FilterOn(SquareUp(p0, p1, p2, p3), layer)];
    assert mfs[..0] == [];
    assert RootTriangles(mfs, SquareSettings(minUpDot), walkableLayer) == [];
    NothingKeptBuildsNothing(mfs, SquareSettings(minUpDot), walkableLayer, invRoot, sqrt);
  }

  /** A triangle array of four entries makes the loop read past its end, for an eligible mesh. */
  lemma ShortTriangleArrayRaises(p0: Vec3, p1: Vec3, p2: Vec3, layer: int, minUpDot: real)
    ensures !Readable([FilterOn(MeshData([p0, p1, p2], [0, 1, 2, 0]), layer)], SquareSettings(minUpDot), layer)
  {
    var mf := FilterOn(MeshData([p0, p1, p2], [0, 1, 2, 0]), layer);
    assert Eligible([mf][0], SquareSettings(minUpDot), layer);
    assert !WellFormed(mf.sharedMesh.value);
  }
}
