/**
 * Per-triangle logic of the top-surface builder: the walkable test on the
 * face normal and on the area, and the skin offset and root transform that
 * a kept triangle receives.
 */
module Classify {
  import opened Vectors

  /** A triangle given by its three corners (in world space while it is classified). */
  datatype Tri = Tri(v0: Vec3, v1: Vec3, v2: Vec3)

  /** Corner `c` of `t`, in the order the index buffer lists them. */
  function Corner(t: Tri, c: nat): Vec3
    requires c < 3
  {
    if c == 0 then t.v0 else if c == 1 then t.v1 else t.v2
  }

  /** The raw edge cross product (w1 - w0) x (w2 - w0). */
  function EdgeCross(t: Tri): Vec3 { Cross(Sub(t.v1, t.v0), Sub(t.v2, t.v0)) }

  function FaceNormal(t: Tri, sqrt: real -> real): Vec3 { Normalize(EdgeCross(t), sqrt) }

  /** Alignment of the face normal with the world up axis. */
  function DotUp(t: Tri, sqrt: real -> real): real { Dot(FaceNormal(t, sqrt), Up) }

  function Area(t: Tri, sqrt: real -> real): real { 0.5 * Magnitude(EdgeCross(t), sqrt) }

  /** The two rejections of the loop body: too steep first, too small second. */
  predicate Admits(dotUp: real, area: real, minUpDot: real, minTriArea: real)
  {
    !(dotUp < minUpDot) && !(area < minTriArea)
  }

  predicate Keep(t: Tri, minUpDot: real, minTriArea: real, sqrt: real -> real)
  {
    Admits(DotUp(t, sqrt), Area(t, sqrt), minUpDot, minTriArea)
  }

  /** Each corner pushed by `skin` along the face normal. */
  function Offset(t: Tri, skin: real, sqrt: real -> real): Tri
  {
    var n := FaceNormal(t, sqrt);
    Tri(Add(t.v0, Scale(n, skin)), Add(t.v1, Scale(n, skin)), Add(t.v2, Scale(n, skin)))
  }

  function Transform(m: Matrix3x4, t: Tri): Tri
  {
    Tri(MultiplyPoint3x4(m, t.v0), MultiplyPoint3x4(m, t.v1), MultiplyPoint3x4(m, t.v2))
  }

  /** Where a kept world triangle lands in the root's local frame. */
  function Place(t: Tri, skin: real, invRoot: Matrix3x4, sqrt: real -> real): Tri
  {
    Transform(invRoot, Offset(t, skin, sqrt))
  }

  /** Mathf.Deg2Rad as the single-precision constant the editor uses. */
  const Deg2Rad: real := 0.0174532924

  /** The largest slope the slider allows, in degrees. */
  const MaxSlopeSlider: real := 60.0

  /** minUpDot = Mathf.Cos(maxSlopeDeg * Mathf.Deg2Rad); the cosine is the platform's. */
  function MinUpDot(maxSlopeDeg: real, cos: real -> real): real { cos(maxSlopeDeg * Deg2Rad) }

  /** A triangle is kept exactly when it passes both thresholds, inclusively. */
  lemma KeepIffBothThresholds(t: Tri, minUpDot: real, minTriArea: real, sqrt: real -> real)
    ensures Keep(t, minUpDot, minTriArea, sqrt)
        <==> DotUp(t, sqrt) >= minUpDot && Area(t, sqrt) >= minTriArea
  {
  }

  /** Lowering either threshold never rejects a triangle that was kept. */
  lemma KeepMonotone(t: Tri, minUpDot: real, minTriArea: real, minUpDot': real, minTriArea': real, sqrt: real -> real)
    requires minUpDot <= minUpDot' && minTriArea <= minTriArea'
    requires Keep(t, minUpDot', minTriArea', sqrt)
    ensures Keep(t, minUpDot, minTriArea, sqrt)
  {
  }

  /**
   * A (near-)degenerate triangle has a zero face normal, so its up alignment
   * is 0 and a positive threshold rejects it before the area is looked at.
   */
  lemma DegenerateRejected(t: Tri, minUpDot: real, minTriArea: real, sqrt: real -> real)
    requires Magnitude(EdgeCross(t), sqrt) <= NormalizeEpsilon
    requires minUpDot > 0.0
    ensures FaceNormal(t, sqrt) == Zero && DotUp(t, sqrt) == 0.0
    ensures !Keep(t, minUpDot, minTriArea, sqrt)
  {
    NormalizeOfShortIsZero(EdgeCross(t), sqrt);
  }

  /** Collinear corners (the third on the line of the first edge) give a zero cross product. */
  lemma CollinearHasZeroCross(t: Tri, k: real)
    requires Sub(t.v2, t.v0) == Scale(Sub(t.v1, t.v0), k)
    ensures EdgeCross(t) == Zero
  {
    CrossOfParallelIsZero(Sub(t.v1, t.v0), k);
  }

  /**
   * Collinear corners make a triangle degenerate: whatever the square root,
   * its normal is the zero vector, so any positive threshold rejects it.
   */
  lemma CollinearRejected(t: Tri, k: real, minUpDot: real, minTriArea: real, sqrt: real -> real)
    requires Sub(t.v2, t.v0) == Scale(Sub(t.v1, t.v0), k)
    requires minUpDot > 0.0
    ensures !Keep(t, minUpDot, minTriArea, sqrt)
  {
    CollinearHasZeroCross(t, k);
  }

  /**
   * Every slider position (0 to 60 degrees) yields a positive threshold, for
   * any cosine that is positive on that range; so degenerate triangles are
   * always rejected.
   */
  lemma SliderRejectsDegenerate(maxSlopeDeg: real, cos: real -> real, t: Tri, minTriArea: real, sqrt: real -> real)
    requires 0.0 <= maxSlopeDeg <= MaxSlopeSlider
    requires forall r :: 0.0 <= r <= MaxSlopeSlider * Deg2Rad ==> cos(r) > 0.0
    requires Magnitude(EdgeCross(t), sqrt) <= NormalizeEpsilon
    ensures MinUpDot(maxSlopeDeg, cos) > 0.0
    ensures !Keep(t, MinUpDot(maxSlopeDeg, cos), minTriArea, sqrt)
  {
    assert 0.0 <= maxSlopeDeg * Deg2Rad <= MaxSlopeSlider * Deg2Rad;
    DegenerateRejected(t, MinUpDot(maxSlopeDeg, cos), minTriArea, sqrt);
  }

  /**
   * The skin is added in world space and the sum is then moved to the root
   * frame: each placed corner is the moved world corner plus the root
   * matrix's linear part applied to the skin offset.
   */
  lemma PlaceSeparatesSkin(t: Tri, skin: real, invRoot: Matrix3x4, sqrt: real -> real, c: nat)
    requires c < 3
    ensures Corner(Place(t, skin, invRoot, sqrt), c)
         == Add(MultiplyPoint3x4(invRoot, Corner(t, c)),
                MultiplyPoint3x4(Matrix3x4(invRoot.row0, invRoot.row1, invRoot.row2, Zero), Scale(FaceNormal(t, sqrt), skin)))
  {
    MultiplyPointIsAffine(invRoot, Corner(t, c), Scale(FaceNormal(t, sqrt), skin));
  }

  /** With no skin the kept corners are the world corners, only re-expressed in the root frame. */
  lemma NoSkinNoOffset(t: Tri, invRoot: Matrix3x4, sqrt: real -> real)
    ensures Offset(t, 0.0, sqrt) == t
    ensures Place(t, 0.0, invRoot, sqrt) == Transform(invRoot, t)
  {
  }

  /**
   * With an exact square root and a non-degenerate triangle, each corner moves
   * by exactly `skin` (squared distance skin * skin) along the face normal.
   */
  lemma SkinMovesBySkin(t: Tri, skin: real, sqrt: real -> real, c: nat)
    requires c < 3
    requires Magnitude(EdgeCross(t), sqrt) > NormalizeEpsilon
    requires Magnitude(EdgeCross(t), sqrt) * Magnitude(EdgeCross(t), sqrt) == Dot(EdgeCross(t), EdgeCross(t))
    ensures var d := Sub(Corner(Offset(t, skin, sqrt), c), Corner(t, c));
      d == Scale(FaceNormal(t, sqrt), skin) && Dot(d, d) == skin * skin
  {
    var n := FaceNormal(t, sqrt);
    NormalizeHasUnitLength(EdgeCross(t), sqrt);
    ScaledSquaredLength(n, skin);
    var d := Sub(Corner(Offset(t, skin, sqrt), c), Corner(t, c));
    assert d == Scale(n, skin);
  }
}
