# Top-surface collider builder, modelled in Dafny

The repository contains a Unity editor tool that gives each selected root
object one `MeshCollider` made only of the walkable top surfaces below it.
`BuildForRoot` visits every `MeshFilter` under the root. It skips a filter
that has no mesh. When `onlyWalkableLayer` is set, it also skips a filter on
another layer than the walkable one. When `ignoreDisabledRenderers` is set,
it also skips a filter whose renderer is missing, disabled or inactive. For each remaining mesh it reads the triangles in groups
of three indices and moves their corners into world space. It keeps a
triangle only when the up-component of its face normal reaches `minUpDot`
(the cosine of the slope limit) and its area reaches `minTriArea`. A kept
triangle is pushed `skin` units along its normal, moved into the root's
local space, and appended as three fresh vertices with three consecutive
indices. If nothing was kept the call returns 0. Otherwise it builds a mesh
whose index format is 16-bit unless there are more than 65535 vertices,
attaches it, and returns 1.

The model is arranged as follows:

- `vectors.dfy` holds Unity's vector arithmetic on exact reals:
  `Cross`, `Dot`, `Normalize` with its 1e-5 cut-off, and `MultiplyPoint3x4`.
- `classify.dfy` holds the per-triangle tests (`Keep`), the skin offset,
  the root transform (`Place`), and `MinUpDot`, which computes the threshold
  from the slider.
- `collider.dfy` holds the output mesh and the choice of index format.
- `bounds.dfy` holds the axis-aligned bounds that `RecalculateBounds`
  computes.
- `accumulator.dfy` holds the two output lists and the triangle counter.
  They are a class whose methods append in place.
- `surface.dfy` is the specification. It defines which filters are eligible,
  which meshes can be read without an index error, and the triangles a root
  contributes. `ExpectedBuild` is the whole result of a call that raises
  nothing.
- `builder.dfy` is the imperative `BuildForRoot`. It has the same loops,
  skips and early exits as the source. It is proved to return
  `ExpectedBuild`, or to report the index error exactly when the source
  would throw one.
- `scenarios.dfy` works through concrete cases:
  - a unit floor square facing up, which becomes a collider;
  - the same square facing down, which becomes nothing;
  - a square on another layer, which becomes nothing;
  - a truncated triangle array, which raises.

Floating-point numbers are exact reals. The square root (used by
`Vector3.Normalize` and `magnitude`) and `Mathf.Cos` (used for `minUpDot`)
are function parameters. Nothing in this model pins them to the platform's
versions. Caller-side values are parameters too:

- the layer that `LayerMask.NameToLayer` returns;
- the root's `worldToLocalMatrix`;
- the list that `GetComponentsInChildren` returns, in its order.

The cut-off is strict (`outVerts.Count > 65535`, line 164), so 65536
vertices already select 32-bit indices.

## Model

| member | source | states |
|---|---|---|
| Builder.BuildForRoot | Assets/Editor/TopSurfaceColliderBuilder.cs:85-189 | The call succeeds exactly when every eligible mesh's triangle array can be read without an index exception. On success the result (0 or 1, collider, triangle count) is the specification `ExpectedBuild` of the filters. |
| Builder.VisitFilter | Assets/Editor/TopSurfaceColliderBuilder.cs:98-157 | A filter that is skipped (layer, renderer, missing mesh) leaves the lists untouched and never fails. An eligible one fails exactly when its mesh is ill formed; otherwise its triangles are examined in order. |
| Builder.GatherMesh | Assets/Editor/TopSurfaceColliderBuilder.cs:125-157 | The triangle loop succeeds exactly when the mesh is well formed. It then appends the placed corners of all kept world-space triangles of the mesh, in order. |
| Builder.ExamineTriangle | Assets/Editor/TopSurfaceColliderBuilder.cs:127-156 | One loop step reads triangle j from indices 3j..3j+2, transforms its corners to world space, and extends the accumulated lists by exactly that triangle's contribution. |
| Builder.AddIfWalkable | Assets/Editor/TopSurfaceColliderBuilder.cs:135-156 | Returns whether the triangle passes both thresholds. A kept triangle appends its three placed corners and three consecutive indices from the old vertex count and bumps the counter; a rejected one changes nothing. |
| Builder.OutOfRangeReadIllFormed | Assets/Editor/TopSurfaceColliderBuilder.cs:127-132 | If an index read or a vertex lookup of the current triangle would go out of range, the mesh is not well formed, so the exception path matches the specification. |
| Builder.GatheredSnoc | Assets/Editor/TopSurfaceColliderBuilder.cs:137-156 | Examining one more triangle appends its three placed corners if it is kept and nothing otherwise; the kept count grows by one or zero accordingly. |
| Builder.RootTrianglesStep | Assets/Editor/TopSurfaceColliderBuilder.cs:98-107 | Visiting one more filter extends the root's triangle sequence by that filter's triangles if it is eligible, and by nothing if it is skipped. |
| Builder.FinishedBuild | Assets/Editor/TopSurfaceColliderBuilder.cs:160-188 | After all filters: no triangles added means result 0 and no collider; otherwise result 1 with the collider made from the accumulated lists and the triangle count. |
| Accumulation.Accumulator.constructor | Assets/Editor/TopSurfaceColliderBuilder.cs:91-96 | The vertex list, the index list and the counter start empty or zero. |
| Accumulation.Accumulator.AddTriangle | Assets/Editor/TopSurfaceColliderBuilder.cs:153-156 | Appends three vertices and the indices baseIdx, baseIdx+1, baseIdx+2 (baseIdx being the old vertex count) and increments the counter, keeping three vertices and three indices per triangle. |
| Accumulation.Accumulator.Finalize | Assets/Editor/TopSurfaceColliderBuilder.cs:160-167 | No mesh exactly when no triangle was added. Otherwise the mesh holds exactly the accumulated vertex and index lists, 3 indices per triangle. Every index is in range and, under 16-bit indices, below 2^16. The format is chosen from the vertex count, and the bounds are those of the accumulated vertices. |
| ColliderMesh.IndexFormatFor | Assets/Editor/TopSurfaceColliderBuilder.cs:164 | Definition without a contract: transcribes the choice of UInt32 for more than 65535 vertices and UInt16 otherwise. Its properties are the two lemmas below. |
| ColliderMesh.IndexFormatIsNarrowestThatFits | Assets/Editor/TopSurfaceColliderBuilder.cs:164-166 | For a mesh whose format was chosen from its vertex count and whose indices are in range, 16-bit format means every index is below 2^16, and 32-bit format is chosen only for more than 65535 vertices. |
| ColliderMesh.IndexFormatBoundary | Assets/Editor/TopSurfaceColliderBuilder.cs:164 | 65535 vertices give UInt16; 65536 vertices give UInt32. |
| Bounds.BoundsOf | Assets/Editor/TopSurfaceColliderBuilder.cs:166-167 | The recalculated bounds enclose every vertex, and each of the six faces is touched by some vertex. |
| Bounds.TightBoxIsBoundsOf | Assets/Editor/TopSurfaceColliderBuilder.cs:166-167 | Any box that encloses all vertices and has each face touched by a vertex is the recalculated bounds, so the bounds are determined by those two properties. |
| Bounds.EnclosesAlongEveryAxis | Assets/Editor/TopSurfaceColliderBuilder.cs:166-167 | A point is enclosed by a box exactly when along each axis it lies between the minimum and the maximum. |
| Bounds.Lowest | Assets/Editor/TopSurfaceColliderBuilder.cs:167 | The lower face along an axis is at most every vertex's coordinate and equals some vertex's coordinate. |
| Bounds.Highest | Assets/Editor/TopSurfaceColliderBuilder.cs:167 | The upper face along an axis is at least every vertex's coordinate and equals some vertex's coordinate. |
| Classify.EdgeCross | Assets/Editor/TopSurfaceColliderBuilder.cs:135 | Definition without a contract: the cross product (w1 - w0) x (w2 - w0). |
| Classify.FaceNormal | Assets/Editor/TopSurfaceColliderBuilder.cs:135 | Definition without a contract: the normalized edge cross product. |
| Classify.DotUp | Assets/Editor/TopSurfaceColliderBuilder.cs:136 | Definition without a contract: the dot product of the face normal with the up vector. |
| Classify.Area | Assets/Editor/TopSurfaceColliderBuilder.cs:140 | Definition without a contract: half the magnitude of the edge cross product. |
| Classify.Admits | Assets/Editor/TopSurfaceColliderBuilder.cs:137-141 | Definition without a contract: neither `dotUp < minUpDot` nor `triArea < minTriArea`. |
| Classify.Keep | Assets/Editor/TopSurfaceColliderBuilder.cs:135-141 | Definition without a contract: Admits applied to the triangle's up-dot and area. Its meaning is stated by KeepIffBothThresholds. |
| Classify.Offset | Assets/Editor/TopSurfaceColliderBuilder.cs:144-146 | Definition without a contract: each corner plus the face normal times skin. Its meaning is stated by SkinMovesBySkin. |
| Classify.Transform | Assets/Editor/TopSurfaceColliderBuilder.cs:149-151 | Definition without a contract: MultiplyPoint3x4 of each corner. |
| Classify.Place | Assets/Editor/TopSurfaceColliderBuilder.cs:144-151 | Definition without a contract: Offset, then Transform by the root's inverse matrix. |
| Classify.MinUpDot | Assets/Editor/TopSurfaceColliderBuilder.cs:44 | Definition without a contract: the cosine of maxSlopeDeg * Deg2Rad, with Deg2Rad as the single-precision constant. |
| Classify.KeepIffBothThresholds | Assets/Editor/TopSurfaceColliderBuilder.cs:135-141 | A triangle is kept exactly when the up-component of its normal is at least minUpDot and its area is at least minTriArea (both comparisons inclusive). |
| Classify.KeepMonotone | Assets/Editor/TopSurfaceColliderBuilder.cs:137-141 | Lowering either threshold never rejects a triangle that was kept. |
| Classify.DegenerateRejected | Assets/Editor/TopSurfaceColliderBuilder.cs:135-137 | A triangle whose edge cross product is no longer than 1e-5 gets the zero normal, an up-dot of 0, and is rejected by any positive minUpDot. |
| Classify.CollinearHasZeroCross | Assets/Editor/TopSurfaceColliderBuilder.cs:135 | Collinear corners give a zero edge cross product. |
| Classify.CollinearRejected | Assets/Editor/TopSurfaceColliderBuilder.cs:135-137 | A triangle with collinear corners is rejected by any positive minUpDot, whatever the square root. |
| Classify.SliderRejectsDegenerate | Assets/Editor/TopSurfaceColliderBuilder.cs:28-44 | For any slider value in 0..60 degrees, the threshold cos(deg * Deg2Rad) is positive when the cosine is positive on that range, so a degenerate triangle is never kept. |
| Classify.NoSkinNoOffset | Assets/Editor/TopSurfaceColliderBuilder.cs:144-151 | With skin 0 the corners are not moved, and placing a triangle is only the root transform. |
| Classify.SkinMovesBySkin | Assets/Editor/TopSurfaceColliderBuilder.cs:144-146 | Each corner moves by skin times the unit face normal, a distance of exactly skin. |
| Classify.PlaceSeparatesSkin | Assets/Editor/TopSurfaceColliderBuilder.cs:144-151 | Each placed corner is the world corner moved into the root frame plus the root matrix's linear part applied to the skin offset: the skin is added before the transform, and the transform's translation is applied once. |
| Vectors.Normalize | Assets/Editor/TopSurfaceColliderBuilder.cs:135 | Definition without a contract: Unity's Vector3.Normalize, the zero vector for a magnitude of at most 1e-5 and v / magnitude otherwise. Its meaning is stated by the two Normalize lemmas. |
| Vectors.MultiplyPoint3x4 | Assets/Editor/TopSurfaceColliderBuilder.cs:130-132 | Definition without a contract: the three matrix rows dotted with the point, plus the translation column. |
| Vectors.MultiplyPointIsAffine | Assets/Editor/TopSurfaceColliderBuilder.cs:130-132 | MultiplyPoint3x4 applies the translation once: offsetting a point offsets its image by the linear part applied to the offset. |
| Vectors.IdentityFixesPoints | Assets/Editor/TopSurfaceColliderBuilder.cs:130-132 | The identity transform leaves every point where it is. |
| Vectors.NormalizeOfShortIsZero | Assets/Editor/TopSurfaceColliderBuilder.cs:135 | Normalize of a vector no longer than 1e-5 is the zero vector. |
| Vectors.NormalizeHasUnitLength | Assets/Editor/TopSurfaceColliderBuilder.cs:135 | With an exact square root, Normalize of a longer vector has length one. |
| Vectors.CrossOfParallelIsZero | Assets/Editor/TopSurfaceColliderBuilder.cs:135 | The cross product of parallel edges is zero. |
| Surface.Eligible | Assets/Editor/TopSurfaceColliderBuilder.cs:100-107 | Definition without a contract: none of the three skips applies. The layer skip applies only under onlyWalkableLayer and the renderer skip only under ignoreDisabledRenderers. |
| Surface.WorldTriangle | Assets/Editor/TopSurfaceColliderBuilder.cs:127-132 | Definition without a contract: the vertices named by indices 3j, 3j+1 and 3j+2, each through MultiplyPoint3x4 with the filter's local-to-world matrix. |
| Surface.ExpectedBuild | Assets/Editor/TopSurfaceColliderBuilder.cs:125-188 | Definition without a contract: the specified result of a call that raises nothing. Its meaning is stated by ExpectedCollider, and BuildForRoot is proved equal to it. |
| Surface.ExpectedCollider | Assets/Editor/TopSurfaceColliderBuilder.cs:153-167 | In the specified result, the count is the number of kept triangles. There is a collider exactly when one was kept. Its vertices are three per kept triangle, and the corner c of the j-th kept triangle, placed, sits at 3j+c. Index k is k. The format is 32-bit exactly when at least 21846 triangles were kept, and under 16-bit every index is below 2^16. The bounds are BoundsOf the vertices. |
| Surface.WorldTrianglesEnumerate | Assets/Editor/TopSurfaceColliderBuilder.cs:125-132 | A mesh yields exactly n triangles for n index triples, the j-th built from indices 3j, 3j+1, 3j+2 through the local-to-world matrix. |
| Surface.MeshTriangleCount | Assets/Editor/TopSurfaceColliderBuilder.cs:125 | A well-formed mesh contributes exactly a third of its index count. |
| Surface.FlattenAt | Assets/Editor/TopSurfaceColliderBuilder.cs:153-154 | Corner c of the j-th appended triangle lands at vertex position 3j+c. |
| Surface.PlacedAt | Assets/Editor/TopSurfaceColliderBuilder.cs:144-151 | Each kept triangle is offset and moved to root space independently of the others. |
| Surface.KeptInOrder | Assets/Editor/TopSurfaceColliderBuilder.cs:125-141 | The kept triangles are a subsequence of those examined: they keep their order, and a triangle is among them exactly when it passes the tests. |
| Surface.KeptMonotone | Assets/Editor/TopSurfaceColliderBuilder.cs:137-141 | Lowering the thresholds keeps every triangle that was kept before, so never fewer. |
| Surface.ReadablePrefix | Assets/Editor/TopSurfaceColliderBuilder.cs:98-107 | If all filters can be read, so can any prefix of them. |
| Surface.EligibleOnlyMembers | Assets/Editor/TopSurfaceColliderBuilder.cs:100-107 | Filtering the list keeps only eligible filters taken from the input. |
| Surface.SkippedMeshesContributeNothing | Assets/Editor/TopSurfaceColliderBuilder.cs:100-107 | Dropping all skipped filters first leaves the root's triangles unchanged. |
| Surface.RootTrianglesConcat | Assets/Editor/TopSurfaceColliderBuilder.cs:98 | The triangles of two consecutive runs of filters are the first run's followed by the second's. |
| Scenarios.UnitSquareBuildsCollider | Assets/Editor/TopSurfaceColliderBuilder.cs:85-189 | A unit floor square with two up-facing triangles, under any threshold in (0, 1] and zero skin, yields result 1. The collider's six vertices are the two triangles' corners, its indices are 0..5, its format is UInt16, and its bounds run from corner (0,0,0) to (1,0,1). |
| Scenarios.DownwardSquareBuildsNothing | Assets/Editor/TopSurfaceColliderBuilder.cs:137-160 | The same square wound downward is rejected by every threshold above -1 and yields result 0 with no collider. |
| Scenarios.OtherLayerBuildsNothing | Assets/Editor/TopSurfaceColliderBuilder.cs:100 | A mesh on a layer other than the walkable one is skipped, giving result 0. |
| Scenarios.ShortTriangleArrayRaises | Assets/Editor/TopSurfaceColliderBuilder.cs:125-127 | A triangle array whose length is not a multiple of three is not readable, so the call raises. |
| Scenarios.SquareBounds | Assets/Editor/TopSurfaceColliderBuilder.cs:167 | The bounds of the unit square's six corners run from (0,0,0) to (1,0,1). |
| Scenarios.FacingUpKept | Assets/Editor/TopSurfaceColliderBuilder.cs:135-141 | A triangle whose edge cross product is the up vector has normal up and area 0.5, and so is kept for any threshold in (0, 1] and area limit 0.01. |
| Scenarios.DownwardPairDropped | Assets/Editor/TopSurfaceColliderBuilder.cs:137 | Two triangles whose normal points down are both rejected by any threshold above -1. |

## Left out

- The editor window, its fields and sliders, and the menu item (lines 10-53) are left out as user interface. Only the slider range and the cosine at lines 28 and 44 are modelled, in `Classify.MinUpDot`.
- `ProcessSelection` (lines 55-83) is left out. It warns when nothing is selected and opens an undo group. When `removeExistingColliders` is set, it destroys every existing collider under the selected roots (lines 66-76). It then calls `BuildForRoot` once per root, sums the results, and logs the total.
- Attaching the collider (lines 170-187) is left out. This covers reusing or adding the `MeshCollider`, destroying an old generated mesh, the `convex` flag, the static editor flags and the log line. Nothing it does changes the returned value or the collider's geometry.
- The mesh name "TopSurfaceCollider" (line 163) is not stored in the model's collider.
- The normal recomputation (lines 109-121) is left out: it copies the same vertex and index arrays, and the normals are never read afterwards.
- IEEE single-precision arithmetic, with its rounding, is left out: values are exact reals. The square root and `Mathf.Cos` are parameters and are not pinned to the platform's versions.
- `Vectors.NormalizeHasUnitLength` and `Classify.SkinMovesBySkin`: these hold only for an exact square root, which is why they take it as a precondition.
- `Classify.SliderRejectsDegenerate` takes as a precondition that the cosine is positive on [0, 60 degrees], rather than proving it about a concrete cosine. Only positivity is assumed, because single-precision rounding can bring cos(60 * Deg2Rad) just below 0.5.
- `LayerMask.NameToLayer`, the root's `worldToLocalMatrix` and `GetComponentsInChildren` (lines 87, 88, 95) are left out as engine calls. Their results are parameters. The engine's own Unity `Object` truthiness for renderers and meshes is reduced to `Option` plus two booleans.
- The list capacities (lines 91-92) and the overflow of `int` indices and counts are left out. Counts are unbounded, because a list would run out of memory long before 2^31 entries.
- The thrown `IndexOutOfRangeException` is modelled as a `Failure` result. Any partial state the exception would leave is not modelled, because the caller discards it.
- `Assets/Editor/ColliderBatchTools.cs` is not part of this model.
