# S4DGE mesh core in Dafny

A model of the integer and combinatorial core of a 4D rendering toolkit for Unity, with proofs about it. It covers three parts.

- **Parametric mesh generator** (`MeshGenerator4D`). It samples two `Vector3 -> Vector4` functions over a lattice of parameter points, which gives a "hexahedral mesh". It flattens the lattice into vertex and normal arrays. It then cuts every cell of the lattice into tetrahedra that index those arrays.
- **Regular-polytope generator** (`PolytopeGenerator`). It builds the 5-cell, the 16-cell and the 24-cell as vertex and tetrahedron lists. The hypercube comes from a generator this model does not include.
- **Projection renderer** (`ProjectionRenderer.ProjectToMesh`). It moves the points of a 4D shape into camera space. It fans the shape's faces into triangles over the point list. It then divides each point's xyz by its distance in w from the camera, pushing distances that are nearly zero away from zero first.

The model has five modules:

| module | file | contents |
|---|---|---|
| `Wrappers` | `wrappers.dfy` | `Option` and `Result` |
| `Geometry` | `geometry.dfy` | vectors over `real`, `Tet4D`, and axis points |
| `MeshGen` | `mesh_generator.dfy` | `MeshGenerator4D.cs` |
| `Polytopes` | `polytopes.dfy` | `PolytopeGenerator.cs` |
| `Projection` | `projection.dfy` | `ProjectionRenderer.ProjectToMesh` |

The model keeps the source's own form:
- Code that fills arrays and lists in loops becomes methods with loops. Each method is proved against a specification function, and the lemmas are stated about that function.
- `HexMesh4D` is a class over two `array3`.
- The tetrahedron array is an `array<Option<Tet4D>>`, where `None` is a null slot.
- `vertices4d` is projected in place in an `array`.
- The `PolytopeGenerator` and `ProjectionRenderer` components are classes with the fields their methods update.

Inputs the model takes as parameters:
- **Sampling:** the two parametric functions, `positionGenerator` and `normalGenerator`.
- **Projection:** the object-to-camera transform (a product of matrices in the code) and the camera's `w`.
- **Polytopes:** the hypercube mesh.

Floats are modelled as `real`. An exception the code would let escape is a `Failure` or an error value.

Where the system's documented behaviour and the code differ, the model follows the code:
- **The parameter box is not fully covered.** Every sample lies strictly below `hi`, and the last one comes within one interval of it (`SamplesBelowHi`, `SamplesReachHi`).
- **Inverted bounds do not fail at sampling.** Flat bounds (`lo == hi`) and bounds inverted by less than one interval give an axis with no samples, and `GenerateHexMesh` raises no error (`SlightlyInvertedIsEmpty`). Bounds inverted further make the count negative, so the array allocation in `GenerateHexMesh` fails (`InvertedIsNegative`).
- **One empty axis makes the tetrahedron allocation fail.** On the path from `GenerateTetMesh` into `Generate6TetMeshFromHexMesh`, take an axis with no samples and two axes with at least two each. Then `numHexahedra` is negative and the allocation at line 83 fails (`OneEmptyAxisIsNegative`, `Generate6TetMeshFromHexMesh`). In general it fails exactly when an odd number of axes is empty and no axis has exactly one sample (`NegativeCellCount`). The documented behaviour for a domain with fewer than two samples is zero tetrahedra, without a fault.
- **A cell does not get six tetrahedra.** The code leaves two tetrahedra per cell, and one of them is flat. See "## Findings".
- **A lattice with two empty axes can still allocate slots.** If the third axis has at least two samples, `numHexahedra` is positive, so the tetrahedron array is non-empty, but every slot stays null (`ThinLatticeHasNoTets`). If the third axis has one sample, `numHexahedra` is 0. If it has none, `numHexahedra` is negative and the allocation fails (`NegativeCellCount`).
- **One tetrahedron is wound the other way.** The comment at line 98 asks for a single vertex order for back-face culling. Yet the tetrahedron written at lines 117-120, `{v0,v2,v6,v1}`, has signed volume opposite to the other five (`CorrectedTetVolume`). The as-written output cannot show this, because the next write overwrites its slot. The corrected layout keeps the code's vertex order, so it keeps this tetrahedron's opposite winding.

## Model

| member | source | states |
|---|---|---|
| MeshGen.FlattenInRange | Assets/RenderRasterization/MeshGenerator4D.cs:70-73 | every lattice point of `[0,dx)×[0,dy)×[0,dz)` flattens into `[0, dx*dy*dz)` |
| MeshGen.FlattenInjective | Assets/RenderRasterization/MeshGenerator4D.cs:70-73 | two lattice points with the same flat index are the same point |
| MeshGen.FlattenUnflatten | Assets/RenderRasterization/MeshGenerator4D.cs:70-73 | every index in `[0, dx*dy*dz)` is the flattening of a lattice point, so the map is onto |
| MeshGen.UnflattenFlatten | Assets/RenderRasterization/MeshGenerator4D.cs:70-73 | recovering the coordinates from a flattened lattice point gives the point back |
| MeshGen.HexMesh4D.constructor | Assets/RenderRasterization/MeshGenerator4D.cs:220-224 | both 3D arrays are new, separate and of the requested shape |
| MeshGen.HexMesh4D.GetDimension | Assets/RenderRasterization/MeshGenerator4D.cs:226-229 | the dimension is non-negative and is the shape of both arrays |
| MeshGen.GenerateHexMesh | Assets/RenderRasterization/MeshGenerator4D.cs:156-182 | the per-axis sample counts are `ceil((hi-lo)/interval)`; lattice point `[i,j,k]` holds `positionGenerator` and `normalGenerator` at `lo + interval*(i,j,k)`; the method fails exactly when the interval is 0 or a count is negative |
| MeshGen.SamplesBelowHi | Assets/RenderRasterization/MeshGenerator4D.cs:158-172 | with a positive interval, every sampled parameter is strictly below `hi` |
| MeshGen.SamplesReachHi | Assets/RenderRasterization/MeshGenerator4D.cs:158-160 | `lo + count*interval >= hi`: the samples reach to within one interval of `hi` |
| MeshGen.SlightlyInvertedIsEmpty | Assets/RenderRasterization/MeshGenerator4D.cs:158-161 | `hi` below `lo` by less than one interval gives 0 samples on that axis |
| MeshGen.InvertedIsNegative | Assets/RenderRasterization/MeshGenerator4D.cs:158-161 | `hi` below `lo` by at least one interval gives a negative sample count |
| MeshGen.CornerAt | Assets/RenderRasterization/MeshGenerator4D.cs:99-108 | corner `k` of the table is the flattening of the lattice point `CornerOffset(k)` behind `(x,y,z)` |
| MeshGen.CornerOffsetRule | Assets/RenderRasterization/MeshGenerator4D.cs:99-108 | the offset of corner `k` is its binary digits: `(k/4, (k/2)%2, k%2)`, x first |
| MeshGen.CornersDistinct | Assets/RenderRasterization/MeshGenerator4D.cs:99-108 | two different corners of an interior cell name two different vertices |
| MeshGen.CellCornersValid | Assets/RenderRasterization/MeshGenerator4D.cs:99-108 | the 8 corners of an interior cell are pairwise distinct and below `dx*dy*dz` |
| MeshGen.CellsBeforeIsCellIndex | Assets/RenderRasterization/MeshGenerator4D.cs:81-147 | at an interior point, `tetIdx / 6` equals the flattened index of the cell, which is below `numHexahedra`, so the writes stay in bounds |
| MeshGen.LoopEnd | Assets/RenderRasterization/MeshGenerator4D.cs:86-147 | after the loops, the cells counted are all `max(0,dx-1)*max(0,dy-1)*max(0,dz-1)` cells, and the points copied are all `dx*dy*dz` points |
| MeshGen.LaidOutLengthMatches | Assets/RenderRasterization/MeshGenerator4D.cs:81-147 | with every dimension at least 1, the visited cells number exactly `numHexahedra`, so the final `tetIdx` equals `tetrahedra.Length` |
| MeshGen.WriteCellAsWritten | Assets/RenderRasterization/MeshGenerator4D.cs:110-144 | the code's six writes for one cell: slot `tetIdx` gets `{v0,v4,v6,v2}`, slot `tetIdx+1` ends as `{v1,v3,v7,v6}`, and no other slot changes |
| MeshGen.WriteCellCorrected | Assets/RenderRasterization/MeshGenerator4D.cs:110-144 | the intended writes: the six tetrahedra around the diagonal `v1`-`v6` go into slots `tetIdx .. tetIdx+5`, and no other slot changes |
| MeshGen.WriteCell | Assets/RenderRasterization/MeshGenerator4D.cs:110-144 | the writes of one cell under either layout replace slots `tetIdx .. tetIdx+5` with that layout's slot contents and keep every other slot |
| MeshGen.VisitLatticePoint | Assets/RenderRasterization/MeshGenerator4D.cs:92-148 | one pass of the inner loop body: it copies one more lattice point, lays out one more cell when the point is interior, and advances `tetIdx` by 6 exactly then |
| MeshGen.Generate6TetMeshFromHexMesh | Assets/RenderRasterization/MeshGenerator4D.cs:76-154 | it fails exactly when `numHexahedra < 0`; otherwise flat index `Flatten(x,y,z)` holds `hexMesh.vertices/normals[x,y,z]`, and the tetrahedron array has `6*numHexahedra` slots laid out cell by cell with nulls after the last cell |
| MeshGen.SlotContents | Assets/RenderRasterization/MeshGenerator4D.cs:83-147 | slot `s` below `6*cells` is slot `s%6` of the cell flattened to `s/6`, and that cell is in the cell lattice; every later slot is null |
| MeshGen.LaidOutTetsValid | Assets/RenderRasterization/MeshGenerator4D.cs:110-144 | every non-null slot has 4 distinct indices, all below `meshVertices.Length` |
| MeshGen.AsWrittenOccupancy | Assets/RenderRasterization/MeshGenerator4D.cs:110-147 | under the code's writes, a slot is non-null if and only if it is one of the first two slots of a visited cell |
| MeshGen.CorrectedOccupancy | Assets/RenderRasterization/MeshGenerator4D.cs:110-147 | under the corrected writes, a slot is non-null if and only if it belongs to a visited cell |
| MeshGen.NegativeCellCount | Assets/RenderRasterization/MeshGenerator4D.cs:81-83 | with sample counts of at least 0, `numHexahedra < 0`, so the allocation fails, exactly when an odd number of axes is empty and none has one sample |
| MeshGen.OneEmptyAxisIsNegative | Assets/RenderRasterization/MeshGenerator4D.cs:81-83 | one axis with no samples next to two axes with at least two gives a negative `numHexahedra`, whichever axis is the empty one |
| MeshGen.ThinLatticeHasNoTets | Assets/RenderRasterization/MeshGenerator4D.cs:81-95 | when some dimension is below 2, every slot is null |
| MeshGen.AsWrittenFirstTetFlat | Assets/RenderRasterization/MeshGenerator4D.cs:110-114 | the four corners of `{v0,v4,v6,v2}` share their z offset, so the tetrahedron has volume 0 |
| MeshGen.CorrectedTetVolume | Assets/RenderRasterization/MeshGenerator4D.cs:116-144 | each corrected tetrahedron has six times signed volume ±1; the one from line 119 is wound the other way |
| MeshGen.CorrectedTetsSolid | Assets/RenderRasterization/MeshGenerator4D.cs:110-144 | the six corrected tetrahedra each have volume 1/6, and their volumes add up to the unit cell's |
| MeshGen.FlipCornerIsEdge | Assets/RenderRasterization/MeshGenerator4D.cs:99-108 | flipping corner `k` along an axis changes that offset between 0 and 1 and keeps the other two: one edge of the cell |
| MeshGen.PathJoinsDiagonal | Assets/RenderRasterization/MeshGenerator4D.cs:99-108 | every path that crosses the three axes in some order joins corner 1 to corner 6, through four distinct corners |
| MeshGen.CorrectedTetIsPath | Assets/RenderRasterization/MeshGenerator4D.cs:110-144 | corrected tetrahedron `j` has the corners of the monotone path for an axis order it returns |
| MeshGen.PathIsCorrectedTet | Assets/RenderRasterization/MeshGenerator4D.cs:110-144 | for each axis order, it returns a corrected tetrahedron whose corners are that path's |
| MeshGen.CorrectedTetsDistinct | Assets/RenderRasterization/MeshGenerator4D.cs:110-144 | two different corrected tetrahedra have different corner sets |
| MeshGen.CorrectedTetsArePaths | Assets/RenderRasterization/MeshGenerator4D.cs:110-144 | every corrected tetrahedron is a monotone path's tetrahedron |
| MeshGen.PathsAreCorrectedTets | Assets/RenderRasterization/MeshGenerator4D.cs:110-144 | every one of the six axis orders has its path's tetrahedron in the corrected list |
| MeshGen.CorrectedTetsAllDistinct | Assets/RenderRasterization/MeshGenerator4D.cs:110-144 | the six corrected tetrahedra have pairwise different corner sets |
| MeshGen.CorrectedTetsFillCell | Assets/RenderRasterization/MeshGenerator4D.cs:110-144 | the six corrected tetrahedra are the six Kuhn simplices around the diagonal 1-6, one per monotone edge path from corner 1 to corner 6, pairwise distinct, each of volume 1/6, their volumes adding up to the cell's |
| MeshGen.CorrectedTetsShareDiagonal | Assets/RenderRasterization/MeshGenerator4D.cs:116-144 | every corrected tetrahedron contains corners 1 and 6 |
| Polytopes.AxisVertices | Assets/Tets/PolytopeGenerator.cs:34-40 | vertex `j` is `value` on axis `j`, 0 elsewhere, with a zero normal |
| Polytopes.Generate5Cell | Assets/Tets/PolytopeGenerator.cs:33-57 | the 5-cell branch yields the four axis vertices at 2 and `(φ,φ,φ,φ)`, and the five listed tetrahedra |
| Polytopes.IncreasingQuads | Assets/Tets/PolytopeGenerator.cs:44-57 | the four nested loops emit exactly the enumeration `Quads(n)` |
| Polytopes.AddQuadsL | Assets/Tets/PolytopeGenerator.cs:50-54 | the innermost loop appends `QuadsL(i,j,k,n)` to the list |
| Polytopes.AddQuadsK | Assets/Tets/PolytopeGenerator.cs:48-55 | the loop over `k` appends `QuadsK(i,j,n,n)` to the list |
| Polytopes.AddQuadsJ | Assets/Tets/PolytopeGenerator.cs:46-56 | the loop over `j` appends `QuadsJ(i,n,n)` to the list |
| Polytopes.QuadsExactly | Assets/Tets/PolytopeGenerator.cs:44-57 | a 4-tuple is emitted if and only if `i < j < k < l < n` |
| Polytopes.QuadsLMembers | Assets/Tets/PolytopeGenerator.cs:50-54 | the innermost loop adds exactly the tuples with prefix `(i,j,k)` and last entry in `(k,l)` |
| Polytopes.QuadsKMembers | Assets/Tets/PolytopeGenerator.cs:48-55 | the loop over `k` adds exactly the tuples with prefix `(i,j)` that increase from there |
| Polytopes.QuadsJMembers | Assets/Tets/PolytopeGenerator.cs:46-56 | the loop over `j` adds exactly the increasing tuples that start with `i` and have second entry below `j` |
| Polytopes.QuadsIMembers | Assets/Tets/PolytopeGenerator.cs:44-57 | the outer loop, run up to `i`, adds exactly the increasing tuples whose first entry is below `i` |
| Polytopes.FiveCellTetsListed | Assets/Tets/PolytopeGenerator.cs:44-57 | with bound 5, the loops emit exactly five tetrahedra, `(0,1,2,3)` to `(1,2,3,4)`, in that order |
| Polytopes.FiveCellTetOmits | Assets/Tets/PolytopeGenerator.cs:44-57 | tetrahedron `k` leaves out vertex `4-k`, so each vertex is missing from exactly one |
| Polytopes.FiveCellTetsSorted | Assets/Tets/PolytopeGenerator.cs:44-57 | the tetrahedra come in strictly increasing lexicographic order |
| Polytopes.FiveCellValid | Assets/Tets/PolytopeGenerator.cs:33-57 | 5 vertices and 5 tetrahedra, each with distinct indices below 5 |
| Polytopes.FiveCellEquilateral | Assets/Tets/PolytopeGenerator.cs:33-42 | with an exact golden ratio, all ten vertex pairs are at squared distance 8, so the 5-cell is regular |
| Polytopes.Generate16Cell | Assets/Tets/PolytopeGenerator.cs:98-134 | it emits the 8 axis vertices, `radius+offset` then `-radius+offset`, and the 16 tetrahedra in loop order |
| Polytopes.AddAxisVertices | Assets/Tets/PolytopeGenerator.cs:105-111 | the inner vertex loop appends one vertex at `value` on each of the four axes, with zero normals |
| Polytopes.AddSixteenCellTets | Assets/Tets/PolytopeGenerator.cs:122-130 | for outer counters `(a,b)`, the two inner loops extend the first `8a+4b` tetrahedra of the list to the first `8a+4b+4` |
| Polytopes.AddSixteenCellTetPair | Assets/Tets/PolytopeGenerator.cs:124-128 | the innermost loop extends the first `m` tetrahedra to the first `m+2` |
| Polytopes.SixteenCellTetAt | Assets/Tets/PolytopeGenerator.cs:116-128 | the loop counters `(a,b,c,d)` over `{0, half}` produce tetrahedron `8a+4b+2c+d`, which is `startIndex + (4a, 1+4b, 2+4c, 3+4d)` |
| Polytopes.SixteenCellVertexCoordinates | Assets/Tets/PolytopeGenerator.cs:102-112 | vertex `j<4` has `radius+offset` on axis `j`, vertex `4+j` has `-radius+offset` on axis `j`, and every other coordinate and the normal are 0 |
| Polytopes.SixteenCellTetShape | Assets/Tets/PolytopeGenerator.cs:126 | entry `p` is `startIndex+p` or `startIndex+p+4`, so the indices are distinct, lie in `[startIndex, startIndex+8)`, and never include both ends of an axis |
| Polytopes.SixteenCellTetDecodes | Assets/Tets/PolytopeGenerator.cs:116-128 | a tetrahedron's position in the list can be recomputed from its indices |
| Polytopes.SixteenCellTetsDistinct | Assets/Tets/PolytopeGenerator.cs:116-128 | the 16 tetrahedra are pairwise distinct |
| Polytopes.SixteenCellEquilateral | Assets/Tets/PolytopeGenerator.cs:102-128 | with offset 0, every tetrahedron's six edges have squared length `2*radius²` |
| Polytopes.SixteenCellValid | Assets/Tets/PolytopeGenerator.cs:126 | every tetrahedron is valid over any vertex list holding `startIndex+8` vertices |
| Polytopes.Generate24Cell | Assets/Tets/PolytopeGenerator.cs:74-84 | the hypercube's lists, followed by a radius-2 16-cell that starts at the hypercube's vertex count |
| Polytopes.TwentyFourCellComposition | Assets/Tets/PolytopeGenerator.cs:76-82 | 8 vertices and 16 tetrahedra are added, the hypercube's lists are kept unchanged as prefixes, the 16-cell's indices lie in `[n, n+8)`, and a valid hypercube yields a valid 24-cell |
| Polytopes.PolytopeMeshValid | Assets/Tets/PolytopeGenerator.cs:26-90 | every branch yields a valid mesh given a valid hypercube; the unimplemented types leave both lists empty |
| Polytopes.PolytopeGenerator.OnValidate | Assets/Tets/PolytopeGenerator.cs:22-96 | with the button set, it hands the selected polytope's lists onward and clears the button; without it, nothing happens |
| Projection.CollectPoints | Assets/v2/ProjectionRenderer.cs:85-99 | the `pts` loop matches `Collect`: it stops at the first error, and `vertices4d` is the entry values in insertion order |
| Projection.CollectSucceeds | Assets/v2/ProjectionRenderer.cs:90-97 | collecting succeeds if and only if every point has a subpoint and no point repeats |
| Projection.CollectEntries | Assets/v2/ProjectionRenderer.cs:90-99 | after success there is one entry per shape point, in order, holding its first subpoint moved by the transform |
| Projection.IndexOf | Assets/v2/ProjectionRenderer.cs:107-109 | the first position holding the value, and -1 exactly when the value is absent |
| Projection.FanTriangle | Assets/v2/ProjectionRenderer.cs:104-110 | triangle `m` of a face's fan is `(p0, p_{m+1}, p_{m+2})` |
| Projection.FanFace | Assets/v2/ProjectionRenderer.cs:104-110 | the inner loop yields `FaceTriangles`: nothing for fewer than 3 points, a key error for an unknown point, and otherwise the fan |
| Projection.FanFaces | Assets/v2/ProjectionRenderer.cs:102-111 | the face loop yields `Triangles`, the faces' fans in order, failing at the first bad face |
| Projection.TrianglesCount | Assets/v2/ProjectionRenderer.cs:102-111 | `triangles.Count == 3 * Σ max(0, n_f - 2)`, a multiple of 3 |
| Projection.TrianglesInRange | Assets/v2/ProjectionRenderer.cs:99-109 | every emitted index is a valid position in `vertices4d` |
| Projection.ResolveFirstEqual | Assets/v2/ProjectionRenderer.cs:99-109 | an emitted index is the first position whose `PointInfo` equals the face point's |
| Projection.GuardDeltaW | Assets/v2/ProjectionRenderer.cs:116-121 | a value below `1e-4` in size moves `1e-4` further from 0, with 0 going up; any other value is unchanged; the result is nonzero, at least `1e-4` in size, and keeps the sign |
| Projection.ProjectPointInverts | Assets/v2/ProjectionRenderer.cs:122-125 | the projected xyz times the guarded `deltaW` is the original xyz; `w` and uv are kept |
| Projection.ProjectPointBounded | Assets/v2/ProjectionRenderer.cs:116-125 | each projected coordinate is at most `10000` times the original, even when `deltaW` is 0 |
| Projection.ProjectVertices | Assets/v2/ProjectionRenderer.cs:114-128 | iteration `i` replaces only `vertices4d[i]`, with its projection |
| Projection.ProjectedMeshShape | Assets/v2/ProjectionRenderer.cs:90-133 | after success, there is one vertex per shape point in `pts.Values` order, each the projected point; there are `3*Σ max(0,n_f-2)` triangle indices, all valid |
| Projection.ProjectionRenderer.ProjectToMesh | Assets/v2/ProjectionRenderer.cs:81-134 | without a shape nothing changes; otherwise `v` and `t` become the projected vertices and the triangles, or stay as they were when an exception is raised |

## Left out

- `GenerateHypersphereMesh` and `GenerateTetMesh` (`MeshGenerator4D.cs:38-62`): the closed form is trigonometry, and the rest is a composition of the two generators that are modelled.
- `HypercubeGenerator` is not part of this model. The 8-cell branch and the 24-cell branch take its mesh as a parameter.
- `CreateScriptableObject`: creating the asset is editor I/O. `OnValidate` returns the lists it would save instead.
- The `Debug.Log` and `Debug.LogError` calls, the mesh upload (`mesh.Clear`, `SetVertices`, `SetTriangles`) and `RenderForCamera` are engine glue. `v` and `t` receive the lists directly.
- The 4D matrix products (`ProjectionRenderer.cs:84,95`) are an abstract `transform` function. The camera's `w` is a parameter.
- Floats, `Mathf.Ceil` and the constants `1e-4` and `1.618033988749894` are reals. Rounding, infinities and NaN are not modelled, except that a zero interval is reported as an error.
- Integer overflow of the 32-bit sizes and indices is not modelled; integers are unbounded.
- `Dictionary.Values` is assumed to list entries in insertion order. Keys are compared by identity, which is the point's `id`.
- Polytopes.IncreasingQuads: the bound is a parameter. The 5-cell branch calls it with 5, and `FiveCellTetsListed` evaluates the result for that bound.
- MeshGen.CorrectedTetsFillCell: the tiling is proved combinatorially. The six tetrahedra are shown to be the six monotone-path simplices around one diagonal, pairwise distinct, each of volume 1/6. The geometric theorem that these simplices cover the cube without overlap (the Kuhn triangulation) is not proved over the reals.
- `PointInfo` is modelled as a value, a record of a 4D position and a UV. Its declaration is not part of this model, but `ProjectionRenderer.cs:125` builds it with an object initializer. If it were a class, the copy of `subpoints[0]` would share storage with the shape, and `pts.IndexOf` would compare references instead of contents.
- Polytopes.FiveCellEquilateral: stated for an exact golden ratio. The code's decimal constant only approximates it.
- `TetSlicer`, `SliceRenderer`, `TriangleMesh`, `RenderHelper3D`, `PlayerDataDisplay`, `RayTracedSphere` and the tests are outside the modelled core.

## Findings

| source | as written | input that shows it | evidently intended | confidence | as-written member | corrected member |
|---|---|---|---|---|---|---|
| Assets/RenderRasterization/MeshGenerator4D.cs:117-144 | five tetrahedra are all written to `tetrahedra[tetIdx + 1]`, so only the last survives, and slots `tetIdx+2 .. tetIdx+5` stay null | any lattice with dimensions `(2,2,2)`: the array has 6 slots, and slots 2 to 5 are null | the six tetrahedra go into slots `tetIdx .. tetIdx+5` | high (not executed) | MeshGen.AsWrittenOccupancy | MeshGen.CorrectedOccupancy |
| Assets/RenderRasterization/MeshGenerator4D.cs:110-114 | the first tetrahedron is `{v0,v4,v6,v2}`, four corners of one face of the cell, so it is flat | any interior cell: all four corners have the same z offset, and the volume is 0 | `{v0,v4,v6,v1}`. With it the six tetrahedra are the six simplices of the Kuhn triangulation around the diagonal `v1`-`v6`: one per monotone edge path from `v1` to `v6`, pairwise distinct, each of volume 1/6; the repository's test for the 2×2×2 lattice (`Assets/RenderRasterization/Tests/TestMeshGenerator.cs:43`) expects this set | medium (not executed) | MeshGen.AsWrittenFirstTetFlat | MeshGen.CorrectedTetsFillCell |
