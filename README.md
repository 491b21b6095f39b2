# PolyMesh: the fan-triangulated polygon mesh

A model of the polygon-mesh component of PolyMania (`PolyMesh`). Given a side
count `n` and a radius, `Generate` builds the four buffers of a regular n-gon drawn
as a fan of `n` wedges ("slices") around its centre:

- a vertex buffer of `2n + 1` points: rim point `i` is stored twice, as copy A at
  index `i` and copy B at index `i + n`, and the centre is last, at index `2n`;
- a triangle index buffer of `3n` entries, triple `i` being
  `(2n, i, (i + 1) % n + n)`: the centre, copy A of rim point `i`, copy B of the
  next rim point, so neighbouring wedges share only the centre;
- a normal buffer with one `-Vector3.forward` per vertex;
- a texture-coordinate (UV) buffer, either computed from the selected slice
  (diagnostic mode, the source's `#if DEBUG` branch) or taken from a fixed 13-entry
  table (baked mode, the `#else` branch).

A side count below `MINIMUM_COUNT` (3) throws before any field changes; otherwise
`Radius` and `Count` are updated and the mesh receives the buffers. A UV buffer whose
length differs from the vertex buffer's is only logged by the source.

Files:

- `mesh_layout.dfy`, module `MeshLayout`: the value types (`Vec3`, `Vec2`, `Mesh`),
  an index-by-index reference definition of each buffer (`Vertices`, `Triangles`,
  `Normals`, `DiagnosticUvs`, `BAKED_UVS`) and the lemmas about them.
- `poly_mesh.dfy`, module `PolyMeshComponent`: one method per loop of `Generate`,
  each proved to produce the reference buffer, and the class `PolyMesh` with the
  `Count`, `Radius` and `mesh` fields, `Generate` and `UpdateMesh`. The class
  invariant `Valid()` says that `Count` never drops below the minimum and that a
  built mesh always has the geometry of the current `Count` and `Radius`.

Modelling choices:

- `Mathf.Sin` and `Mathf.Cos` are two uninterpreted real functions (`Trig`) that
  the component holds; `PosForVertices` keeps the source's formula around them, so
  the model knows every point lies in the plane z = 0 but nothing about angles.
- The compile-time `DEBUG` switch is the parameter `mode: UvMode`, and
  `AimController.Instance.SelectedSlice` is the parameter `slice`, which diagnostic
  mode requires to lie in `[0, n)`.
- The logged UV length mismatch is returned: `Generate` answers
  `Generated(uvLengthMismatch)`, or `TooFewSides` where the source throws.

The baked table has 13 entries, so it fits only a hexagon (`n = 6`). The selected
wedge's UV corners are (0.5,0.5), (1,0), (1,1). `Generate` does not read
`SelectedTriangleUV`.

## Model

| member | source | states |
|---|---|---|
| MeshLayout.PosForVertices | Assets/Scripts/Playing/PolyMesh.cs:54-57 | a rim point lies in the plane z = 0, and a polygon of radius 0 collapses to the origin |
| MeshLayout.VerticesLayout | Assets/Scripts/Playing/PolyMesh.cs:74-80 | the vertex buffer has 2n+1 entries; for every i < n, copies i and i+n are both PosForVertices(i, n, radius); entry 2n is the origin; every vertex has z = 0 |
| PolyMeshComponent.BuildVertices | Assets/Scripts/Playing/PolyMesh.cs:74-80 | the loop fills the array with exactly the reference vertex layout |
| MeshLayout.NextIsModulo | Assets/Scripts/Playing/PolyMesh.cs:89 | `(i + 1) % n` is the following rim point, wrapping n-1 to 0 |
| MeshLayout.TriangleTriple | Assets/Scripts/Playing/PolyMesh.cs:84-90 | the index buffer has 3n entries and triple i is (2n, i, next(i) + n) |
| MeshLayout.TrianglesInBounds | Assets/Scripts/Playing/PolyMesh.cs:84-90 | every index lies in [0, 2n+1), so names a vertex |
| MeshLayout.RimVertexUsedOnce | Assets/Scripts/Playing/PolyMesh.cs:85-90 | a rim vertex index occurs at one position of the index buffer and nowhere else: copy A of i as the second corner of wedge i, copy B of j as the third corner of the wedge before j |
| MeshLayout.CentreInEveryWedge | Assets/Scripts/Playing/PolyMesh.cs:85-90 | index 2n occurs exactly at the first corner of every wedge |
| MeshLayout.RimVertexCount | Assets/Scripts/Playing/PolyMesh.cs:85-90 | each rim vertex occurs exactly once in the index buffer |
| MeshLayout.CentreCount | Assets/Scripts/Playing/PolyMesh.cs:85-90 | the centre occurs exactly n times in the index buffer |
| MeshLayout.WedgeSpansNeighbours | Assets/Scripts/Playing/PolyMesh.cs:74-90 | wedge i joins the origin, rim point i and rim point next(i) |
| PolyMeshComponent.BuildTriangles | Assets/Scripts/Playing/PolyMesh.cs:84-90 | the loop fills the array with exactly the reference index buffer |
| PolyMeshComponent.BuildNormals | Assets/Scripts/Playing/PolyMesh.cs:93-97 | one normal per vertex, each (0, 0, -1) |
| MeshLayout.DiagnosticUvsLayout | Assets/Scripts/Playing/PolyMesh.cs:102-113 | diagnostic UVs: 2n+1 entries, (1,0) at slice, (1,1) at (slice+1)%n+n, (0,0) at every other index below n, (1,0) at every other index in [n,2n), (0.5,0.5) at 2n |
| PolyMeshComponent.BuildDiagnosticUvs | Assets/Scripts/Playing/PolyMesh.cs:102-113 | the fill loop plus the three overwrites produce exactly the diagnostic UV buffer |
| MeshLayout.DiagnosticWedgeCorners | Assets/Scripts/Playing/PolyMesh.cs:85-113 | with diagnostic UVs, wedge slice has corners (0.5,0.5),(1,0),(1,1) and every other wedge (0.5,0.5),(0,0),(1,0) |
| MeshLayout.OnlySelectedWedgeDiffers | Assets/Scripts/Playing/PolyMesh.cs:102-113 | a wedge carries the selected corners if and only if it is the selected slice |
| MeshLayout.BakedTableFitsOnlyHexagon | Assets/Scripts/Playing/PolyMesh.cs:115-138 | the 13-entry table has the vertex buffer's length if and only if n = 6 |
| MeshLayout.BakedTableIsSliceZero | Assets/Scripts/Playing/PolyMesh.cs:115-132 | the baked table equals the diagnostic UVs of a hexagon with slice 0 |
| MeshLayout.UvLengthMismatch | Assets/Scripts/Playing/PolyMesh.cs:135-138 | the UV and vertex lengths differ if and only if baked mode is used with n ≠ 6 |
| MeshLayout.GeometryWellFormed | Assets/Scripts/Playing/PolyMesh.cs:74-97 | the reference geometry has 2n+1 vertices and normals, 3n indices, every index a vertex |
| PolyMeshComponent.PolyMesh.constructor | Assets/Scripts/Playing/PolyMesh.cs:9-10 | a new component is a hexagon of radius 3.5 with no mesh yet |
| PolyMeshComponent.PolyMesh.Generate | Assets/Scripts/Playing/PolyMesh.cs:61-146 | n < 3 yields TooFewSides and changes nothing; otherwise Radius = radius, Count = n, the mesh holds the reference buffers, and the mismatch flag is set exactly for baked mode with n ≠ 6; the class invariant is kept |
| PolyMeshComponent.PolyMesh.UpdateMesh | Assets/Scripts/Playing/PolyMesh.cs:49-52 | regenerating with the current Count and Radius never fails and leaves both unchanged |

## Left out

- The trigonometry of `PosForVertices` (`Mathf.Sin`, `Mathf.Cos`): uninterpreted, so nothing about angles, areas or the regularity of the polygon is proved.
- Floating point: radii, positions and UVs are reals; single-precision rounding is not modelled.
- MeshLayout.PosForVertices: requires n ≠ 0 because real division needs it; the source divides floats and is only ever called with n ≥ 3.
- 32-bit overflow of `n * 2 + 1` and `n * 3` for huge side counts: integers are unbounded.
- PolyMeshComponent.PolyMesh.Generate: requires the selected slice to lie in [0, n) in diagnostic mode; the out-of-range writes the source would attempt (an exception or a misplaced UV) are not modelled.
- The engine glue: the lazy `MeshFilter`/`MeshRenderer` getters, `new Mesh()` and its assignment to the filter, and `Start` applying the current skin. The mesh setters are modelled only as storing copies of the buffers.
- The mesh name string `"<n> sided polygon"`: string formatting of integers is not modelled.
- The `SelectedTriangleUV` and `NonSelectedTriangleUV` properties: nothing in `Generate` reads them.
- `Debug.LogError`: the mismatch is returned as a flag instead of logged.
