# ModelScope3D core, modelled in Dafny

ModelScope3D is a browser viewer for 3D models. This project models its mesh pipeline and the
small stores around it, and proves properties of that model:

- **Mesh normalisation and splitting** (`normalizeMesh`, `splitMesh`). A mesh is rescaled in
  place so that its largest extent is 1, with x and z centred and y resting on 0. It is then cut
  into submeshes of at most 65535 index positions, each with a compact first-seen vertex
  numbering that fits a 16-bit index buffer.
- **The STL reader** (`loadSTLModel`, `loadBinaryStl`, `loadAsciiStl`). It picks ASCII or binary
  from the text prefix `solid`. It reads 50-byte binary records or `facet`/`vertex` lines,
  swapping y and z.
- **The STL writer** (`meshesToSTLBytes`, `intToLittleEndianBytes`, `exportAsSTL`). It writes an
  80-byte zero header, a little-endian triangle count, and one record per triangle. Each record
  holds the averaged, transformed normal and the transformed corners in x, z, y order.
- **OBJ normal reconstruction** in `loadOBJModel`. When the parsed mesh has no normals, face
  normals are accumulated at their corners. A final pass renormalises every normal triple.
- **The MTL parser** (the `Mtl` constructor), and its copy in the renderer, whose records carry one
  more field.
- **Texture matching** (`loadTextures`): uploaded files are matched to materials by
  `diffuse_map` name.
- **The three store slices**: `transformations`, `lighting` and `settings`.

Each source file is one module:

| module | source file |
|---|---|
| Js | the JavaScript built-ins the core relies on: `split`, `trim`, `toLowerCase`, array reads, little-endian words |
| Meshes | the `Mesh` record of webgl-obj-loader |
| Normalize, Split | `src/utils/models/models.ts` |
| StlBinary, StlAscii, StlLoader | `src/utils/models/stl_loader.ts` |
| ExportStl | `src/features/renderer/utils/export_stl.ts` |
| StlReadBack | what the binary reader gets back from a file the writer produced |
| ObjNormals, ObjLoader | `src/utils/models/obj_loader.ts` |
| WebGl | the part of the WebGL context the texture code uses |
| Mtl | `src/utils/models/mtl.ts` |
| RendererMtl | `src/features/renderer/utils/mtl.ts` |
| Textures | `src/utils/models/textures.ts` |
| Transformations, Lighting, Settings | `src/stores/slices/*.ts` |

The model follows the source's own form:

- A loop in the source is a `method` with a `while` or `for` loop. Each such method is proved
  equal to a specification function of its inputs, and the properties are lemmas about that
  function.
- A mesh that the source rewrites in place is a `class` with `modifies` clauses.
- The MTL `Mtl` object is a class whose constructor runs the line loop.
- A store slice is a class whose methods are the reducers.

Floating point is abstracted:

- Coordinates are `real`.
- `DataView.getFloat32`/`setFloat32`, `parseFloat`, `Math.sqrt` and the gl-matrix transforms are
  function parameters of the operations that use them.
- `sqrt` is constrained by `ObjNormals.IsSqrt`: it returns a positive root of a positive number
  and 0 for 0.

JavaScript `undefined` is modelled where the source really reaches it:

- a read past the end of an array is `Js.At`, returning an `Option`;
- an MTL name is `Option<string>`;
- in the writer, a value that would be NaN is the `NaN` case of `ExportStl.Num`.

## Model

| member | source | states |
|---|---|---|
| Meshes.Mesh.Empty | src/utils/models/stl_loader.ts:25-26 | a new `Mesh("")` is taken to have all of its arrays empty |
| Normalize.NormalizeMesh | src/utils/models/models.ts:20-46 | rewrites only `mesh.vertices`, to `Normalized` of the old positions; normals, textures, groups and names are unchanged, and the same object is returned |
| Normalize.Bounds | src/utils/models/models.ts:22-32 | the first loop yields the per-axis minimum and maximum over all vertex triples |
| Normalize.Rescale | src/utils/models/models.ts:39-43 | the second loop maps each triple to (x − cx, y − cy, z − cz) / size and keeps the length |
| Normalize.BoundsGiveAnchors | src/utils/models/models.ts:33-36 | `center` and `size` are the midpoints, the y minimum and the largest extent of the bounds |
| Normalize.RescaledIsNormalized | src/utils/models/models.ts:39-43 | an array rescaled triple by triple with those anchors is exactly `Normalized(v)` |
| Normalize.NormalizedAt | src/utils/models/models.ts:40-42 | every coordinate of the result is its input shifted by its axis anchor and divided by `size` |
| Normalize.AffineBounds | src/utils/models/models.ts:39-43 | rescaling by a positive size maps the minimum and maximum of each axis to the rescaled minimum and maximum |
| Normalize.NormalizedFloor | src/utils/models/models.ts:41 | after normalising, the lowest y is 0 |
| Normalize.NormalizedCentred | src/utils/models/models.ts:40-42 | after normalising, x and z are centred: min = −max |
| Normalize.NormalizedExtent | src/utils/models/models.ts:36-43 | each axis's extent is divided by `size` |
| Normalize.NormalizedSize | src/utils/models/models.ts:36-43 | the largest extent of the result is 1 |
| Normalize.NormalizedBounds | src/utils/models/models.ts:33-43 | the bounds of a normalised mesh: floor at y = 0, x and z centred, largest extent 1 |
| Split.SplitMesh | src/utils/models/models.ts:53-82 | the nested loops return exactly `SplitGroups` of the groups, names and arrays |
| Split.SplitGroup | src/utils/models/models.ts:57-79 | one group's windows become `GroupSubmeshes`, in offset order |
| Split.ReindexWindow | src/utils/models/models.ts:60-78 | one window becomes the submesh built by the first-seen remap of `indices[offset..min(offset + 65535, len)]` |
| Split.ReindexVertex | src/utils/models/models.ts:65-76 | one index position takes one `RemapStep`: a new index is numbered `indexMap.size`, and its 3 + 3 + 2 slots are copied |
| Split.RemapWindowSnoc | src/utils/models/models.ts:64-77 | remapping a window one position longer takes one more step |
| Split.GroupSubmeshes | src/utils/models/models.ts:59 | a group of length len gives `WindowCount(len)` submeshes |
| Split.WindowCountIsCeiling | src/utils/models/models.ts:59 | `WindowCount(len)` is ⌈len / 65535⌉, and 0 exactly for an empty group |
| Split.WindowStart | src/utils/models/models.ts:59 | window k exists iff 65535·k < len |
| Split.Window | src/utils/models/models.ts:64 | window k has min(65535, len − 65535·k) positions |
| Split.WindowAt | src/utils/models/models.ts:64-65 | position i of window k is `indices[65535·k + i]` |
| Split.WindowShape | src/utils/models/models.ts:59-64 | a window is non-empty and at most 65535 long; since 65535 = 3·21845, a group of whole triangles is never cut inside a triangle |
| Split.WindowsCover | src/utils/models/models.ts:59-64 | the windows, concatenated in order, are the group |
| Split.WindowsPrefix | src/utils/models/models.ts:59-64 | the first m windows are the first min(65535·m, len) indices |
| Split.FirstSeen | src/utils/models/models.ts:66-67 | the distinct indices of a window in order of first appearance: no repeats, the same members |
| Split.StepNumbered | src/utils/models/models.ts:66-76 | one step keeps the remap numbered in first-seen order, copying the vertex's slots when it is new |
| Split.RemapWindowIsFirstSeen | src/utils/models/models.ts:64-77 | the compact index of each distinct vertex is its position in `FirstSeen`; the vertex, normal and texcoord arrays hold 3, 3 and 2 slots per distinct vertex |
| Split.RemapWindowIndices | src/utils/models/models.ts:76 | the submesh has one index per window position: the map entry of the original index |
| Split.Unremap | src/utils/models/models.ts:65-76 | every compact index is < 65535; its vertex, normal and texcoord slots are the original slots of `indices[offset + i]`; two positions share a compact index iff they share an original index |
| Split.SplitGroupsPrefix | src/utils/models/models.ts:56-78 | the submeshes of the first m groups are a prefix of all the submeshes |
| Split.SplitGroupsLayout | src/utils/models/models.ts:56-78 | submesh number (submeshes of groups before g) + k is window k of group g, named `[materialNames[g]]` |
| Split.SplitSubmesh | src/utils/models/models.ts:56-78 | that submesh has min(65535, len − 65535·k) indices, each < 65535, whose slots reproduce the original vertex, normal and texcoord slots |
| StlLoader.LeadingSpaceIsBinary | src/utils/models/stl_loader.ts:11 | a file is ASCII only when its text starts with `solid`; nothing is trimmed, so a file starting with white space goes to the binary reader |
| StlLoader.LoadStlModel | src/utils/models/stl_loader.ts:10-22 | binary: succeeds iff the buffer holds every record the count announces, and yields `splitMesh` of the normalised binary mesh; ASCII: yields `splitMesh` of the normalised parsed mesh |
| StlLoader.LoadBinaryStl | src/utils/models/stl_loader.ts:24-55 | succeeds iff 84 + 50·(n − 1) + 48 ≤ length for count n; the mesh is one group `[0, 1, …, 3n − 1]`, with the y/z-swapped normals and vertices of the records, then normalised |
| StlLoader.BinaryInRange | src/utils/models/stl_loader.ts:33-47 | every synthesised index names a whole vertex and a whole normal |
| StlLoader.LoadAsciiStl | src/utils/models/stl_loader.ts:57-87 | the mesh is one group holding the parsed indices, normals and normalised vertices |
| StlLoader.NormalizedMesh | src/utils/models/stl_loader.ts:58-86 | a fresh one-group mesh of the parsed arrays, normalised |
| StlLoader.WellFormedAsciiSplits | src/utils/models/stl_loader.ts:64-82 | a file with three `vertex` lines after each `facet` gives indices that name whole vertices and normals |
| StlBinary.ReadRecords | src/utils/models/stl_loader.ts:28-51 | the record loop completes iff no read passes the end (the last two bytes of a record are never read); it then yields `BinaryVertices`, `BinaryNormals` and `FacetIndices` of the count |
| StlBinary.ReadRecord | src/utils/models/stl_loader.ts:31-51 | one record adds its three indices, its normal three times and its three vertices |
| StlBinary.ReadFacetVertices | src/utils/models/stl_loader.ts:43-49 | the vertex loop reads the three corners at +12, +24, +36, each as (x, z, y) |
| StlBinary.FacetIndicesAt | src/utils/models/stl_loader.ts:33 | index k of the group is k |
| StlBinary.VerticesPrefix | src/utils/models/stl_loader.ts:31-49 | the vertices read for the first m records are not changed by later records |
| StlBinary.VerticesLast | src/utils/models/stl_loader.ts:43-47 | component 9f + 3j + c is component c of the y/z-swapped vector at byte 84 + 50f + 12 + 12j |
| StlBinary.BinaryNormalsAt | src/utils/models/stl_loader.ts:36-39 | each of the record's three normal triples is the y/z-swapped vector at byte 84 + 50f |
| StlBinary.NormalsPrefix | src/utils/models/stl_loader.ts:31-39 | the normals read for the first m records are not changed by later records |
| StlBinary.NormalsLast | src/utils/models/stl_loader.ts:36-39 | the last record's three normal triples are its swapped normal |
| StlBinary.OnlyRecordBytesGiveVertices | src/utils/models/stl_loader.ts:43-50 | two buffers that agree on the first 48 bytes of each record give the same vertices |
| StlBinary.OnlyRecordBytesGiveNormals | src/utils/models/stl_loader.ts:36-40 | two buffers that agree on the first 48 bytes of each record give the same normals |
| StlBinary.SameReads | src/utils/models/stl_loader.ts:28-50 | the header's first 80 bytes and each record's 2 attribute bytes do not affect the mesh |
| StlAscii.ReadAscii | src/utils/models/stl_loader.ts:61-84 | the line loop yields `ParseLines` of the text split on "\n" |
| StlAscii.ReadLine | src/utils/models/stl_loader.ts:62-83 | one line is one `ParseLine` step |
| StlAscii.ParseLines | src/utils/models/stl_loader.ts:64-82 | three vertex components per `vertex` line; nine normal components and three indices per `facet` line |
| StlAscii.VertexLineSwapsYZ | src/utils/models/stl_loader.ts:75-81 | `vertex x y z` pushes (x, z, y) |
| StlAscii.FacetLineSwapsYZ | src/utils/models/stl_loader.ts:64-73 | `facet normal a b c` pushes the three indices from the vertex count, and the normal (a, c, b) three times |
| StlAscii.OtherLine | src/utils/models/stl_loader.ts:63-83 | any line whose first token is neither `facet` nor `vertex` changes nothing |
| StlAscii.OnlyCommandsMatter | src/utils/models/stl_loader.ts:61-84 | dropping those lines does not change the result |
| StlAscii.FacetIndicesPushed | src/utils/models/stl_loader.ts:66 | a facet after b whole triangles pushes b, b + 1, b + 2 |
| StlAscii.NestedIndices | src/utils/models/stl_loader.ts:66-80 | when each facet follows whole triangles, index k is k |
| StlAscii.WellFormedInRange | src/utils/models/stl_loader.ts:61-84 | with three vertex lines per facet: indices [0 … 3n − 1], and as many vertex as normal components, 3 per index |
| ExportStl.IntToLittleEndianBytes | src/features/renderer/utils/export_stl.ts:16-23 | the four bytes decode, as a little-endian uint32, to num mod 2³² |
| ExportStl.ToInt32 | src/features/renderer/utils/export_stl.ts:19-20 | the signed 32-bit value congruent to n that `&` and `>>=` work on |
| ExportStl.LittleEndian4RoundTrip | src/features/renderer/utils/export_stl.ts:16-23 | decoding the encoding returns num mod 2³² (num itself for 0 ≤ num < 2³²) |
| ExportStl.LittleEndian4OfDecoded | src/features/renderer/utils/export_stl.ts:16-23 | encoding the decoded value of four bytes returns those bytes |
| ExportStl.LittleEndian4Mod | src/features/renderer/utils/export_stl.ts:16-23 | the encoding depends on num only modulo 2³² |
| ExportStl.MeshesToStlBytes | src/features/renderer/utils/export_stl.ts:44-90 | the nested loops yield `StlBytes`: the header, the count, then every mesh's records |
| ExportStl.WriteMeshes | src/features/renderer/utils/export_stl.ts:55-88 | the mesh loop appends the records of every mesh in order |
| ExportStl.WriteMesh | src/features/renderer/utils/export_stl.ts:57-87 | one mesh appends one record per index position 0, 3, 6, … |
| ExportStl.WriteFacet | src/features/renderer/utils/export_stl.ts:58-86 | one record is the transformed average normal and the three transformed corners, each in x, z, y order, then two zero bytes |
| ExportStl.AverageNormalOf | src/features/renderer/utils/export_stl.ts:61-68 | normal[j] = n1[j]/3 + n2[j]/3 + n3[j]/3 |
| ExportStl.WriteSwizzled | src/features/renderer/utils/export_stl.ts:73-84 | a vector is written as components 0, 2, 1 |
| ExportStl.ExportAsStl | src/features/renderer/utils/export_stl.ts:5-9 | the export flag is cleared and the bytes are `StlBytes` |
| ExportStl.StlFails | src/features/renderer/utils/export_stl.ts:51 | serialising throws iff the list is empty (`reduce` has no initial value) or some mesh has no index group |
| ExportStl.StlHeader | src/features/renderer/utils/export_stl.ts:48-52 | the output starts with 80 zero bytes, then the triangle count mod 2³² |
| ExportStl.StlRecords | src/features/renderer/utils/export_stl.ts:55-88 | after byte 84 come exactly the 50-byte records of all meshes |
| ExportStl.StlFile | src/features/renderer/utils/export_stl.ts:44-90 | when the count equals the number of records: 84 + 50·n bytes, count n at byte 80, the records after |
| ExportStl.CountMatchesRecords | src/features/renderer/utils/export_stl.ts:51-57 | the announced count equals the number of records when each mesh's first group is as long as its `indices` and is whole triangles |
| ExportStl.FirstGroupsAreIndices | src/features/renderer/utils/export_stl.ts:51 | the count sums `indicesPerMaterial[0].length` over the meshes |
| ExportStl.WholeTriangles | src/features/renderer/utils/export_stl.ts:57 | when every `indices.length` is a multiple of 3, there are Σ length/3 records |
| ExportStl.NormalIsAverage | src/features/renderer/utils/export_stl.ts:61-68 | a component of the written normal is the average of the three corner normals, or NaN iff one of them is missing |
| ExportStl.RecordByte | src/features/renderer/utils/export_stl.ts:73-86 | byte 84 + 50f + 4q + r is byte r of float number q of record f |
| ExportStl.FacetNumsParts | src/features/renderer/utils/export_stl.ts:71-86 | a record's twelve floats are the swizzled normal, then the three swizzled corners |
| ExportStl.SwizzleSlotInverse | src/features/renderer/utils/export_stl.ts:73-82 | component c of a vector sits at slot [0, 2, 1][c] of the written triple; the order [0, 2, 1] is its own inverse |
| ExportStl.FacetNumsAt | src/features/renderer/utils/export_stl.ts:71-85 | the written float for corner j's component c, and for the normal's component c |
| StlReadBack.ExportThenLoad | src/features/renderer/utils/export_stl.ts:44-90 | the binary reader, given a file the writer produced, accepts it, counts that many triangles, and reads back each corner and normal in the original x, y, z order |
| StlReadBack.WrittenFileRead | src/utils/models/stl_loader.ts:28-51 | the reader reads a file of count n and n records made of encoded facets back as those facets' decoded corners and normals |
| StlReadBack.WrittenSized | src/utils/models/stl_loader.ts:28-50 | such a file is large enough for the reader |
| StlReadBack.CornerVector | src/utils/models/stl_loader.ts:43-47 | the reader's swapped vertex is the writer's unswapped corner |
| StlReadBack.NormalVector | src/utils/models/stl_loader.ts:36-38 | the reader's swapped normal is the writer's unswapped normal |
| ObjNormals.ReconstructNormals | src/utils/models/obj_loader.ts:22-60 | `vertexNormals` becomes `NormalPass`: zeros plus the accumulated face normals when there are none (or the first is NaN), the supplied normals otherwise, then renormalised; nothing else changes |
| ObjNormals.AccumulateGroups | src/utils/models/obj_loader.ts:24-47 | the group loop adds the face normals of all triangles, group by group |
| ObjNormals.AccumulateGroup | src/utils/models/obj_loader.ts:25-46 | the triangle loop of one group |
| ObjNormals.AddTriangle | src/utils/models/obj_loader.ts:26-45 | one triangle adds its normalised (v2 − v1) × (v3 − v1) at its three vertices |
| ObjNormals.AddNormal | src/utils/models/obj_loader.ts:39-45 | the corner loop adds the normal to the three slots of each corner |
| ObjNormals.Renormalize | src/utils/models/obj_loader.ts:50-60 | the final pass yields `Renormalized` of the normals |
| ObjNormals.RenormalizeTriple | src/utils/models/obj_loader.ts:51-59 | one pass of the final loop rewrites one triple and nothing else |
| ObjNormals.Zeros | src/utils/models/obj_loader.ts:23 | the fresh normal array is all zeros, as long as `vertices` |
| ObjNormals.Triangles | src/utils/models/obj_loader.ts:25 | a group of whole triangles gives length/3 faces |
| ObjNormals.NormalizeIsUnit | src/utils/models/obj_loader.ts:37 | `vec3.normalize` gives a positive multiple of unit length, or zero for a zero vector |
| ObjNormals.AccumulateAppend | src/utils/models/obj_loader.ts:24-47 | accumulating two face lists one after the other is accumulating their concatenation |
| ObjNormals.AccumulateIsSum | src/utils/models/obj_loader.ts:24-47 | each normal slot ends as its start value plus the normals of the faces using that vertex |
| ObjNormals.UnusedContributesNothing | src/utils/models/obj_loader.ts:40-44 | a vertex used by no triangle gets no contribution |
| ObjNormals.ReconstructedSum | src/utils/models/obj_loader.ts:22-47 | reconstructed normals are the sums of face normals, and (0, 0, 0) for unused vertices |
| ObjNormals.SuppliedNormalsKept | src/utils/models/obj_loader.ts:22-60 | supplied normals are never accumulated into, only renormalised; reconstructed ones ignore the supplied array |
| ObjNormals.RenormalizedTriple | src/utils/models/obj_loader.ts:50-60 | a triple of positive length becomes a positive multiple of unit length; a zero triple stays zero |
| ObjLoader.LoadObjModel | src/utils/models/obj_loader.ts:11-63 | normals from the un-normalised positions, then positions normalised, then `splitMesh` of the result |
| ObjLoader.NormalPassInRange | src/utils/models/obj_loader.ts:62 | after the normal pass, every triangle index names a whole position and normal, so the split reads no slot past the end |
| WebGl.Context.LoadTexture | src/utils/models/textures.ts:14-33 | `createTexture` hands out a new handle on each call |
| Mtl.Mtl.constructor | src/utils/models/mtl.ts:24-73 | the line loop leaves `materials` and its insertion order equal to `Parse` of the text |
| Mtl.Mtl.ReadLine | src/utils/models/mtl.ts:29-71 | one pass of the loop body is one `Step` of the parse; it returns the new current material |
| Mtl.Mtl.Set | src/utils/models/mtl.ts:39-43 | `map.set` replaces the entry and appends a key that is new |
| Mtl.FieldOf | src/utils/models/mtl.ts:36-71 | the six property commands, and no other string, select a field |
| Mtl.Floats | src/utils/models/mtl.ts:43-53 | `args.map(parseFloat)`: one number per argument token |
| Mtl.Assign | src/utils/models/mtl.ts:43-68 | the assignment sets one field to its value and leaves the other five as they were |
| Mtl.ParseLines | src/utils/models/mtl.ts:28-72 | the key order lists exactly the map's keys, and a truthy current name is a key |
| Mtl.LineTokens | src/utils/models/mtl.ts:29-34 | text from `#` on is dropped, the line is trimmed, and the tokens are the pieces between white-space runs |
| Mtl.LayoutIgnored | src/utils/models/mtl.ts:29-34 | leading and trailing white space, a trailing comment and the width of the gaps do not change what a line does |
| Mtl.BlankLineSkipped | src/utils/models/mtl.ts:29-30 | a line that is blank before its `#` changes nothing |
| Mtl.CaseInsensitive | src/utils/models/mtl.ts:33 | commands differing only in letter case do the same |
| Mtl.NewmtlResets | src/utils/models/mtl.ts:37-40 | `newmtl name` makes name current and sets its entry to an empty record; a new name is appended to the order; other entries are unchanged |
| Mtl.PropertySet | src/utils/models/mtl.ts:41-70 | with a current material, a property line sets that one field of that one entry to its value |
| Mtl.NoCurrentNoChange | src/utils/models/mtl.ts:42-67 | before the first `newmtl`, a line changes nothing |
| Mtl.UnknownIgnored | src/utils/models/mtl.ts:36-71 | an unrecognised command changes nothing |
| Mtl.StepScope | src/utils/models/mtl.ts:36-71 | a line changes only the current name and the current material's entry |
| Mtl.KeysAreNames | src/utils/models/mtl.ts:25-39 | the keys are exactly the names on `newmtl` lines |
| Mtl.KeysDistinct | src/utils/models/mtl.ts:39 | the key order has no repeats |
| Mtl.NoNewmtlNoMaterials | src/utils/models/mtl.ts:37-70 | text without a `newmtl` line defines no material |
| Mtl.UnsetFieldAbsent | src/utils/models/mtl.ts:39-70 | a field no line assigns stays absent in every material |
| Mtl.StepKeepsAbsent | src/utils/models/mtl.ts:39-70 | a line for another field keeps a field absent |
| RendererMtl.Mtl.constructor | src/features/renderer/utils/mtl.ts:26-75 | the renderer's line loop leaves `materials` and its order equal to its own `Parse` |
| RendererMtl.Mtl.ReadLine | src/features/renderer/utils/mtl.ts:30-73 | one pass of the renderer's loop body is one `Step` |
| RendererMtl.Mtl.Set | src/features/renderer/utils/mtl.ts:41-45 | `map.set` replaces the entry and appends a key that is new |
| RendererMtl.Assign | src/features/renderer/utils/mtl.ts:43-72 | an assignment keeps `defaultTexture` and otherwise does what the other parser's does |
| RendererMtl.ParseLines | src/features/renderer/utils/mtl.ts:30-74 | the key order lists exactly the map's keys |
| RendererMtl.StepAgrees | src/features/renderer/utils/mtl.ts:30-73 | one line does the same to both parsers' maps, up to `defaultTexture` |
| RendererMtl.SameMaterials | src/features/renderer/utils/mtl.ts:26-75 | on every input the two parsers give the same map and key order, up to `defaultTexture` |
| RendererMtl.SameParse | src/features/renderer/utils/mtl.ts:26-75 | the two constructors give the same keys, in the same order, with the same six fields |
| RendererMtl.NoDefaultTexture | src/features/renderer/utils/mtl.ts:26-75 | the parser never sets `defaultTexture` |
| Textures.LoadTextures | src/utils/models/textures.ts:3-12 | the nested loops leave `materials` untouched and take `textures` and the context to `LoadAll` of the files |
| Textures.LastMatch | src/utils/models/textures.ts:4-8 | the last file, in upload order, named exactly as the material's `diffuse_map`, or none |
| Textures.LoadFileEntry | src/utils/models/textures.ts:6-9 | one file gives each matching material a handle made in that pass and keeps every other entry |
| Textures.LoadAllEntry | src/utils/models/textures.ts:4-11 | a material gets a new handle holding the last matching file; every other key keeps its entry |
| Textures.ReplacedIffMatched | src/utils/models/textures.ts:7-8 | an entry is replaced by a new handle iff some file's name equals its `diffuse_map` (case-sensitive equality) |
| Textures.LastFileWins | src/utils/models/textures.ts:4-8 | of several matching files the last one wins |
| Textures.SharedMapSameFile | src/utils/models/textures.ts:6-8 | materials sharing a `diffuse_map` get the same file |
| Textures.OnlyMaterialKeys | src/utils/models/textures.ts:6-8 | `textures` gains no key that is not a material |
| Textures.FreshHandles | src/utils/models/textures.ts:8-15 | no two materials share a handle made during the run |
| Textures.NoFilesNoChange | src/utils/models/textures.ts:4 | no files, no change |
| Transformations.TransformationsSlice.constructor | src/stores/slices/transformations.ts:5-9 | the initial position is [0, −0.25, −1.5], the scale is [1, 1, 1, 1] and the rotation is [0, 0, 0] |
| Transformations.TransformationsSlice.SetPosition | src/stores/slices/transformations.ts:11-14 | `position[index] = value`, nothing else changes |
| Transformations.TransformationsSlice.SetScale | src/stores/slices/transformations.ts:15-18 | `scale[index] = value` (index 3 being the overall factor), nothing else changes |
| Transformations.TransformationsSlice.SetRotation | src/stores/slices/transformations.ts:19-22 | `rotation[index] = value`, nothing else changes |
| Transformations.Write | src/stores/slices/transformations.ts:11-22 | one slot of one array takes the value; the other slots and the other arrays are unchanged |
| Transformations.WriteKeepsShape | src/stores/slices/transformations.ts:5-22 | the shapes 3, 4, 3 hold initially and are kept by every setter |
| Transformations.WriteIdempotent | src/stores/slices/transformations.ts:11-22 | a setter applied twice is applied once, and of two writes to one slot the later stays |
| Transformations.WritesCommute | src/stores/slices/transformations.ts:11-22 | setters at different slots commute |
| Lighting.LightingSlice.constructor | src/stores/slices/lighting.ts:5-20 | the initial material, directional light and point light |
| Lighting.LightingSlice.UpdateStructUniform | src/stores/slices/lighting.ts:22-39 | the reducer throws exactly in the `Update` failure case and then leaves the state as it was; otherwise the state becomes `Update` |
| Lighting.PlaceOf | src/stores/slices/lighting.ts:24-38 | a key the chosen light lacks throws; a light key sent to `material` only adds an unread property |
| Lighting.Update | src/stores/slices/lighting.ts:22-39 | fails iff it throws; each branch leaves the two untargeted groups unchanged |
| Lighting.OnlySlotChanges | src/stores/slices/lighting.ts:26-37 | for an array key only `array[index]` changes |
| Lighting.ScalarIgnoresIndex | src/stores/slices/lighting.ts:28-29 | a scalar material key is set to the value, whatever `index` is |
| Lighting.UpdateKeepsShape | src/stores/slices/lighting.ts:5-39 | every array has three slots initially, and updates keep them so |
| Lighting.UpdateIdempotent | src/stores/slices/lighting.ts:22-39 | the same action twice is the action once |
| Settings.SettingsSlice.constructor | src/stores/slices/settings.ts:5-8 | both guides are shown initially |
| Settings.SettingsSlice.ToggleShowGrids | src/stores/slices/settings.ts:10-12 | negates `showGrids` |
| Settings.SettingsSlice.ToggleShowAxes | src/stores/slices/settings.ts:13-15 | negates `showAxes` |
| Settings.ToggleGrids | src/stores/slices/settings.ts:10-12 | `showGrids` flips and `showAxes` is unchanged |
| Settings.ToggleAxes | src/stores/slices/settings.ts:13-15 | `showAxes` flips and `showGrids` is unchanged |
| Settings.TogglesAreInvolutions | src/stores/slices/settings.ts:10-15 | each toggle undoes itself |
| Settings.TogglesCommute | src/stores/slices/settings.ts:10-15 | the two toggles commute |
| Settings.RunParity | src/stores/slices/settings.ts:5-15 | after any sequence of toggles, a guide is shown iff its toggle ran an even number of times |
| Js.Split | src/utils/models/stl_loader.ts:61 | `split("\n")`: no piece holds the separator, and joining the pieces gives the text back |
| Js.SetAt | src/stores/slices/transformations.ts:12 | `a[i] = v` on an existing slot: that slot holds v, every other slot is unchanged |

## Left out

- I/O: `file.text()`, `file.arrayBuffer()`, `fetch` and the STL download. `LoadStlModel` takes the
  file both as text and as bytes.
- `initMeshBuffers`, the GPU upload after `splitMesh`, is not modelled. The operations end with the
  list of submeshes.
- IEEE-754 arithmetic.
  - Coordinates are mathematical reals.
  - The float32 codecs, `parseFloat`, `Math.sqrt` and the gl-matrix transforms are parameters.
  - Infinity is not modelled.
  - NaN is modelled only in the writer (an index read past the end) and as the OBJ flag
    "the first normal is NaN".
- Normalize.NormalizeMesh: requires a positive size for a non-empty mesh. In the source, a flat
  mesh divides by 0.
- The OBJ text parser of webgl-obj-loader is not visible. `ObjLoader.Parsed` requires what its
  output is taken to satisfy: groups of whole triangles that index existing vertices, and normals,
  if any, one per vertex.
- ObjNormals.ReconstructNormals: when normals are supplied, the source still runs the accumulation
  loop with its additions switched off. The model skips that loop, which has no effect.
- StlLoader.LoadStlModel: an ASCII file whose indices point past its vertices or past its normals
  makes `splitMesh` copy `undefined` slots. This happens when a `facet` is not followed by exactly
  three `vertex` lines, or when `vertex` lines come before the first `facet`. The model returns a
  failure there instead. `WellFormedAsciiSplits` shows that the failure does not occur for a
  well-formed file.
- Meshes.Mesh.Empty: the `Mesh` class of webgl-obj-loader is not part of this model. That
  `new Mesh("")` starts with every array empty is an assumption about that library.
- A `Split.Submesh` carries no `indicesPerMaterial`. `ExportStl.CountMatchesRecords` and
  `ExportStl.FirstGroupsAreIndices` are stated over any `ExportMesh` and are not applied to
  `splitMesh` output.
- `initMtlTextures` and both `loadTexture` functions are GPU calls.
  - A texture is a handle numbered by the context's counter.
  - `createTexture` returning null, and the error it throws, are not modelled.
  - The `image.onload` callback is not modelled.
  - `Mtl.Mtl.constructor` starts `textures` empty. The placeholder handles that `initMtlTextures`
    adds are not part of this model, but the `Textures` lemmas hold from any starting map.
- Transformations.TransformationsSlice.SetPosition: requires the index to be a slot of the array.
  A JavaScript write past the end would grow the array. The same holds for `SetScale`,
  `SetRotation` and `Lighting.Update` (the `Addressable` precondition).
- Lighting.Update: sending a key such as `color` with parent `material` adds a new property to the
  material in the source. The model keeps the state unchanged because no reader sees that
  property.
- The Redux Toolkit and Immer machinery (actions, dispatch, drafts) is not modelled. Each reducer
  is a method of a class holding the slice's state.
- Js.Lower: maps the ASCII capitals and the Kelvin sign, which are the characters whose lower case is an
  ASCII letter. It leaves every other character as it is, which `toLowerCase` does not, but no
  command the parser compares with can match a line that differs from it there.
- The React UI, the shaders, the matrix helpers and the camera handlers are not part of this model.
