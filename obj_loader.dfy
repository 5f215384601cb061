/** `loadOBJModel`: the mesh webgl-obj-loader parsed gets its normals (reconstructed or
    renormalised), then is normalised and split into drawable submeshes. */
module ObjLoader {
  import Meshes
  import Normalize
  import Split
  import ObjNormals

  /** What webgl-obj-loader hands over: whole triangles whose vertex numbers name positions,
      and, when the file has `vn` lines, one normal per position. */
  predicate Parsed(vs: seq<real>, ns: seq<real>, groups: seq<seq<int>>, firstNormalIsNaN: bool) {
    && ObjNormals.Triangulated(groups, vs)
    && (ObjNormals.NoNormals(ns, firstNormalIsNaN) || |ns| == |vs|)
  }

  /** The normal pass leaves one normal per position, so every index of a triangle names a
      whole position and a whole normal of the normalised mesh. */
  lemma NormalPassInRange(vs: seq<real>, ns: seq<real>, groups: seq<seq<int>>, firstNormalIsNaN: bool,
                          sqrt: real -> real)
    requires Parsed(vs, ns, groups, firstNormalIsNaN) && ObjNormals.IsSqrt(sqrt) && Normalize.Normalizable(vs)
    ensures |ObjNormals.NormalPass(vs, ns, groups, firstNormalIsNaN, sqrt)| == |vs|
    ensures Split.GroupsInRange(groups, Normalize.Normalized(vs), ObjNormals.NormalPass(vs, ns, groups, firstNormalIsNaN, sqrt))
  {
    var ns' := ObjNormals.NormalPass(vs, ns, groups, firstNormalIsNaN, sqrt);
    assert |ns'| == |vs|;
    forall g, i | 0 <= g < |groups| && 0 <= i < |groups[g]|
      ensures Split.InRange(groups[g][i], Normalize.Normalized(vs), ns')
    {
      assert ObjNormals.HasVertex(vs, groups[g][i]);
    }
  }

  /** `loadOBJModel` after the parse: normals from the positions as parsed, then positions
      normalised, then one submesh per material and 65535-index window. */
  method LoadObjModel(mesh: Meshes.Mesh, firstNormalIsNaN: bool, sqrt: real -> real)
    returns (subs: seq<Split.Submesh>)
    requires ObjNormals.IsSqrt(sqrt) && Normalize.Normalizable(mesh.vertices)
    requires Parsed(mesh.vertices, mesh.vertexNormals, mesh.indicesPerMaterial, firstNormalIsNaN)
    modifies mesh
    ensures var ns := ObjNormals.NormalPass(old(mesh.vertices), old(mesh.vertexNormals), old(mesh.indicesPerMaterial),
                                             firstNormalIsNaN, sqrt);
      && Split.GroupsInRange(old(mesh.indicesPerMaterial), Normalize.Normalized(old(mesh.vertices)), ns)
      && subs == Split.SplitGroups(old(mesh.indicesPerMaterial), old(mesh.materialNames),
                                   Normalize.Normalized(old(mesh.vertices)), ns, old(mesh.textures))
    ensures mesh.vertices == Normalize.Normalized(old(mesh.vertices))
    ensures mesh.vertexNormals == ObjNormals.NormalPass(old(mesh.vertices), old(mesh.vertexNormals),
                                                        old(mesh.indicesPerMaterial), firstNormalIsNaN, sqrt)
    ensures mesh.textures == old(mesh.textures) && mesh.indicesPerMaterial == old(mesh.indicesPerMaterial)
    ensures mesh.materialNames == old(mesh.materialNames)
  {
    NormalPassInRange(mesh.vertices, mesh.vertexNormals, mesh.indicesPerMaterial, firstNormalIsNaN, sqrt);
    ObjNormals.ReconstructNormals(mesh, firstNormalIsNaN, sqrt);
    var normalized := Normalize.NormalizeMesh(mesh);
    subs := Split.SplitMesh(normalized);
  }
}
