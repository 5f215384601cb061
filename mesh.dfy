/** webgl-obj-loader's mesh object, as the loaders of this code fill it. */
module Meshes {

  /** webgl-obj-loader's `Mesh`, restricted to the arrays this code reads and writes. */
  class Mesh {
    var vertices: seq<real>
    var vertexNormals: seq<real>
    var textures: seq<real>
    var indicesPerMaterial: seq<seq<int>>
    var materialNames: seq<string>

    /** `new Mesh("")`: a mesh with every array empty. */
    constructor Empty()
      ensures vertices == [] && vertexNormals == [] && textures == []
      ensures indicesPerMaterial == [] && materialNames == []
    {
      vertices, vertexNormals, textures := [], [], [];
      indicesPerMaterial, materialNames := [], [];
    }
  }
}
