/** The STL reader: format detection, the binary record reader and the ASCII line parser.
    Both readers build a one-group mesh, normalise it and hand it to `splitMesh`. */
module StlLoader {
  import opened Js
  import opened Meshes
  import opened Normalize
  import opened Split
  import opened StlBinary
  import opened StlAscii

  // ---------------------------------------------------------------------------------
  // Detection
  // ---------------------------------------------------------------------------------

  /** A file is read as ASCII exactly when its text starts with `solid`; nothing is trimmed. */
  predicate IsAsciiStl(text: string) {
    StartsWith(text, "solid")
  }

  /** Leading white space is not skipped, so such a file goes to the binary reader. */
  lemma LeadingSpaceIsBinary(text: string)
    requires text != "" && IsSpace(text[0])
    ensures !IsAsciiStl(text)
  {
  }

  /** `loadBinaryStl`: a one-group mesh filled by the record loop, then normalised. A read
      past the end of the buffer is the RangeError `DataView` throws. */
  method LoadBinaryStl(buf: seq<byte>, getFloat32: Word -> real) returns (r: Result<Mesh>)
    requires BinarySized(buf) ==> Normalizable(BinaryVertices(buf, TriangleCount(buf), getFloat32))
    ensures r.Success? <==> BinarySized(buf)
    ensures r.Success? ==> fresh(r.value)
    ensures r.Success? ==>
      var n := TriangleCount(buf);
      && r.value.vertices == Normalized(BinaryVertices(buf, n, getFloat32))
      && r.value.vertexNormals == BinaryNormals(buf, n, getFloat32)
      && r.value.indicesPerMaterial == [FacetIndices(n)]
      && r.value.textures == [] && r.value.materialNames == []
  {
    if |buf| < 84 {
      return Failure("RangeError");
    }
    var ok, vertices, vertexNormals, indices := ReadRecords(buf, getFloat32);
    if !ok {
      return Failure("RangeError");
    }
    var mesh := new Mesh.Empty();
    mesh.vertices, mesh.vertexNormals, mesh.indicesPerMaterial := vertices, vertexNormals, [indices];
    var _ := NormalizeMesh(mesh);
    return Success(mesh);
  }

  /** The binary reader's index group names a whole vertex and normal at every position. */
  lemma BinaryInRange(buf: seq<byte>, getFloat32: Word -> real, vs: seq<real>)
    requires BinarySized(buf)
    requires |vs| == |BinaryVertices(buf, TriangleCount(buf), getFloat32)|
    ensures GroupsInRange([FacetIndices(TriangleCount(buf))], vs, BinaryNormals(buf, TriangleCount(buf), getFloat32))
  {
    var n := TriangleCount(buf);
    var g := FacetIndices(n);
    forall k | 0 <= k < |g|
      ensures InRange(g[k], vs, BinaryNormals(buf, n, getFloat32))
    {
      FacetIndicesAt(n, k);
    }
  }

  // ---------------------------------------------------------------------------------
  // The ASCII reader
  // ---------------------------------------------------------------------------------

  /** The parse of an ASCII file's lines. */
  function AsciiParse(data: string, parseFloat: string -> real): AsciiMesh {
    ParseLines(Js.Split(data, '\n'), parseFloat)
  }

  /** A fresh one-group mesh holding the parsed arrays, normalised in place. */
  method NormalizedMesh(m: AsciiMesh) returns (mesh: Mesh)
    requires Normalizable(m.vertices)
    ensures fresh(mesh)
    ensures mesh.vertices == Normalized(m.vertices) && mesh.vertexNormals == m.vertexNormals
    ensures mesh.indicesPerMaterial == [m.indices] && mesh.textures == [] && mesh.materialNames == []
  {
    mesh := new Mesh.Empty();
    mesh.vertices, mesh.vertexNormals, mesh.indicesPerMaterial := m.vertices, m.vertexNormals, [m.indices];
    mesh := NormalizeMesh(mesh);
  }

  /** `loadAsciiStl`: a one-group mesh filled by the line parser, then normalised. */
  method LoadAsciiStl(data: string, parseFloat: string -> real) returns (mesh: Mesh)
    requires Normalizable(AsciiParse(data, parseFloat).vertices)
    ensures fresh(mesh)
    ensures var m := AsciiParse(data, parseFloat);
      && mesh.vertices == Normalized(m.vertices)
      && mesh.vertexNormals == m.vertexNormals
      && mesh.indicesPerMaterial == [m.indices]
      && mesh.textures == [] && mesh.materialNames == []
  {
    var vertices, vertexNormals, indices := ReadAscii(data, parseFloat);
    mesh := NormalizedMesh(AsciiMesh(vertices, vertexNormals, indices));
  }

  /** A well-formed ASCII file (three `vertex` lines after each `facet`) gives a mesh
      every index of which can be split: the ASCII branch never reads past its arrays. */
  lemma WellFormedAsciiSplits(data: string, parseFloat: string -> real, vs: seq<real>)
    requires WellFormed(Js.Split(data, '\n'))
    requires |vs| == |AsciiParse(data, parseFloat).vertices|
    ensures var m := AsciiParse(data, parseFloat); GroupsInRange([m.indices], vs, m.vertexNormals)
  {
    WellFormedInRange(Js.Split(data, '\n'), parseFloat);
  }

  // ---------------------------------------------------------------------------------
  // loadSTLModel
  // ---------------------------------------------------------------------------------

  /** `loadSTLModel`, given the file both as decoded text and as bytes: the ASCII reader
      when the text starts with `solid`, the binary reader otherwise, then `splitMesh`.
      A read past the end of the buffer fails; so does an ASCII mesh whose indices name
      a vertex or normal the file does not have. */
  method LoadStlModel(text: string, buf: seq<byte>, getFloat32: Word -> real, parseFloat: string -> real)
    returns (r: Result<seq<Submesh>>)
    requires IsAsciiStl(text) ==> Normalizable(AsciiParse(text, parseFloat).vertices)
    requires !IsAsciiStl(text) && BinarySized(buf) ==> Normalizable(BinaryVertices(buf, TriangleCount(buf), getFloat32))
    ensures !IsAsciiStl(text) ==> (r.Success? <==> BinarySized(buf))
    ensures !IsAsciiStl(text) && r.Success? ==>
      var n := TriangleCount(buf);
      && GroupsInRange([FacetIndices(n)], Normalized(BinaryVertices(buf, n, getFloat32)), BinaryNormals(buf, n, getFloat32))
      && r.value == SplitGroups([FacetIndices(n)], [], Normalized(BinaryVertices(buf, n, getFloat32)), BinaryNormals(buf, n, getFloat32), [])
    ensures IsAsciiStl(text) ==>
      var m := AsciiParse(text, parseFloat);
      (r.Success? <==> GroupsInRange([m.indices], Normalized(m.vertices), m.vertexNormals))
    ensures IsAsciiStl(text) && r.Success? ==>
      var m := AsciiParse(text, parseFloat);
      && GroupsInRange([m.indices], Normalized(m.vertices), m.vertexNormals)
      && r.value == SplitGroups([m.indices], [], Normalized(m.vertices), m.vertexNormals, [])
  {
    if !IsAsciiStl(text) {
      var loaded := LoadBinaryStl(buf, getFloat32);
      if loaded.Failure? {
        return Failure(loaded.error);
      }
      var mesh := loaded.value;
      BinaryInRange(buf, getFloat32, mesh.vertices);
      var subs := SplitMesh(mesh);
      return Success(subs);
    } else {
      var mesh := LoadAsciiStl(text, parseFloat);
      if !GroupsInRange(mesh.indicesPerMaterial, mesh.vertices, mesh.vertexNormals) {
        return Failure("index out of range");
      }
      var subs := SplitMesh(mesh);
      return Success(subs);
    }
  }
}
