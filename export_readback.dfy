/** Reading back what the writer produces: the binary STL reader finds the count, the
    transformed corners and the transformed normal of every record, each through one
    float32 encode and decode, with y and z in their places again. */
module StlReadBack {
  import opened Js
  import opened StlBinary
  import opened ExportStl

  /** A file whose count field equals its record count passes the reader's size checks. */
  lemma WrittenSized(out: seq<byte>, fs: seq<Facet>, setFloat32: Num -> Word)
    requires |out| == 84 + 50 * |fs| && Uint32LE(out, 80) == |fs|
    ensures BinarySized(out) && TriangleCount(out) == |fs|
  {
  }

  /** A vector as the reader gets it back: each of x, y, z through `setFloat32` and then
      `getFloat32`, in x, y, z order. */
  function Decoded(v: Vec4, setFloat32: Num -> Word, getFloat32: Word -> real): (r: seq<real>)
    ensures |r| == 3
  {
    [getFloat32(setFloat32(v.x)), getFloat32(setFloat32(v.y)), getFloat32(setFloat32(v.z))]
  }

  /** The positions the writer put into records `fs`, decoded. */
  function WrittenVertices(fs: seq<Facet>, setFloat32: Num -> Word, getFloat32: Word -> real): (r: seq<real>)
    ensures |r| == 9 * |fs|
  {
    if fs == [] then []
    else
      var f := fs[|fs| - 1];
      WrittenVertices(fs[..|fs| - 1], setFloat32, getFloat32)
        + Decoded(f.a, setFloat32, getFloat32) + Decoded(f.b, setFloat32, getFloat32) + Decoded(f.c, setFloat32, getFloat32)
  }

  /** The record normals the writer put into `fs`, decoded, once per corner. */
  function WrittenNormals(fs: seq<Facet>, setFloat32: Num -> Word, getFloat32: Word -> real): (r: seq<real>)
    ensures |r| == 9 * |fs|
  {
    if fs == [] then []
    else
      var n := Decoded(fs[|fs| - 1].normal, setFloat32, getFloat32);
      WrittenNormals(fs[..|fs| - 1], setFloat32, getFloat32) + n + n + n
  }

  /** The reader's vector at corner j of record f is the decoded corner: the writer's
      `[0, 2, 1]` order and the reader's y/z swap cancel. */
  lemma CornerVector(out: seq<byte>, fs: seq<Facet>, setFloat32: Num -> Word, getFloat32: Word -> real, f: nat, j: nat)
    requires |out| == 84 + 50 * |fs| && out[84..] == FacetsBytes(fs, setFloat32)
    requires f < |fs| && j < 3
    ensures SwappedVector(out, 84 + 50 * f + 12 + 12 * j, getFloat32) == Decoded(Corner(fs[f], j), setFloat32, getFloat32)
  {
    var off := 84 + 50 * f + 12 + 12 * j;
    SwappedCorner(out, fs, setFloat32, getFloat32, f, j, off, 0);
    SwappedCorner(out, fs, setFloat32, getFloat32, f, j, off, 1);
    SwappedCorner(out, fs, setFloat32, getFloat32, f, j, off, 2);
  }

  /** The reader's normal vector of record f is the decoded record normal. */
  lemma NormalVector(out: seq<byte>, fs: seq<Facet>, setFloat32: Num -> Word, getFloat32: Word -> real, f: nat)
    requires |out| == 84 + 50 * |fs| && out[84..] == FacetsBytes(fs, setFloat32)
    requires f < |fs|
    ensures SwappedVector(out, 84 + 50 * f, getFloat32) == Decoded(fs[f].normal, setFloat32, getFloat32)
  {
    var off := 84 + 50 * f;
    SwappedNormal(out, fs, setFloat32, getFloat32, f, off, 0);
    SwappedNormal(out, fs, setFloat32, getFloat32, f, off, 1);
    SwappedNormal(out, fs, setFloat32, getFloat32, f, off, 2);
  }

  lemma RecordVertices(out: seq<byte>, fs: seq<Facet>, setFloat32: Num -> Word, getFloat32: Word -> real, f: nat)
    requires |out| == 84 + 50 * |fs| && out[84..] == FacetsBytes(fs, setFloat32)
    requires f < |fs|
    ensures FacetVertexRun(out, f, 3, getFloat32)
         == Decoded(fs[f].a, setFloat32, getFloat32) + Decoded(fs[f].b, setFloat32, getFloat32)
          + Decoded(fs[f].c, setFloat32, getFloat32)
  {
    CornerVector(out, fs, setFloat32, getFloat32, f, 0);
    CornerVector(out, fs, setFloat32, getFloat32, f, 1);
    CornerVector(out, fs, setFloat32, getFloat32, f, 2);
    var v0 := SwappedVector(out, 84 + 50 * f + 12, getFloat32);
    assert FacetVertexRun(out, f, 1, getFloat32) == v0 by {
      assert [] + v0 == v0;
    }
  }

  /** Every record's corners, as the reader takes them, are the decoded corners. */
  predicate CornersRead(out: seq<byte>, fs: seq<Facet>, setFloat32: Num -> Word, getFloat32: Word -> real)
    requires |out| == 84 + 50 * |fs|
  {
    forall f :: 0 <= f < |fs| ==>
      FacetVertexRun(out, f, 3, getFloat32)
      == Decoded(fs[f].a, setFloat32, getFloat32) + Decoded(fs[f].b, setFloat32, getFloat32)
       + Decoded(fs[f].c, setFloat32, getFloat32)
  }

  /** Every record's normal, as the reader takes it, is the decoded normal. */
  predicate NormalsRead(out: seq<byte>, fs: seq<Facet>, setFloat32: Num -> Word, getFloat32: Word -> real)
    requires |out| == 84 + 50 * |fs|
  {
    forall f :: 0 <= f < |fs| ==>
      SwappedVector(out, 84 + 50 * f, getFloat32) == Decoded(fs[f].normal, setFloat32, getFloat32)
  }

  lemma {:induction false} VerticesOfPrefix(out: seq<byte>, fs: seq<Facet>, setFloat32: Num -> Word,
                                            getFloat32: Word -> real, n: nat)
    requires |out| == 84 + 50 * |fs| && CornersRead(out, fs, setFloat32, getFloat32)
    requires n <= |fs|
    ensures RecordsFit(out, n) && BinaryVertices(out, n, getFloat32) == WrittenVertices(fs[..n], setFloat32, getFloat32)
  {
    if n > 0 {
      VerticesOfPrefix(out, fs, setFloat32, getFloat32, n - 1);
      FacetPrefix(fs, n);
      VerticesStep(out, fs[..n], n, setFloat32, getFloat32);
    }
  }

  lemma FacetPrefix(fs: seq<Facet>, n: nat)
    requires 0 < n <= |fs|
    ensures fs[..n][..n - 1] == fs[..n - 1] && fs[..n][n - 1] == fs[n - 1]
  {
  }

  lemma VerticesStep(out: seq<byte>, fs: seq<Facet>, n: nat, setFloat32: Num -> Word, getFloat32: Word -> real)
    requires |fs| == n && n > 0 && RecordsFit(out, n)
    requires BinaryVertices(out, n - 1, getFloat32) == WrittenVertices(fs[..n - 1], setFloat32, getFloat32)
    requires var f := fs[n - 1];
      FacetVertexRun(out, n - 1, 3, getFloat32)
      == Decoded(f.a, setFloat32, getFloat32) + Decoded(f.b, setFloat32, getFloat32) + Decoded(f.c, setFloat32, getFloat32)
    ensures BinaryVertices(out, n, getFloat32) == WrittenVertices(fs, setFloat32, getFloat32)
  {
  }

  lemma {:induction false} NormalsOfPrefix(out: seq<byte>, fs: seq<Facet>, setFloat32: Num -> Word,
                                           getFloat32: Word -> real, n: nat)
    requires |out| == 84 + 50 * |fs| && NormalsRead(out, fs, setFloat32, getFloat32)
    requires n <= |fs|
    ensures RecordsFit(out, n) && BinaryNormals(out, n, getFloat32) == WrittenNormals(fs[..n], setFloat32, getFloat32)
  {
    if n > 0 {
      NormalsOfPrefix(out, fs, setFloat32, getFloat32, n - 1);
      FacetPrefix(fs, n);
      NormalsStep(out, fs[..n], n, setFloat32, getFloat32);
    }
  }

  lemma NormalsStep(out: seq<byte>, fs: seq<Facet>, n: nat, setFloat32: Num -> Word, getFloat32: Word -> real)
    requires |fs| == n && n > 0 && RecordsFit(out, n)
    requires BinaryNormals(out, n - 1, getFloat32) == WrittenNormals(fs[..n - 1], setFloat32, getFloat32)
    requires SwappedVector(out, 84 + 50 * (n - 1), getFloat32) == Decoded(fs[n - 1].normal, setFloat32, getFloat32)
    ensures BinaryNormals(out, n, getFloat32) == WrittenNormals(fs, setFloat32, getFloat32)
  {
  }

  /** Component c of the vector the reader takes from record f at number q (q = 0 for the
      normal, 3 + 3 j for corner j) is the decoded number q + SwizzleSlot(c). */
  lemma SwappedWord(out: seq<byte>, fs: seq<Facet>, setFloat32: Num -> Word, getFloat32: Word -> real,
                    f: nat, q: nat, off: nat, c: nat)
    requires |out| == 84 + 50 * |fs| && out[84..] == FacetsBytes(fs, setFloat32)
    requires f < |fs| && q <= 9 && c < 3 && off == 84 + 50 * f + 4 * q
    ensures SwappedVector(out, off, getFloat32)[c]
         == getFloat32(setFloat32(FacetNums(fs[f])[q + SwizzleSlot(c)]))
  {
    RecordWord(out, fs, setFloat32, f, q + SwizzleSlot(c));
  }

  /** Component c of the vector the reader takes from the bytes of corner j of record f. */
  lemma SwappedCorner(out: seq<byte>, fs: seq<Facet>, setFloat32: Num -> Word, getFloat32: Word -> real,
                      f: nat, j: nat, off: nat, c: nat)
    requires |out| == 84 + 50 * |fs| && out[84..] == FacetsBytes(fs, setFloat32)
    requires f < |fs| && j < 3 && c < 3 && off == 84 + 50 * f + 12 + 12 * j
    ensures SwappedVector(out, off, getFloat32)[c] == getFloat32(setFloat32(Component(Corner(fs[f], j), c)))
  {
    SwappedWord(out, fs, setFloat32, getFloat32, f, 3 + 3 * j, off, c);
    FacetNumsAt(fs[f], j, c);
  }

  /** Component c of the vector the reader takes from the normal bytes of record f. */
  lemma SwappedNormal(out: seq<byte>, fs: seq<Facet>, setFloat32: Num -> Word, getFloat32: Word -> real,
                      f: nat, off: nat, c: nat)
    requires |out| == 84 + 50 * |fs| && out[84..] == FacetsBytes(fs, setFloat32)
    requires f < |fs| && c < 3 && off == 84 + 50 * f
    ensures SwappedVector(out, off, getFloat32)[c] == getFloat32(setFloat32(Component(fs[f].normal, c)))
  {
    SwappedWord(out, fs, setFloat32, getFloat32, f, 0, off, c);
    FacetNumsAt(fs[f], 0, c);
  }

  /** The writer's own output, read by the binary reader: when the count agrees with the
      records and stays below 2^32, the reader takes in every record, and the positions and
      normals it loads are the exported ones, each through one float32 encode and decode. */
  lemma ExportThenLoad(meshes: seq<ExportMesh>, modelMat: Vec4 -> Vec4, normalMat: Vec4 -> Vec4,
                       setFloat32: Num -> Word, getFloat32: Word -> real)
    requires StlBytes(meshes, modelMat, normalMat, setFloat32).Success?
    requires TriangleTotal(meshes).value == |AllFacets(meshes, modelMat, normalMat)| < 0x1_0000_0000
    ensures var out := StlBytes(meshes, modelMat, normalMat, setFloat32).value;
      var fs := AllFacets(meshes, modelMat, normalMat);
      && BinarySized(out) && TriangleCount(out) == |fs|
      && BinaryVertices(out, |fs|, getFloat32) == WrittenVertices(fs, setFloat32, getFloat32)
      && BinaryNormals(out, |fs|, getFloat32) == WrittenNormals(fs, setFloat32, getFloat32)
  {
    StlFile(meshes, modelMat, normalMat, setFloat32);
    WrittenFileRead(StlBytes(meshes, modelMat, normalMat, setFloat32).value, AllFacets(meshes, modelMat, normalMat),
                    setFloat32, getFloat32);
  }

  /** A file laid out as the writer lays it out, with a count equal to its record count,
      reads back as the decoded records. */
  lemma WrittenFileRead(out: seq<byte>, fs: seq<Facet>, setFloat32: Num -> Word, getFloat32: Word -> real)
    requires |out| == 84 + 50 * |fs| && Uint32LE(out, 80) == |fs| && out[84..] == FacetsBytes(fs, setFloat32)
    ensures BinarySized(out) && TriangleCount(out) == |fs|
    ensures BinaryVertices(out, |fs|, getFloat32) == WrittenVertices(fs, setFloat32, getFloat32)
    ensures BinaryNormals(out, |fs|, getFloat32) == WrittenNormals(fs, setFloat32, getFloat32)
  {
    WrittenSized(out, fs, setFloat32);
    forall f | 0 <= f < |fs|
      ensures FacetVertexRun(out, f, 3, getFloat32)
           == Decoded(fs[f].a, setFloat32, getFloat32) + Decoded(fs[f].b, setFloat32, getFloat32)
            + Decoded(fs[f].c, setFloat32, getFloat32)
    {
      RecordVertices(out, fs, setFloat32, getFloat32, f);
    }
    forall f | 0 <= f < |fs|
      ensures SwappedVector(out, 84 + 50 * f, getFloat32) == Decoded(fs[f].normal, setFloat32, getFloat32)
    {
      NormalVector(out, fs, setFloat32, getFloat32, f);
    }
    VerticesOfPrefix(out, fs, setFloat32, getFloat32, |fs|);
    NormalsOfPrefix(out, fs, setFloat32, getFloat32, |fs|);
    assert fs[..|fs|] == fs;
  }
}
