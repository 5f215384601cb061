/** The binary STL layout and the record loop of `loadBinaryStl`: an 80-byte header, a
    little-endian uint32 triangle count at byte 80, then one 50-byte record per triangle
    (normal, three vertices, two attribute bytes). */
module StlBinary {
  import opened Js

  /** `view.getFloat32(off, true)`, given the float32 decoder. */
  function Float32At(buf: seq<byte>, off: nat, getFloat32: Word -> real): real
    requires off + 4 <= |buf|
  {
    getFloat32(WordAt(buf, off))
  }

  /** The triangle count: the little-endian uint32 at bytes 80..83. */
  function TriangleCount(buf: seq<byte>): nat
    requires |buf| >= 84
  {
    Uint32LE(buf, 80)
  }

  /** Record f starts at byte 84 + 50 f; its last read ends 48 bytes later, so the last
      record needs 84 + 50 n - 2 bytes (its two attribute bytes are never read). */
  predicate RecordsFit(buf: seq<byte>, n: nat) {
    n == 0 || 84 + 50 * n - 2 <= |buf|
  }

  /** Every read of the binary reader stays inside the buffer. */
  predicate BinarySized(buf: seq<byte>) {
    |buf| >= 84 && RecordsFit(buf, TriangleCount(buf))
  }

  /** The 12-byte vector at `off`, with y and z swapped. */
  function SwappedVector(buf: seq<byte>, off: nat, getFloat32: Word -> real): (v: seq<real>)
    requires off + 12 <= |buf|
    ensures |v| == 3
  {
    [Float32At(buf, off, getFloat32), Float32At(buf, off + 8, getFloat32), Float32At(buf, off + 4, getFloat32)]
  }

  /** The first `i` vertices of record `f`. */
  function FacetVertexRun(buf: seq<byte>, f: nat, i: nat, getFloat32: Word -> real): (v: seq<real>)
    requires i <= 3 && 84 + 50 * f + 48 <= |buf|
    ensures |v| == 3 * i
  {
    if i == 0 then []
    else FacetVertexRun(buf, f, i - 1, getFloat32) + SwappedVector(buf, 84 + 50 * f + 12 * i, getFloat32)
  }

  /** Vertex positions of the first `n` records, in file order. */
  function BinaryVertices(buf: seq<byte>, n: nat, getFloat32: Word -> real): (v: seq<real>)
    requires RecordsFit(buf, n)
    ensures |v| == 9 * n
  {
    if n == 0 then []
    else BinaryVertices(buf, n - 1, getFloat32) + FacetVertexRun(buf, n - 1, 3, getFloat32)
  }

  /** The normal of the record at `off` (x at +0, y read from +8, z from +4), once for
      each of the record's three vertices. */
  function NormalRun(buf: seq<byte>, off: nat, getFloat32: Word -> real): (v: seq<real>)
    requires off + 12 <= |buf|
    ensures |v| == 9
  {
    var nx := Float32At(buf, off, getFloat32);
    var ny := Float32At(buf, off + 8, getFloat32);
    var nz := Float32At(buf, off + 4, getFloat32);
    [nx, ny, nz, nx, ny, nz, nx, ny, nz]
  }

  /** Vertex normals of the first `n` records. */
  function BinaryNormals(buf: seq<byte>, n: nat, getFloat32: Word -> real): (v: seq<real>)
    requires RecordsFit(buf, n)
    ensures |v| == 9 * n
  {
    if n == 0 then []
    else BinaryNormals(buf, n - 1, getFloat32) + NormalRun(buf, 84 + 50 * (n - 1), getFloat32)
  }

  /** The index list of the first `n` triangles: three fresh vertex numbers each. */
  function FacetIndices(n: nat): (s: seq<int>)
    ensures |s| == 3 * n
  {
    if n == 0 then [] else FacetIndices(n - 1) + [3 * (n - 1), 3 * (n - 1) + 1, 3 * (n - 1) + 2]
  }

  lemma VerticesStep(buf: seq<byte>, f: nat, getFloat32: Word -> real, vertices: seq<real>, vs: seq<real>)
    requires 84 + 50 * f + 48 <= |buf| && RecordsFit(buf, f)
    requires vertices == BinaryVertices(buf, f, getFloat32) && vs == FacetVertexRun(buf, f, 3, getFloat32)
    ensures RecordsFit(buf, f + 1) && vertices + vs == BinaryVertices(buf, f + 1, getFloat32)
  {
  }

  lemma NormalsStep(buf: seq<byte>, f: nat, getFloat32: Word -> real, vertexNormals: seq<real>, nx: real, ny: real, nz: real)
    requires 84 + 50 * f + 48 <= |buf| && RecordsFit(buf, f)
    requires vertexNormals == BinaryNormals(buf, f, getFloat32)
    requires nx == Float32At(buf, 84 + 50 * f, getFloat32)
    requires ny == Float32At(buf, 84 + 50 * f + 8, getFloat32)
    requires nz == Float32At(buf, 84 + 50 * f + 4, getFloat32)
    ensures RecordsFit(buf, f + 1)
    ensures vertexNormals + [nx, ny, nz, nx, ny, nz, nx, ny, nz] == BinaryNormals(buf, f + 1, getFloat32)
  {
  }

  lemma IndicesStep(f: nat, indices: seq<int>, base: int)
    requires indices == FacetIndices(f) && base == 3 * f
    ensures indices + [base, base + 1, base + 2] == FacetIndices(f + 1)
  {
  }

  lemma VertexStep(buf: seq<byte>, f: nat, i: nat, getFloat32: Word -> real, vs: seq<real>, x: real, y: real, z: real)
    requires i < 3 && 84 + 50 * f + 48 <= |buf|
    requires vs == FacetVertexRun(buf, f, i, getFloat32)
    requires x == Float32At(buf, 84 + 50 * f + 12 + 12 * i, getFloat32)
    requires y == Float32At(buf, 84 + 50 * f + 12 + 12 * i + 8, getFloat32)
    requires z == Float32At(buf, 84 + 50 * f + 12 + 12 * i + 4, getFloat32)
    ensures vs + [x, y, z] == FacetVertexRun(buf, f, i + 1, getFloat32)
  {
  }

  /** The inner loop of `loadBinaryStl` over the three vertices of record `f`, cursor at
      the record's byte 12: each vertex is read as x at +0, z at +4 and y at +8. */
  method ReadFacetVertices(buf: seq<byte>, f: nat, getFloat32: Word -> real) returns (vs: seq<real>)
    requires 84 + 50 * f + 48 <= |buf|
    ensures vs == FacetVertexRun(buf, f, 3, getFloat32)
  {
    var byteIndex := 84 + 50 * f + 12;
    vs := [];
    var i := 0;
    while i < 3
      invariant i <= 3 && byteIndex == 84 + 50 * f + 12 + 12 * i
      invariant vs == FacetVertexRun(buf, f, i, getFloat32)
    {
      var x := Float32At(buf, byteIndex, getFloat32);
      var z := Float32At(buf, byteIndex + 4, getFloat32);
      var y := Float32At(buf, byteIndex + 8, getFloat32);
      VertexStep(buf, f, i, getFloat32, vs, x, y, z);
      vs := vs + [x, y, z];
      byteIndex := byteIndex + 12;
      i := i + 1;
    }
  }

  /** The record loop's arrays after the first `f` records. */
  ghost predicate Loaded(buf: seq<byte>, f: nat, getFloat32: Word -> real,
                         vertices: seq<real>, vertexNormals: seq<real>, indices: seq<int>) {
    && RecordsFit(buf, f)
    && vertices == BinaryVertices(buf, f, getFloat32)
    && vertexNormals == BinaryNormals(buf, f, getFloat32)
    && indices == FacetIndices(f)
  }

  /** One pass of the record loop over record `f`, whose 48 read bytes are in the buffer:
      three indices numbered from the current vertex count, the normal three times, then
      the three vertices. */
  method ReadRecord(buf: seq<byte>, f: nat, getFloat32: Word -> real,
                    vertices: seq<real>, vertexNormals: seq<real>, indices: seq<int>)
    returns (vertices': seq<real>, vertexNormals': seq<real>, indices': seq<int>)
    requires 84 + 50 * f + 48 <= |buf|
    requires Loaded(buf, f, getFloat32, vertices, vertexNormals, indices)
    ensures Loaded(buf, f + 1, getFloat32, vertices', vertexNormals', indices')
  {
    var byteIndex := 84 + 50 * f;
    var base := |vertices| / 3;
    IndicesStep(f, indices, base);
    indices' := indices + [base, base + 1, base + 2];
    var nx := Float32At(buf, byteIndex, getFloat32);
    var ny := Float32At(buf, byteIndex + 8, getFloat32);
    var nz := Float32At(buf, byteIndex + 4, getFloat32);
    NormalsStep(buf, f, getFloat32, vertexNormals, nx, ny, nz);
    vertexNormals' := vertexNormals + [nx, ny, nz, nx, ny, nz, nx, ny, nz];
    var vs := ReadFacetVertices(buf, f, getFloat32);
    VerticesStep(buf, f, getFloat32, vertices, vs);
    vertices' := vertices + vs;
  }

  /** The record loop of `loadBinaryStl`, from the cursor at byte 84; each record is 50
      bytes, the last two of which (the attribute bytes) are skipped. `ok` is false when a
      read would pass the end of the buffer. */
  method ReadRecords(buf: seq<byte>, getFloat32: Word -> real)
    returns (ok: bool, vertices: seq<real>, vertexNormals: seq<real>, indices: seq<int>)
    requires |buf| >= 84
    ensures ok <==> RecordsFit(buf, TriangleCount(buf))
    ensures ok ==> Loaded(buf, TriangleCount(buf), getFloat32, vertices, vertexNormals, indices)
  {
    var triangleCount := Uint32LE(buf, 80);
    vertices, vertexNormals, indices := [], [], [];
    var byteIndex := 84;
    var f := 0;
    while f < triangleCount
      invariant f <= triangleCount && byteIndex == 84 + 50 * f
      invariant Loaded(buf, f, getFloat32, vertices, vertexNormals, indices)
    {
      if byteIndex + 48 > |buf| {
        return false, vertices, vertexNormals, indices;
      }
      vertices, vertexNormals, indices := ReadRecord(buf, f, getFloat32, vertices, vertexNormals, indices);
      byteIndex := byteIndex + 50;
      f := f + 1;
    }
    return true, vertices, vertexNormals, indices;
  }
  // ---------------------------------------------------------------------------------
  // Properties of the binary layout
  // ---------------------------------------------------------------------------------

  /** The synthesised index list is 0, 1, ..., 3 n - 1: triangle f uses vertices 3 f,
      3 f + 1 and 3 f + 2. */
  lemma {:induction false} FacetIndicesAt(n: nat, k: nat)
    requires k < 3 * n
    ensures FacetIndices(n)[k] == k
  {
    if k < 3 * (n - 1) {
      FacetIndicesAt(n - 1, k);
    }
  }

  lemma {:induction false} FacetVertexRunAt(buf: seq<byte>, f: nat, i: nat, j: nat, c: nat, getFloat32: Word -> real)
    requires j < i <= 3 && c < 3 && 84 + 50 * f + 48 <= |buf|
    ensures FacetVertexRun(buf, f, i, getFloat32)[3 * j + c] == SwappedVector(buf, 84 + 50 * f + 12 + 12 * j, getFloat32)[c]
  {
    if j < i - 1 {
      FacetVertexRunAt(buf, f, i - 1, j, c, getFloat32);
    }
  }

  /** The vertices of the first m records are a prefix of those of the first n. */
  lemma {:induction false} VerticesPrefix(buf: seq<byte>, n: nat, m: nat, k: nat, getFloat32: Word -> real)
    requires RecordsFit(buf, n) && m <= n && k < 9 * m
    ensures RecordsFit(buf, m)
    ensures BinaryVertices(buf, n, getFloat32)[k] == BinaryVertices(buf, m, getFloat32)[k]
  {
    if m < n {
      VerticesPrefix(buf, n - 1, m, k, getFloat32);
    }
  }

  /** Vertex j of the last of f + 1 triangles is the 12-byte vector at byte
      84 + 50 f + 12 + 12 j, with the file's y and z swapped; with VerticesPrefix this
      places every vertex of every triangle. */
  lemma VerticesLast(buf: seq<byte>, f: nat, j: nat, c: nat, getFloat32: Word -> real)
    requires RecordsFit(buf, f + 1) && j < 3 && c < 3
    ensures 84 + 50 * f + 48 <= |buf|
    ensures BinaryVertices(buf, f + 1, getFloat32)[9 * f + 3 * j + c] == SwappedVector(buf, 84 + 50 * f + 12 + 12 * j, getFloat32)[c]
  {
    FacetVertexRunAt(buf, f, 3, j, c, getFloat32);
  }

  /** Every vertex j of triangle f gets the record's normal, the vector at byte 84 + 50 f,
      read with the same y/z swap. */
  lemma BinaryNormalsAt(buf: seq<byte>, n: nat, getFloat32: Word -> real, f: nat, j: nat, c: nat)
    requires RecordsFit(buf, n) && f < n && j < 3 && c < 3
    ensures 84 + 50 * f + 48 <= |buf|
    ensures BinaryNormals(buf, n, getFloat32)[9 * f + 3 * j + c] == SwappedVector(buf, 84 + 50 * f, getFloat32)[c]
  {
    NormalsPrefix(buf, n, f + 1, 9 * f + 3 * j + c, getFloat32);
    NormalsLast(buf, f, j, c, getFloat32);
  }

  /** The normals of the first m records are a prefix of those of the first n. */
  lemma {:induction false} NormalsPrefix(buf: seq<byte>, n: nat, m: nat, k: nat, getFloat32: Word -> real)
    requires RecordsFit(buf, n) && m <= n && k < 9 * m
    ensures RecordsFit(buf, m)
    ensures BinaryNormals(buf, n, getFloat32)[k] == BinaryNormals(buf, m, getFloat32)[k]
  {
    if m < n {
      NormalsPrefix(buf, n - 1, m, k, getFloat32);
    }
  }

  lemma NormalsLast(buf: seq<byte>, f: nat, j: nat, c: nat, getFloat32: Word -> real)
    requires RecordsFit(buf, f + 1) && j < 3 && c < 3
    ensures 84 + 50 * f + 48 <= |buf|
    ensures BinaryNormals(buf, f + 1, getFloat32)[9 * f + 3 * j + c] == SwappedVector(buf, 84 + 50 * f, getFloat32)[c]
  {
    var v := NormalRun(buf, 84 + 50 * f, getFloat32);
    assert v[3 * j + c] == v[c];
  }

  /** Bytes `lo` up to `hi` are the same in both buffers. */
  predicate SameBytes(a: seq<byte>, b: seq<byte>, lo: nat, hi: nat)
    requires hi <= |a| && hi <= |b|
    decreases hi - lo
  {
    lo >= hi || (a[lo] == b[lo] && SameBytes(a, b, lo + 1, hi))
  }

  lemma {:induction false} SameBytesAt(a: seq<byte>, b: seq<byte>, lo: nat, hi: nat, p: nat)
    requires hi <= |a| && hi <= |b|
    requires SameBytes(a, b, lo, hi) && lo <= p < hi
    ensures a[p] == b[p]
    decreases p - lo
  {
    if lo < p {
      SameBytesAt(a, b, lo + 1, hi, p);
    }
  }

  /** Two buffers whose first `n` records agree on the 48 bytes the reader looks at. */
  predicate SameRecords(a: seq<byte>, b: seq<byte>, n: nat) {
    && RecordsFit(a, n) && RecordsFit(b, n)
    && (n == 0 || (SameRecords(a, b, n - 1) && SameBytes(a, b, 84 + 50 * (n - 1), 84 + 50 * (n - 1) + 48)))
  }

  lemma SameFloat(a: seq<byte>, b: seq<byte>, f: nat, o: nat, getFloat32: Word -> real)
    requires 84 + 50 * f + 48 <= |a| && 84 + 50 * f + 48 <= |b| && o + 4 <= 48
    requires SameBytes(a, b, 84 + 50 * f, 84 + 50 * f + 48)
    ensures Float32At(a, 84 + 50 * f + o, getFloat32) == Float32At(b, 84 + 50 * f + o, getFloat32)
  {
    SameBytesAt(a, b, 84 + 50 * f, 84 + 50 * f + 48, 84 + 50 * f + o);
    SameBytesAt(a, b, 84 + 50 * f, 84 + 50 * f + 48, 84 + 50 * f + o + 1);
    SameBytesAt(a, b, 84 + 50 * f, 84 + 50 * f + 48, 84 + 50 * f + o + 2);
    SameBytesAt(a, b, 84 + 50 * f, 84 + 50 * f + 48, 84 + 50 * f + o + 3);
  }

  lemma SameVector(a: seq<byte>, b: seq<byte>, f: nat, o: nat, getFloat32: Word -> real)
    requires 84 + 50 * f + 48 <= |a| && 84 + 50 * f + 48 <= |b| && o + 12 <= 48
    requires SameBytes(a, b, 84 + 50 * f, 84 + 50 * f + 48)
    ensures SwappedVector(a, 84 + 50 * f + o, getFloat32) == SwappedVector(b, 84 + 50 * f + o, getFloat32)
  {
    SameFloat(a, b, f, o, getFloat32);
    SameFloat(a, b, f, o + 4, getFloat32);
    SameFloat(a, b, f, o + 8, getFloat32);
  }

  /** The vertices the reader takes from record f depend only on its first 48 bytes. */
  lemma SameRecordVertices(a: seq<byte>, b: seq<byte>, f: nat, getFloat32: Word -> real)
    requires 84 + 50 * f + 48 <= |a| && 84 + 50 * f + 48 <= |b|
    requires SameBytes(a, b, 84 + 50 * f, 84 + 50 * f + 48)
    ensures FacetVertexRun(a, f, 3, getFloat32) == FacetVertexRun(b, f, 3, getFloat32)
  {
    SameVector(a, b, f, 12, getFloat32);
    SameVector(a, b, f, 24, getFloat32);
    SameVector(a, b, f, 36, getFloat32);
    assert FacetVertexRun(a, f, 1, getFloat32) == FacetVertexRun(b, f, 1, getFloat32);
    assert FacetVertexRun(a, f, 2, getFloat32) == FacetVertexRun(b, f, 2, getFloat32);
  }

  /** Only the first 48 bytes of each record are read: the header's first 80 bytes, the
      two attribute bytes of each record and anything after the last record never affect
      the vertices. */
  lemma {:induction false} OnlyRecordBytesGiveVertices(a: seq<byte>, b: seq<byte>, n: nat, getFloat32: Word -> real)
    requires SameRecords(a, b, n)
    ensures BinaryVertices(a, n, getFloat32) == BinaryVertices(b, n, getFloat32)
  {
    if n > 0 {
      OnlyRecordBytesGiveVertices(a, b, n - 1, getFloat32);
      SameRecordVertices(a, b, n - 1, getFloat32);
    }
  }

  /** Likewise for the normals: only the first 12 bytes of each record matter. */
  lemma {:induction false} OnlyRecordBytesGiveNormals(a: seq<byte>, b: seq<byte>, n: nat, getFloat32: Word -> real)
    requires SameRecords(a, b, n)
    ensures BinaryNormals(a, n, getFloat32) == BinaryNormals(b, n, getFloat32)
  {
    if n > 0 {
      OnlyRecordBytesGiveNormals(a, b, n - 1, getFloat32);
      SameVector(a, b, n - 1, 0, getFloat32);
    }
  }

  /** Files that agree on the count bytes 80..83 and on the bytes of every record the
      reader looks at give the same result; in particular the 80-byte header is ignored. */
  lemma SameReads(a: seq<byte>, b: seq<byte>, getFloat32: Word -> real)
    requires |a| == |b| >= 84 && a[80..84] == b[80..84]
    requires BinarySized(a) ==> SameRecords(a, b, TriangleCount(a))
    ensures TriangleCount(a) == TriangleCount(b)
    ensures BinarySized(a) <==> BinarySized(b)
    ensures BinarySized(a) ==>
      && BinaryVertices(a, TriangleCount(a), getFloat32) == BinaryVertices(b, TriangleCount(b), getFloat32)
      && BinaryNormals(a, TriangleCount(a), getFloat32) == BinaryNormals(b, TriangleCount(b), getFloat32)
  {
    assert a[80] == a[80..84][0] && a[81] == a[80..84][1] && a[82] == a[80..84][2] && a[83] == a[80..84][3];
    assert b[80] == b[80..84][0] && b[81] == b[80..84][1] && b[82] == b[80..84][2] && b[83] == b[80..84][3];
    if BinarySized(a) {
      OnlyRecordBytesGiveVertices(a, b, TriangleCount(a), getFloat32);
      OnlyRecordBytesGiveNormals(a, b, TriangleCount(a), getFloat32);
    }
  }
}
