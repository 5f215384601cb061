/** The binary STL writer behind the renderer's export: `intToLittleEndianBytes`,
    `meshesToSTLBytes` and the flag reset of `exportAsSTL`. IEEE-754 encoding
    (`floatToLittleEndianBytes`) and gl-matrix's `vec4.transformMat4` are parameters. */
module ExportStl {
  import opened Js

  // ---------------------------------------------------------------------------------
  // intToLittleEndianBytes
  // ---------------------------------------------------------------------------------

  /** ECMAScript ToInt32 on an integer, which `&` and `>>` apply to their left operand:
      the value modulo 2^32, read as a two's-complement 32-bit integer. */
  function ToInt32(n: int): (r: int)
    ensures -0x8000_0000 <= r < 0x8000_0000
    ensures r % 0x1_0000_0000 == n % 0x1_0000_0000
  {
    var m := n % 0x1_0000_0000;
    if m < 0x8000_0000 then m else m - 0x1_0000_0000
  }

  lemma ToInt32OfInt32(n: int)
    requires -0x8000_0000 <= n < 0x8000_0000
    ensures ToInt32(n) == n
  {
  }

  function Pow256(k: nat): (p: nat)
    ensures p >= 1
  {
    if k == 0 then 1 else 256 * Pow256(k - 1)
  }

  /** The number whose little-endian base-256 digits are `s`. */
  function LittleEndianValue(s: seq<byte>): int {
    if s == [] then 0
    else
      var k := |s| - 1;
      LittleEndianValue(s[..k]) + s[k] * Pow256(k)
  }

  /** `(num >> 8 * i) & 0xff` for i = 0..3: the four bytes of `num` modulo 2^32, least
      significant first, each taken off before the next shift by 8. */
  function LittleEndian4(num: int): (b: seq<byte>)
    ensures |b| == 4
  {
    var m := num % 0x1_0000_0000;
    [m % 256, m / 256 % 256, m / 256 / 256 % 256, m / 256 / 256 / 256 % 256]
  }

  /** Decoding the four bytes as the STL reader decodes the triangle count gives `num`
      back, modulo 2^32; in particular every count below 2^32 survives. */
  lemma LittleEndian4RoundTrip(num: int)
    ensures Uint32LE(LittleEndian4(num), 0) == num % 0x1_0000_0000
  {
    var m := num % 0x1_0000_0000;
    var q1 := m / 256;
    var q2 := q1 / 256;
    var q3 := q2 / 256;
    assert m == m % 256 + 256 * q1;
    assert q1 == q1 % 256 + 256 * q2;
    assert q2 == q2 % 256 + 256 * q3;
    assert q3 < 256;
  }

  /** The other way round: four bytes are the encoding of the number they decode to. */
  lemma LittleEndian4OfDecoded(b: seq<byte>)
    requires |b| == 4
    ensures LittleEndian4(Uint32LE(b, 0)) == b
  {
    var b0: int, b1: int, b2: int, b3: int := b[0], b[1], b[2], b[3];
    var m := Uint32LE(b, 0);
    assert m == b0 + 256 * (b1 + 256 * (b2 + 256 * b3));
    assert m % 0x1_0000_0000 == m;
    assert m / 256 == b1 + 256 * (b2 + 256 * b3) && m % 256 == b0;
    assert (m / 256) / 256 == b2 + 256 * b3 && (m / 256) % 256 == b1;
    assert ((m / 256) / 256) / 256 == b3 && ((m / 256) / 256) % 256 == b2;
    assert b3 % 256 == b3;
  }

  lemma DigitStep(t: int, p: int)
    ensures (t % 256) * p + (t / 256) * (256 * p) == t * p
  {
    assert t == 256 * (t / 256) + t % 256;
    calc {
      (t % 256) * p + (t / 256) * (256 * p);
      (t % 256) * p + (256 * (t / 256)) * p;
      (t % 256 + 256 * (t / 256)) * p;
    }
  }

  lemma LittleEndianSnoc(s: seq<byte>, b: byte)
    ensures LittleEndianValue(s + [b]) == LittleEndianValue(s) + b * Pow256(|s|)
  {
    assert (s + [b])[..|s|] == s;
  }

  lemma DecodedValue(b: seq<byte>)
    requires |b| == 4
    ensures Uint32LE(b, 0) == LittleEndianValue(b)
  {
    var b0: int, b1: int, b2: int := b[0], b[1], b[2];
    assert b[..1][..0] == [];
    assert LittleEndianValue(b[..1]) == b0;
    assert b[..2][..1] == b[..1];
    assert LittleEndianValue(b[..2]) == b0 + 256 * b1;
    assert b[..3][..2] == b[..2];
    assert LittleEndianValue(b[..3]) == b0 + 256 * b1 + 0x1_0000 * b2;
    assert b[..4] == b;
  }

  /** `intToLittleEndianBytes`: a zero-filled `Uint8Array(4)` receives `num & 0xff` while
      `num` is shifted right by 8 four times. */
  method IntToLittleEndianBytes(num: int) returns (bytes: seq<byte>)
    ensures |bytes| == 4 && Uint32LE(bytes, 0) == num % 0x1_0000_0000
    ensures bytes == LittleEndian4(num)
  {
    var a := new byte[4](_ => 0);
    var n := num;
    var i := 0;
    while i < 4
      invariant i <= 4
      invariant i > 0 ==> -0x8000_0000 <= n < 0x8000_0000
      invariant LittleEndianValue(a[..i]) + ToInt32(n) * Pow256(i) == ToInt32(num)
    {
      var t := ToInt32(n);
      ghost var low := a[..i];
      a[i] := t % 256;
      assert a[..i + 1] == low + [t % 256];
      LittleEndianSnoc(low, t % 256);
      DigitStep(t, Pow256(i));
      n := t / 256;
      ToInt32OfInt32(n);
      i := i + 1;
    }
    bytes := a[..];
    assert bytes == a[..4];
    ShiftedOut(bytes, num, ToInt32(n));
  }

  /** Once the four bytes hold the low digits of ToInt32(num) and `rest` is what is left
      after the shifts, they decode to `num` modulo 2^32 and are its encoding. */
  lemma ShiftedOut(bytes: seq<byte>, num: int, rest: int)
    requires |bytes| == 4 && LittleEndianValue(bytes) + rest * Pow256(4) == ToInt32(num)
    ensures Uint32LE(bytes, 0) == num % 0x1_0000_0000 && bytes == LittleEndian4(num)
  {
    assert Pow256(4) == 0x1_0000_0000;
    DecodedValue(bytes);
    assert LittleEndianValue(bytes) == ToInt32(num) % 0x1_0000_0000;
    LittleEndian4OfDecoded(bytes);
    LittleEndian4Mod(num);
  }

  lemma LittleEndian4Mod(num: int)
    ensures LittleEndian4(num % 0x1_0000_0000) == LittleEndian4(num)
  {
    var m := num % 0x1_0000_0000;
    assert m % 0x1_0000_0000 == m;
  }


  // ---------------------------------------------------------------------------------
  // Numbers the writer reads
  // ---------------------------------------------------------------------------------

  /** A JavaScript number as the writer meets it: a real, or NaN, which is what a read
      past the end of an array (`undefined`) becomes under `*` and `/`. */
  datatype Num = Real(value: real) | NaN

  /** `a + b`, NaN as soon as either side is. */
  function Add(a: Num, b: Num): Num {
    if a.Real? && b.Real? then Real(a.value + b.value) else NaN
  }

  /** `a / 3`. */
  function Third(a: Num): Num {
    if a.Real? then Real(a.value / 3.0) else NaN
  }

  /** A gl-matrix `vec4`. The matrices `modelMat` and `normalMat` enter as the maps
      `v => vec4.transformMat4(v, v, mat)`. */
  datatype Vec4 = Vec4(x: Num, y: Num, z: Num, w: Num)

  /** `v[j]` for j = 0, 1, 2. */
  function Component(v: Vec4, j: nat): Num
    requires j < 3
  {
    if j == 0 then v.x else if j == 1 then v.y else v.z
  }

  /** The fields of a `MeshWithBuffers` the writer reads. */
  datatype ExportMesh = ExportMesh(vertices: seq<real>, vertexNormals: seq<real>, indices: seq<int>,
                                   indicesPerMaterial: seq<seq<int>>)

  /** `mesh.indices[i] * 3`, None standing for the NaN of a read past the end. */
  function Base(indices: seq<int>, i: int): Option<int> {
    match At(indices, i)
    case None => None
    case Some(x) => Some(3 * x)
  }

  /** `a[base + j]`: NaN when `base` is NaN or the read misses the array. */
  function Read(a: seq<real>, base: Option<int>, j: int): Num {
    if base.None? then NaN
    else match At(a, base.value + j)
      case None => NaN
      case Some(v) => Real(v)
  }

  /** Component j of the averaged normal, summed in the order of the `+=` statements. */
  function NormalComponent(normals: seq<real>, i1: Option<int>, i2: Option<int>, i3: Option<int>, j: nat): Num {
    Add(Add(Add(Real(0.0), Third(Read(normals, i1, j))), Third(Read(normals, i2, j))), Third(Read(normals, i3, j)))
  }

  /** `vec4.fromValues(normal[0], normal[1], normal[2], 1)`. */
  function AverageNormal(normals: seq<real>, i1: Option<int>, i2: Option<int>, i3: Option<int>): Vec4 {
    Vec4(NormalComponent(normals, i1, i2, i3, 0), NormalComponent(normals, i1, i2, i3, 1),
         NormalComponent(normals, i1, i2, i3, 2), Real(1.0))
  }

  /** `vec4.fromValues(vertices[index], vertices[index + 1], vertices[index + 2], 1)`. */
  function Position(vertices: seq<real>, index: Option<int>): Vec4 {
    Vec4(Read(vertices, index, 0), Read(vertices, index, 1), Read(vertices, index, 2), Real(1.0))
  }

  // ---------------------------------------------------------------------------------
  // Records
  // ---------------------------------------------------------------------------------

  /** One triangle as written: its transformed normal and three transformed corners. */
  datatype Facet = Facet(normal: Vec4, a: Vec4, b: Vec4, c: Vec4)

  function Corner(f: Facet, j: nat): Vec4
    requires j < 3
  {
    if j == 0 then f.a else if j == 1 then f.b else f.c
  }

  /** The triangle the loop visits at index position `i`. */
  function FacetAt(mesh: ExportMesh, i: int, modelMat: Vec4 -> Vec4, normalMat: Vec4 -> Vec4): Facet {
    var i1, i2, i3 := Base(mesh.indices, i), Base(mesh.indices, i + 1), Base(mesh.indices, i + 2);
    Facet(normalMat(AverageNormal(mesh.vertexNormals, i1, i2, i3)),
          modelMat(Position(mesh.vertices, i1)), modelMat(Position(mesh.vertices, i2)),
          modelMat(Position(mesh.vertices, i3)))
  }

  /** The components of `v` in the order `[0, 2, 1]`. */
  function Swizzle(v: Vec4): (r: seq<Num>)
    ensures |r| == 3
  {
    [Component(v, 0), Component(v, 2), Component(v, 1)]
  }

  /** The swizzled components of several vectors, one after the other. */
  function VecsNums(vs: seq<Vec4>): (r: seq<Num>)
    ensures |r| == 3 * |vs|
  {
    if vs == [] then [] else VecsNums(vs[..|vs| - 1]) + Swizzle(vs[|vs| - 1])
  }

  /** The twelve numbers of a record: normal, then the three corners. */
  function FacetNums(f: Facet): (r: seq<Num>)
    ensures |r| == 12
  {
    VecsNums([f.normal, f.a, f.b, f.c])
  }

  /** `floatToLittleEndianBytes` applied to each number, concatenated. */
  function EncodeNums(ns: seq<Num>, setFloat32: Num -> Word): (r: seq<byte>)
    ensures |r| == 4 * |ns|
  {
    if ns == [] then [] else EncodeNums(ns[..|ns| - 1], setFloat32) + WordBytes(setFloat32(ns[|ns| - 1]))
  }

  /** A 50-byte record: twelve floats and a zero attribute count. */
  function FacetBytes(f: Facet, setFloat32: Num -> Word): (r: seq<byte>)
    ensures |r| == 50
  {
    EncodeNums(FacetNums(f), setFloat32) + [0, 0]
  }

  function FacetsBytes(fs: seq<Facet>, setFloat32: Num -> Word): (r: seq<byte>)
    ensures |r| == 50 * |fs|
  {
    if fs == [] then [] else FacetsBytes(fs[..|fs| - 1], setFloat32) + FacetBytes(fs[|fs| - 1], setFloat32)
  }

  /** How often `for (i = 0; i < len; i += 3)` runs: ceil(len / 3). */
  function Slots(len: nat): nat {
    (len + 2) / 3
  }

  /** The triangles of one mesh, one per visited index position 0, 3, 6, ... */
  function MeshFacets(mesh: ExportMesh, modelMat: Vec4 -> Vec4, normalMat: Vec4 -> Vec4): (fs: seq<Facet>)
    ensures |fs| == Slots(|mesh.indices|)
  {
    seq(Slots(|mesh.indices|), t => FacetAt(mesh, 3 * t, modelMat, normalMat))
  }

  /** The triangles of all meshes, in mesh order. */
  function AllFacets(meshes: seq<ExportMesh>, modelMat: Vec4 -> Vec4, normalMat: Vec4 -> Vec4): seq<Facet> {
    if meshes == [] then []
    else AllFacets(meshes[..|meshes| - 1], modelMat, normalMat) + MeshFacets(meshes[|meshes| - 1], modelMat, normalMat)
  }

  // ---------------------------------------------------------------------------------
  // meshesToSTLBytes
  // ---------------------------------------------------------------------------------

  /** `meshes.map(mesh => mesh.indicesPerMaterial[0].length).reduce((a, b) => a + b)`,
      without the empty-list case; None when some mesh has no first material group, where
      reading `.length` of `undefined` throws. */
  function FirstGroupTotal(meshes: seq<ExportMesh>): Option<nat> {
    if meshes == [] then Some(0)
    else match FirstGroupTotal(meshes[..|meshes| - 1])
      case None => None
      case Some(t) =>
        var groups := meshes[|meshes| - 1].indicesPerMaterial;
        if groups == [] then None else Some(t + |groups[0]|)
  }

  /** `numOfTriangles`, which `intToLittleEndianBytes` truncates to an integer: the sum
      divided by 3, rounded down. An empty list makes `reduce` without an initial value throw. */
  function TriangleTotal(meshes: seq<ExportMesh>): Result<int> {
    match FirstGroupTotal(meshes)
    case None => Failure("TypeError: Cannot read properties of undefined (reading 'length')")
    case Some(t) => if meshes == [] then Failure("TypeError: Reduce of empty array with no initial value") else Success(t / 3)
  }

  /** The 80 zero bytes of the header, then the count. */
  function StlHead(n: int): (h: seq<byte>)
    ensures |h| == 84 && (forall k :: 0 <= k < 80 ==> h[k] == 0) && Uint32LE(h, 80) == n % 0x1_0000_0000
  {
    var b := LittleEndian4(n);
    LittleEndian4RoundTrip(n);
    var h := seq(80, _ => 0) + b;
    assert h[80] == b[0] && h[81] == b[1] && h[82] == b[2] && h[83] == b[3];
    h
  }

  /** The file `meshesToSTLBytes` builds, or the exception it throws. */
  function StlBytes(meshes: seq<ExportMesh>, modelMat: Vec4 -> Vec4, normalMat: Vec4 -> Vec4,
                    setFloat32: Num -> Word): Result<seq<byte>> {
    match TriangleTotal(meshes)
    case Failure(e) => Failure(e)
    case Success(n) =>
      Success(StlHead(n) + FacetsBytes(AllFacets(meshes, modelMat, normalMat), setFloat32))
  }

  lemma EncodeNumsSnoc(ns: seq<Num>, x: Num, setFloat32: Num -> Word)
    ensures EncodeNums(ns + [x], setFloat32) == EncodeNums(ns, setFloat32) + WordBytes(setFloat32(x))
  {
    assert (ns + [x])[..|ns|] == ns;
  }

  lemma {:induction false} EncodeNumsAppend(a: seq<Num>, b: seq<Num>, setFloat32: Num -> Word)
    ensures EncodeNums(a + b, setFloat32) == EncodeNums(a, setFloat32) + EncodeNums(b, setFloat32)
    decreases |b|
  {
    if b == [] {
      assert a + b == a;
    } else {
      var b', x := b[..|b| - 1], b[|b| - 1];
      assert a + b == (a + b') + [x];
      EncodeNumsAppend(a, b', setFloat32);
      EncodeNumsSnoc(a + b', x, setFloat32);
      EncodeNumsSnoc(b', x, setFloat32);
      assert b' + [x] == b;
      Assoc(EncodeNums(a, setFloat32), EncodeNums(b', setFloat32), WordBytes(setFloat32(x)));
    }
  }

  lemma Assoc(a: seq<byte>, b: seq<byte>, c: seq<byte>)
    ensures a + b + c == a + (b + c)
  {
  }

  lemma VecsNumsSnoc(vs: seq<Vec4>, v: Vec4)
    ensures VecsNums(vs + [v]) == VecsNums(vs) + Swizzle(v)
  {
    assert (vs + [v])[..|vs|] == vs;
  }

  lemma FacetsBytesSnoc(fs: seq<Facet>, f: Facet, setFloat32: Num -> Word)
    ensures FacetsBytes(fs + [f], setFloat32) == FacetsBytes(fs, setFloat32) + FacetBytes(f, setFloat32)
  {
    assert (fs + [f])[..|fs|] == fs;
  }

  lemma FacetsBytesPrefix(fs: seq<Facet>, t: nat, setFloat32: Num -> Word)
    requires t < |fs|
    ensures FacetsBytes(fs[..t + 1], setFloat32) == FacetsBytes(fs[..t], setFloat32) + FacetBytes(fs[t], setFloat32)
  {
    assert fs[..t + 1][..t] == fs[..t];
  }

  lemma {:induction false} FacetsBytesAppend(a: seq<Facet>, b: seq<Facet>, setFloat32: Num -> Word)
    ensures FacetsBytes(a + b, setFloat32) == FacetsBytes(a, setFloat32) + FacetsBytes(b, setFloat32)
    decreases |b|
  {
    if b == [] {
      assert a + b == a;
    } else {
      var b', f := b[..|b| - 1], b[|b| - 1];
      assert a + b == (a + b') + [f];
      FacetsBytesAppend(a, b', setFloat32);
      FacetsBytesSnoc(a + b', f, setFloat32);
      FacetsBytesSnoc(b', f, setFloat32);
      assert b' + [f] == b;
      Assoc(FacetsBytes(a, setFloat32), FacetsBytes(b', setFloat32), FacetBytes(f, setFloat32));
    }
  }

  lemma AllFacetsPrefix(meshes: seq<ExportMesh>, k: nat, modelMat: Vec4 -> Vec4, normalMat: Vec4 -> Vec4)
    requires k < |meshes|
    ensures AllFacets(meshes[..k + 1], modelMat, normalMat)
         == AllFacets(meshes[..k], modelMat, normalMat) + MeshFacets(meshes[k], modelMat, normalMat)
  {
    assert meshes[..k + 1][..k] == meshes[..k];
  }

  // ---------------------------------------------------------------------------------
  // The writer, statement by statement
  // ---------------------------------------------------------------------------------

  /** `for (const j of [0, 2, 1]) bytes.push(...floatToLittleEndianBytes(v[j]))`. */
  method WriteSwizzled(bytes: seq<byte>, v: Vec4, setFloat32: Num -> Word) returns (out: seq<byte>)
    ensures out == bytes + EncodeNums(Swizzle(v), setFloat32)
  {
    var order := [0, 2, 1];
    out := bytes;
    for k := 0 to 3
      invariant out == bytes + EncodeNums(Swizzle(v)[..k], setFloat32)
    {
      assert Swizzle(v)[..k + 1] == Swizzle(v)[..k] + [Component(v, order[k])];
      EncodeNumsSnoc(Swizzle(v)[..k], Component(v, order[k]), setFloat32);
      Assoc(bytes, EncodeNums(Swizzle(v)[..k], setFloat32), WordBytes(setFloat32(Component(v, order[k]))));
      out := out + WordBytes(setFloat32(Component(v, order[k])));
    }
    assert Swizzle(v)[..3] == Swizzle(v);
  }

  /** The `normal` array after the averaging loop: each component receives a third of the
      three vertex normals' component, in three `+=` steps. */
  method AverageNormalOf(normals: seq<real>, i1: Option<int>, i2: Option<int>, i3: Option<int>)
    returns (normal: seq<Num>)
    ensures |normal| == 3 && forall j :: 0 <= j < 3 ==> normal[j] == NormalComponent(normals, i1, i2, i3, j)
  {
    normal := [Real(0.0), Real(0.0), Real(0.0)];
    for j := 0 to 3
      invariant |normal| == 3
      invariant forall k :: 0 <= k < j ==> normal[k] == NormalComponent(normals, i1, i2, i3, k)
      invariant forall k :: j <= k < 3 ==> normal[k] == Real(0.0)
    {
      normal := normal[j := Add(normal[j], Third(Read(normals, i1, j)))];
      normal := normal[j := Add(normal[j], Third(Read(normals, i2, j)))];
      normal := normal[j := Add(normal[j], Third(Read(normals, i3, j)))];
    }
  }

  /** The body of the triangle loop at index position `i`: the transformed normal, the
      three transformed corners, then the two zero attribute bytes. */
  method WriteFacet(bytes: seq<byte>, mesh: ExportMesh, i: int, modelMat: Vec4 -> Vec4, normalMat: Vec4 -> Vec4,
                    setFloat32: Num -> Word) returns (out: seq<byte>)
    ensures out == bytes + FacetBytes(FacetAt(mesh, i, modelMat, normalMat), setFloat32)
  {
    var i1 := Base(mesh.indices, i);
    var i2 := Base(mesh.indices, i + 1);
    var i3 := Base(mesh.indices, i + 2);
    var normal := AverageNormalOf(mesh.vertexNormals, i1, i2, i3);
    var newNormal := normalMat(Vec4(normal[0], normal[1], normal[2], Real(1.0)));
    out := WriteSwizzled(bytes, newNormal, setFloat32);
    var corners := [i1, i2, i3];
    ghost var written := [newNormal];
    assert VecsNums(written) == Swizzle(newNormal) by {
      assert written[..0] == [];
    }
    for k := 0 to 3
      invariant |written| == k + 1 && written[0] == newNormal
      invariant forall t :: 1 <= t <= k ==> written[t] == modelMat(Position(mesh.vertices, corners[t - 1]))
      invariant out == bytes + EncodeNums(VecsNums(written), setFloat32)
    {
      var newVertex := modelMat(Position(mesh.vertices, corners[k]));
      out := WriteSwizzled(out, newVertex, setFloat32);
      VecsNumsSnoc(written, newVertex);
      EncodeNumsAppend(VecsNums(written), Swizzle(newVertex), setFloat32);
      Assoc(bytes, EncodeNums(VecsNums(written), setFloat32), EncodeNums(Swizzle(newVertex), setFloat32));
      written := written + [newVertex];
    }
    ghost var f := FacetAt(mesh, i, modelMat, normalMat);
    assert written == [f.normal, f.a, f.b, f.c];
    Assoc(bytes, EncodeNums(FacetNums(f), setFloat32), [0, 0]);
    out := out + [0, 0];
  }

  /** `for (let i = 0; i < mesh.indices.length; i += 3)`: one record per visited position. */
  method WriteMesh(bytes: seq<byte>, mesh: ExportMesh, modelMat: Vec4 -> Vec4, normalMat: Vec4 -> Vec4,
                   setFloat32: Num -> Word) returns (out: seq<byte>)
    ensures out == bytes + FacetsBytes(MeshFacets(mesh, modelMat, normalMat), setFloat32)
  {
    ghost var fs := MeshFacets(mesh, modelMat, normalMat);
    out := bytes;
    var i := 0;
    ghost var t := 0;
    while i < |mesh.indices|
      invariant i == 3 * t && t <= |fs|
      invariant i < |mesh.indices| ==> t < |fs|
      invariant out == bytes + FacetsBytes(fs[..t], setFloat32)
    {
      FacetsBytesPrefix(fs, t, setFloat32);
      Assoc(bytes, FacetsBytes(fs[..t], setFloat32), FacetBytes(fs[t], setFloat32));
      out := WriteFacet(out, mesh, i, modelMat, normalMat, setFloat32);
      i, t := i + 3, t + 1;
    }
    assert fs[..t] == fs;
  }

  /** `for (const mesh of meshes)`: the records of every mesh in turn. */
  method WriteMeshes(bytes: seq<byte>, meshes: seq<ExportMesh>, modelMat: Vec4 -> Vec4, normalMat: Vec4 -> Vec4,
                     setFloat32: Num -> Word) returns (out: seq<byte>)
    ensures out == bytes + FacetsBytes(AllFacets(meshes, modelMat, normalMat), setFloat32)
  {
    out := bytes;
    for k := 0 to |meshes|
      invariant out == bytes + FacetsBytes(AllFacets(meshes[..k], modelMat, normalMat), setFloat32)
    {
      AllFacetsPrefix(meshes, k, modelMat, normalMat);
      FacetsBytesAppend(AllFacets(meshes[..k], modelMat, normalMat), MeshFacets(meshes[k], modelMat, normalMat), setFloat32);
      Assoc(bytes, FacetsBytes(AllFacets(meshes[..k], modelMat, normalMat), setFloat32),
            FacetsBytes(MeshFacets(meshes[k], modelMat, normalMat), setFloat32));
      out := WriteMesh(out, meshes[k], modelMat, normalMat, setFloat32);
    }
    assert meshes[..|meshes|] == meshes;
  }

  /** `meshesToSTLBytes`: header, count, then the records. */
  method MeshesToStlBytes(meshes: seq<ExportMesh>, modelMat: Vec4 -> Vec4, normalMat: Vec4 -> Vec4,
                          setFloat32: Num -> Word) returns (r: Result<seq<byte>>)
    ensures r == StlBytes(meshes, modelMat, normalMat, setFloat32)
  {
    var bytes: seq<byte> := seq(80, _ => 0);
    var total := TriangleTotal(meshes);
    if total.Failure? {
      return Failure(total.error);
    }
    var count := IntToLittleEndianBytes(total.value);
    bytes := bytes + count;
    assert bytes == StlHead(total.value);
    bytes := WriteMeshes(bytes, meshes, modelMat, normalMat, setFloat32);
    r := Success(bytes);
  }

  /** The `exportSTL` ref of the renderer: set to request an export. */
  class ExportFlag {
    var current: bool
  }

  /** `exportAsSTL`: the request flag is cleared first, even when building the file then
      throws; the file is what `meshesToSTLBytes` returns (the download is not modelled). */
  method ExportAsStl(meshes: seq<ExportMesh>, modelMat: Vec4 -> Vec4, normalMat: Vec4 -> Vec4,
                     setFloat32: Num -> Word, exportStl: ExportFlag) returns (r: Result<seq<byte>>)
    modifies exportStl
    ensures !exportStl.current && r == StlBytes(meshes, modelMat, normalMat, setFloat32)
  {
    exportStl.current := false;
    r := MeshesToStlBytes(meshes, modelMat, normalMat, setFloat32);
  }

  // ---------------------------------------------------------------------------------
  // Properties of the file
  // ---------------------------------------------------------------------------------

  /** `meshesToSTLBytes` throws exactly when the list is empty or some mesh has no first
      material group. */
  lemma StlFails(meshes: seq<ExportMesh>, modelMat: Vec4 -> Vec4, normalMat: Vec4 -> Vec4, setFloat32: Num -> Word)
    ensures StlBytes(meshes, modelMat, normalMat, setFloat32).Failure?
        <==> meshes == [] || exists k :: 0 <= k < |meshes| && meshes[k].indicesPerMaterial == []
  {
    MissingGroup(meshes);
  }

  lemma {:induction false} MissingGroup(meshes: seq<ExportMesh>)
    ensures FirstGroupTotal(meshes).None? <==> exists k :: 0 <= k < |meshes| && meshes[k].indicesPerMaterial == []
  {
    if meshes != [] {
      var p := meshes[..|meshes| - 1];
      MissingGroup(p);
      if exists k :: 0 <= k < |p| && p[k].indicesPerMaterial == [] {
        var k :| 0 <= k < |p| && p[k].indicesPerMaterial == [];
        assert meshes[k] == p[k];
      }
      if exists k :: 0 <= k < |meshes| && meshes[k].indicesPerMaterial == [] {
        var k :| 0 <= k < |meshes| && meshes[k].indicesPerMaterial == [];
        if k < |p| {
          assert p[k] == meshes[k];
        }
      }
    }
  }

  /** The file starts with the 80 zero bytes of the header, then the count modulo 2^32. */
  lemma StlHeader(meshes: seq<ExportMesh>, modelMat: Vec4 -> Vec4, normalMat: Vec4 -> Vec4, setFloat32: Num -> Word)
    requires StlBytes(meshes, modelMat, normalMat, setFloat32).Success?
    ensures var out := StlBytes(meshes, modelMat, normalMat, setFloat32).value;
      && |out| >= 84
      && (forall k :: 0 <= k < 80 ==> out[k] == 0)
      && Uint32LE(out, 80) == TriangleTotal(meshes).value % 0x1_0000_0000
  {
    var h := StlHead(TriangleTotal(meshes).value);
    HeadThenRecords(h, FacetsBytes(AllFacets(meshes, modelMat, normalMat), setFloat32));
  }

  lemma HeadThenRecords(h: seq<byte>, records: seq<byte>)
    requires |h| == 84
    ensures Uint32LE(h + records, 80) == Uint32LE(h, 80)
    ensures forall k :: 0 <= k < 84 ==> (h + records)[k] == h[k]
    ensures (h + records)[84..] == records
  {
  }

  /** After the 84 bytes of header and count come the records, 50 bytes each. */
  lemma StlRecords(meshes: seq<ExportMesh>, modelMat: Vec4 -> Vec4, normalMat: Vec4 -> Vec4, setFloat32: Num -> Word)
    requires StlBytes(meshes, modelMat, normalMat, setFloat32).Success?
    ensures var out := StlBytes(meshes, modelMat, normalMat, setFloat32).value;
      var fs := AllFacets(meshes, modelMat, normalMat);
      |out| == 84 + 50 * |fs| && out[84..] == FacetsBytes(fs, setFloat32)
  {
  }

  /** When the count agrees with the records and is below 2^32, the file is the 84-byte
      head with that count, then the records. */
  lemma StlFile(meshes: seq<ExportMesh>, modelMat: Vec4 -> Vec4, normalMat: Vec4 -> Vec4, setFloat32: Num -> Word)
    requires StlBytes(meshes, modelMat, normalMat, setFloat32).Success?
    requires TriangleTotal(meshes).value == |AllFacets(meshes, modelMat, normalMat)| < 0x1_0000_0000
    ensures var out := StlBytes(meshes, modelMat, normalMat, setFloat32).value;
      var fs := AllFacets(meshes, modelMat, normalMat);
      |out| == 84 + 50 * |fs| && Uint32LE(out, 80) == |fs| && out[84..] == FacetsBytes(fs, setFloat32)
  {
    var fs := AllFacets(meshes, modelMat, normalMat);
    var records := FacetsBytes(fs, setFloat32);
    assert StlBytes(meshes, modelMat, normalMat, setFloat32).value == StlHead(|fs|) + records;
    HeadWithCount(StlBytes(meshes, modelMat, normalMat, setFloat32).value, |fs|, records);
  }

  lemma HeadWithCount(out: seq<byte>, n: nat, records: seq<byte>)
    requires n < 0x1_0000_0000 && out == StlHead(n) + records
    ensures |out| == 84 + |records| && Uint32LE(out, 80) == n && out[84..] == records
  {
    assert n % 0x1_0000_0000 == n;
    HeadThenRecords(StlHead(n), records);
  }

  /** Σ `indices.length`. */
  function IndexTotal(meshes: seq<ExportMesh>): nat {
    if meshes == [] then 0 else IndexTotal(meshes[..|meshes| - 1]) + |meshes[|meshes| - 1].indices|
  }

  /** When every index list holds whole triangles, there is one record per triangle:
      the file is 84 + 50 Σ(indices.length / 3) bytes long. */
  lemma {:induction false} WholeTriangles(meshes: seq<ExportMesh>, modelMat: Vec4 -> Vec4, normalMat: Vec4 -> Vec4)
    requires forall k :: 0 <= k < |meshes| ==> |meshes[k].indices| % 3 == 0
    ensures 3 * |AllFacets(meshes, modelMat, normalMat)| == IndexTotal(meshes)
  {
    if meshes != [] {
      var p := meshes[..|meshes| - 1];
      assert forall k :: 0 <= k < |p| ==> p[k] == meshes[k];
      WholeTriangles(p, modelMat, normalMat);
      assert 3 * Slots(|meshes[|meshes| - 1].indices|) == |meshes[|meshes| - 1].indices|;
    }
  }

  /** The count and the records come from different fields. They agree when every mesh's
      first material group is as long as its index list and holds whole triangles. */
  lemma {:induction false} CountMatchesRecords(meshes: seq<ExportMesh>, modelMat: Vec4 -> Vec4, normalMat: Vec4 -> Vec4)
    requires meshes != []
    requires forall k :: 0 <= k < |meshes| ==>
      meshes[k].indicesPerMaterial != [] && |meshes[k].indicesPerMaterial[0]| == |meshes[k].indices|
    requires forall k :: 0 <= k < |meshes| ==> |meshes[k].indices| % 3 == 0
    ensures TriangleTotal(meshes) == Success(|AllFacets(meshes, modelMat, normalMat)|)
  {
    FirstGroupsAreIndices(meshes);
    WholeTriangles(meshes, modelMat, normalMat);
    var a := |AllFacets(meshes, modelMat, normalMat)|;
    assert TriangleTotal(meshes) == Success(IndexTotal(meshes) / 3);
    assert (3 * a) / 3 == a;
  }

  lemma {:induction false} FirstGroupsAreIndices(meshes: seq<ExportMesh>)
    requires forall k :: 0 <= k < |meshes| ==>
      meshes[k].indicesPerMaterial != [] && |meshes[k].indicesPerMaterial[0]| == |meshes[k].indices|
    ensures FirstGroupTotal(meshes) == Some(IndexTotal(meshes))
  {
    if meshes != [] {
      var p := meshes[..|meshes| - 1];
      assert forall k :: 0 <= k < |p| ==> p[k] == meshes[k];
      FirstGroupsAreIndices(p);
    }
  }

  /** The record normal is the average of the three vertex normals when all nine reads
      hit, and NaN in that component as soon as one of them misses. */
  lemma NormalIsAverage(normals: seq<real>, i1: Option<int>, i2: Option<int>, i3: Option<int>, j: nat)
    ensures var n1, n2, n3 := Read(normals, i1, j), Read(normals, i2, j), Read(normals, i3, j);
      var r := NormalComponent(normals, i1, i2, i3, j);
      && (r.Real? <==> n1.Real? && n2.Real? && n3.Real?)
      && (r.Real? ==> r.value == (n1.value + n2.value + n3.value) / 3.0)
  {
  }

  /** Byte p of record f. */
  lemma {:induction false} FacetsBytesAt(fs: seq<Facet>, setFloat32: Num -> Word, f: nat, p: nat)
    requires f < |fs| && p < 50
    ensures FacetsBytes(fs, setFloat32)[50 * f + p] == FacetBytes(fs[f], setFloat32)[p]
  {
    var k := |fs| - 1;
    if f < k {
      FacetsBytesAt(fs[..k], setFloat32, f, p);
    }
  }

  /** Byte r of the encoding of number q. */
  lemma {:induction false} EncodeNumsAt(ns: seq<Num>, setFloat32: Num -> Word, q: nat, r: nat)
    requires q < |ns| && r < 4
    ensures EncodeNums(ns, setFloat32)[4 * q + r] == WordBytes(setFloat32(ns[q]))[r]
  {
    var k := |ns| - 1;
    if q < k {
      EncodeNumsAt(ns[..k], setFloat32, q, r);
    }
  }

  /** The word at byte 4 q of record f is the encoding of the record's number q. */
  lemma RecordWord(out: seq<byte>, fs: seq<Facet>, setFloat32: Num -> Word, f: nat, q: nat)
    requires |out| == 84 + 50 * |fs| && out[84..] == FacetsBytes(fs, setFloat32)
    requires f < |fs| && q < 12
    ensures WordAt(out, 84 + 50 * f + 4 * q) == setFloat32(FacetNums(fs[f])[q])
  {
    RecordByte(out, fs, setFloat32, f, q, 0);
    RecordByte(out, fs, setFloat32, f, q, 1);
    RecordByte(out, fs, setFloat32, f, q, 2);
    RecordByte(out, fs, setFloat32, f, q, 3);
  }

  lemma RecordByte(out: seq<byte>, fs: seq<Facet>, setFloat32: Num -> Word, f: nat, q: nat, r: nat)
    requires |out| == 84 + 50 * |fs| && out[84..] == FacetsBytes(fs, setFloat32)
    requires f < |fs| && q < 12 && r < 4
    ensures out[84 + 50 * f + 4 * q + r] == WordBytes(setFloat32(FacetNums(fs[f])[q]))[r]
  {
    FacetsBytesAt(fs, setFloat32, f, 4 * q + r);
    EncodeNumsAt(FacetNums(fs[f]), setFloat32, q, r);
    assert out[84 + 50 * f + 4 * q + r] == out[84..][50 * f + 4 * q + r];
  }

  /** Number 3 p + s of a record is swizzled component s of its normal (p = 0) or of its
      corner p - 1. */
  lemma FacetNumsParts(f: Facet)
    ensures FacetNums(f) == Swizzle(f.normal) + Swizzle(f.a) + Swizzle(f.b) + Swizzle(f.c)
  {
    var vs := [f.normal, f.a, f.b, f.c];
    assert [f.normal][..0] == [];
    assert VecsNums([f.normal]) == Swizzle(f.normal);
    assert [f.normal, f.a][..1] == [f.normal];
    assert VecsNums([f.normal, f.a]) == Swizzle(f.normal) + Swizzle(f.a);
    assert [f.normal, f.a, f.b][..2] == [f.normal, f.a];
    assert VecsNums([f.normal, f.a, f.b]) == Swizzle(f.normal) + Swizzle(f.a) + Swizzle(f.b);
    assert vs[..3] == [f.normal, f.a, f.b];
  }

  /** Where component c sits in a swizzled triple: the order `[0, 2, 1]` is its own inverse. */
  function SwizzleSlot(c: nat): (s: nat)
    requires c < 3
    ensures s < 3
  {
    if c == 0 then 0 else if c == 1 then 2 else 1
  }

  lemma SwizzleSlotInverse(v: Vec4, c: nat)
    requires c < 3
    ensures Swizzle(v)[SwizzleSlot(c)] == Component(v, c)
  {
  }

  /** Component c of corner j is number 3 + 3 j + SwizzleSlot(c) of the record, and
      component c of the normal is number SwizzleSlot(c). */
  lemma FacetNumsAt(f: Facet, j: nat, c: nat)
    requires j < 3 && c < 3
    ensures FacetNums(f)[3 + 3 * j + SwizzleSlot(c)] == Component(Corner(f, j), c)
    ensures FacetNums(f)[SwizzleSlot(c)] == Component(f.normal, c)
  {
    FacetNumsParts(f);
    SwizzleSlotInverse(Corner(f, j), c);
    SwizzleSlotInverse(f.normal, c);
  }
}
