/** The normal pass of `loadOBJModel`: when the OBJ file supplies no normals, every vertex
    gets the sum of the unit normals of the triangles that use it; then every normal triple
    is scaled to unit length. Coordinates are reals and `Math.sqrt` is a parameter. */
module ObjNormals {
  import Meshes

  datatype Vec3 = Vec3(x: real, y: real, z: real)

  /** Component `j` of a vector (`v[j]` on a gl-matrix `vec3`). */
  function Get(v: Vec3, j: nat): real
    requires j < 3
  {
    if j == 0 then v.x else if j == 1 then v.y else v.z
  }

  /** What is asked of the square root passed in: on non-negative arguments it is the
      non-negative number whose square is the argument (so the root of 0 is 0). */
  ghost predicate IsSqrt(sqrt: real -> real) {
    forall a: real {:trigger sqrt(a)} :: a >= 0.0 ==>
      sqrt(a) >= 0.0 && sqrt(a) * sqrt(a) == a && (a == 0.0 ==> sqrt(a) == 0.0)
  }

  function SquaredLength(v: Vec3): real {
    v.x * v.x + v.y * v.y + v.z * v.z
  }

  /** `getVertex(vertices, i)`: the three numbers from `i` on. */
  function VertexAt(vs: seq<real>, i: nat): Vec3
    requires i + 3 <= |vs|
  {
    Vec3(vs[i], vs[i + 1], vs[i + 2])
  }

  /** `vec3.sub(out, a, b)`. */
  function Sub(a: Vec3, b: Vec3): Vec3 {
    Vec3(a.x - b.x, a.y - b.y, a.z - b.z)
  }

  /** `vec3.cross(out, a, b)`. */
  function Cross(a: Vec3, b: Vec3): Vec3 {
    Vec3(a.y * b.z - a.z * b.y, a.z * b.x - a.x * b.z, a.x * b.y - a.y * b.x)
  }

  function Scale(v: Vec3, s: real): Vec3 {
    Vec3(v.x * s, v.y * s, v.z * s)
  }

  /** `vec3.normalize(out, a)` of gl-matrix: the components are multiplied by
      1 / sqrt(x² + y² + z²) when that sum is positive, and by the sum (zero) otherwise. */
  function Normalize(v: Vec3, sqrt: real -> real): Vec3
    requires IsSqrt(sqrt)
  {
    var len := SquaredLength(v);
    if len > 0.0 then
      SqrtPositive(sqrt, len);
      Scale(v, 1.0 / sqrt(len))
    else Scale(v, len)
  }

  lemma SqrtPositive(sqrt: real -> real, a: real)
    requires IsSqrt(sqrt) && a > 0.0
    ensures sqrt(a) > 0.0 && sqrt(a) * sqrt(a) == a
  {
    var r := sqrt(a);
    assert r >= 0.0 && r * r == a;
  }

  lemma ScaleLength(v: Vec3, s: real)
    ensures SquaredLength(Scale(v, s)) == s * s * SquaredLength(v)
  {
    assert (v.x * s) * (v.x * s) == s * s * (v.x * v.x);
    assert (v.y * s) * (v.y * s) == s * s * (v.y * v.y);
    assert (v.z * s) * (v.z * s) == s * s * (v.z * v.z);
  }

  /** Scaling by 1 / sqrt(x² + y² + z²) gives length 1. */
  lemma UnitScale(v: Vec3, sqrt: real -> real)
    requires IsSqrt(sqrt) && SquaredLength(v) > 0.0
    ensures sqrt(SquaredLength(v)) > 0.0
    ensures SquaredLength(Scale(v, 1.0 / sqrt(SquaredLength(v)))) == 1.0
  {
    var len := SquaredLength(v);
    SqrtPositive(sqrt, len);
    var root := sqrt(len);
    var s := 1.0 / root;
    ScaleLength(v, s);
    assert s * root == 1.0;
    assert s * s * (root * root) == (s * root) * (s * root);
  }

  /** gl-matrix's normalisation gives a unit vector in the same direction, and the zero vector
      for the zero vector (a degenerate triangle). */
  lemma NormalizeIsUnit(v: Vec3, sqrt: real -> real)
    requires IsSqrt(sqrt)
    ensures SquaredLength(v) > 0.0 ==>
      SquaredLength(Normalize(v, sqrt)) == 1.0 && exists s: real :: s > 0.0 && Normalize(v, sqrt) == Scale(v, s)
    ensures SquaredLength(v) == 0.0 ==> Normalize(v, sqrt) == Vec3(0.0, 0.0, 0.0)
  {
    if SquaredLength(v) > 0.0 {
      UnitScale(v, sqrt);
      var s := 1.0 / sqrt(SquaredLength(v));
      assert s > 0.0 && Normalize(v, sqrt) == Scale(v, s);
    }
  }

  /** A triangle: three vertex numbers, as they stand in an index group. */
  datatype Face = Face(a: int, b: int, c: int)

  /** Vertex `k` has a whole position in `vs`. */
  predicate HasVertex(vs: seq<real>, k: int) {
    0 <= k && 3 * k + 3 <= |vs|
  }

  predicate FaceIn(f: Face, vs: seq<real>) {
    HasVertex(vs, f.a) && HasVertex(vs, f.b) && HasVertex(vs, f.c)
  }

  /** The unit normal of a triangle, (v2 - v1) × (v3 - v1) normalised. */
  function FaceNormal(vs: seq<real>, f: Face, sqrt: real -> real): (n: Vec3)
    requires FaceIn(f, vs) && IsSqrt(sqrt)
  {
    var v1, v2, v3 := VertexAt(vs, 3 * f.a), VertexAt(vs, 3 * f.b), VertexAt(vs, 3 * f.c);
    Normalize(Cross(Sub(v2, v1), Sub(v3, v1)), sqrt)
  }

  /** The index groups as the OBJ parser hands them over: whole triangles whose vertex
      numbers name positions of the mesh. */
  predicate Triangulated(groups: seq<seq<int>>, vs: seq<real>) {
    forall g :: 0 <= g < |groups| ==>
      |groups[g]| % 3 == 0 && forall i :: 0 <= i < |groups[g]| ==> HasVertex(vs, groups[g][i])
  }

  /** The triangles of one group, in order: positions 3t, 3t + 1 and 3t + 2. */
  function Triangles(group: seq<int>): (fs: seq<Face>)
    ensures |fs| == |group| / 3
  {
    seq(|group| / 3, t requires 0 <= t < |group| / 3 => Face(group[3 * t], group[3 * t + 1], group[3 * t + 2]))
  }

  /** All triangles, group by group. */
  function Faces(groups: seq<seq<int>>): seq<Face> {
    if groups == [] then [] else Faces(groups[..|groups| - 1]) + Triangles(groups[|groups| - 1])
  }

  predicate FacesIn(fs: seq<Face>, vs: seq<real>) {
    forall i :: 0 <= i < |fs| ==> FaceIn(fs[i], vs)
  }

  /** `m` slots from `idx` on incremented by the components of `v`:
      `vertexNormals[idx + j] += norm[j]` for j < m. */
  function AddSlots(ns: seq<real>, idx: nat, v: Vec3, m: nat): (r: seq<real>)
    requires m <= 3 && idx + 3 <= |ns|
    ensures |r| == |ns|
  {
    if m == 0 then ns
    else
      var p := AddSlots(ns, idx, v, m - 1);
      p[idx + m - 1 := p[idx + m - 1] + Get(v, m - 1)]
  }

  /** The face normal added at corners `corners[..m]`, in order. */
  function AddCorners(ns: seq<real>, corners: seq<nat>, v: Vec3, m: nat): (r: seq<real>)
    requires m <= |corners| && forall i :: 0 <= i < |corners| ==> corners[i] + 3 <= |ns|
    ensures |r| == |ns|
  {
    if m == 0 then ns else AddSlots(AddCorners(ns, corners, v, m - 1), corners[m - 1], v, 3)
  }

  /** The normal array after the triangles `fs` have been visited. */
  function Accumulate(ns: seq<real>, vs: seq<real>, fs: seq<Face>, sqrt: real -> real): (r: seq<real>)
    requires |ns| == |vs| && FacesIn(fs, vs) && IsSqrt(sqrt)
    ensures |r| == |ns|
  {
    if fs == [] then ns
    else
      var f := fs[|fs| - 1];
      var p := Accumulate(ns, vs, fs[..|fs| - 1], sqrt);
      AddCorners(p, [3 * f.a, 3 * f.b, 3 * f.c], FaceNormal(vs, f, sqrt), 3)
  }

  /** `new Array(n).fill(0)`. */
  function Zeros(n: nat): (r: seq<real>)
    ensures |r| == n && forall i :: 0 <= i < n ==> r[i] == 0.0
  {
    seq(n, _ => 0.0)
  }

  /** Entry `p` after the renormalisation loop. The loop visits i = 0, 3, 6, ...; a triple with
      a positive length is divided by it, any other is kept. A last, incomplete triple reads
      `undefined`, its length is NaN and it is kept too. */
  function RenormalizedAt(ns: seq<real>, p: nat, sqrt: real -> real): real
    requires p < |ns|
  {
    var i := p / 3 * 3;
    if i + 2 < |ns| then
      var len := sqrt(SquaredLength(VertexAt(ns, i)));
      if len > 0.0 then ns[p] / len else ns[p]
    else ns[p]
  }

  function Renormalized(ns: seq<real>, sqrt: real -> real): (r: seq<real>)
    ensures |r| == |ns|
  {
    seq(|ns|, p requires 0 <= p < |ns| => RenormalizedAt(ns, p, sqrt))
  }

  /** `noNormals`: the mesh has no normals, or its first normal is NaN (the OBJ parser's
      marker for a file without `vn` lines; NaN is not a real, so it is passed as a flag). */
  predicate NoNormals(ns: seq<real>, firstNormalIsNaN: bool) {
    |ns| == 0 || firstNormalIsNaN
  }

  /** The normals `loadOBJModel` leaves in the mesh. */
  function NormalPass(vs: seq<real>, ns: seq<real>, groups: seq<seq<int>>, firstNormalIsNaN: bool,
                      sqrt: real -> real): seq<real>
    requires NoNormals(ns, firstNormalIsNaN) ==> Triangulated(groups, vs)
    requires IsSqrt(sqrt)
  {
    if NoNormals(ns, firstNormalIsNaN) then
      FacesInRange(groups, vs);
      Renormalized(Accumulate(Zeros(|vs|), vs, Faces(groups), sqrt), sqrt)
    else Renormalized(ns, sqrt)
  }

  // ---------------------------------------------------------------------------------
  // The loops
  // ---------------------------------------------------------------------------------

  /** The two innermost loops: for each of the corners, `vertexNormals[idx + j] += norm[j]`. */
  method AddNormal(ns: seq<real>, corners: seq<nat>, norm: Vec3) returns (ms: seq<real>)
    requires forall i :: 0 <= i < |corners| ==> corners[i] + 3 <= |ns|
    ensures ms == AddCorners(ns, corners, norm, |corners|)
  {
    ms := ns;
    for k := 0 to |corners|
      invariant ms == AddCorners(ns, corners, norm, k)
    {
      var idx := corners[k];
      ghost var before := ms;
      for j := 0 to 3
        invariant ms == AddSlots(before, idx, norm, j)
      {
        ms := ms[idx + j := ms[idx + j] + Get(norm, j)];
      }
    }
  }

  /** One pass of the loop over a group: the triangle's unit normal is added at its corners. */
  method AddTriangle(ns: seq<real>, vs: seq<real>, a: int, b: int, c: int, sqrt: real -> real)
    returns (ms: seq<real>)
    requires |ns| == |vs| && IsSqrt(sqrt) && FaceIn(Face(a, b, c), vs)
    ensures ms == AddCorners(ns, [3 * a, 3 * b, 3 * c], FaceNormal(vs, Face(a, b, c), sqrt), 3)
  {
    var i1, i2, i3 := a * 3, b * 3, c * 3;
    var v1, v2, v3 := VertexAt(vs, i1), VertexAt(vs, i2), VertexAt(vs, i3);
    var norm := Normalize(Cross(Sub(v2, v1), Sub(v3, v1)), sqrt);
    assert norm == FaceNormal(vs, Face(a, b, c), sqrt);
    ms := AddNormal(ns, [i1, i2, i3], norm);
  }

  /** The loop over one group's triangles (`i += 3`). */
  method AccumulateGroup(ns: seq<real>, vs: seq<real>, group: seq<int>, sqrt: real -> real) returns (ms: seq<real>)
    requires |ns| == |vs| && IsSqrt(sqrt)
    requires |group| % 3 == 0 && forall i :: 0 <= i < |group| ==> HasVertex(vs, group[i])
    ensures ms == Accumulate(ns, vs, Triangles(group), sqrt)
  {
    ms := ns;
    var i := 0;
    ghost var t := 0;
    TrianglesIn(group, vs);
    while i < |group|
      invariant i == 3 * t && i <= |group| && t <= |group| / 3
      invariant ms == Accumulate(ns, vs, Triangles(group)[..t], sqrt)
    {
      TrianglesStep(ns, vs, group, t, sqrt);
      AccumulateStep(ns, vs, Triangles(group), t, sqrt);
      ms := AddTriangle(ms, vs, group[i], group[i + 1], group[i + 2], sqrt);
      i := i + 3;
      t := t + 1;
    }
    assert Triangles(group)[..t] == Triangles(group);
  }

  /** The loop over `mesh.indicesPerMaterial`. */
  method AccumulateGroups(ns: seq<real>, vs: seq<real>, groups: seq<seq<int>>, sqrt: real -> real)
    returns (ms: seq<real>)
    requires |ns| == |vs| && IsSqrt(sqrt) && Triangulated(groups, vs)
    ensures FacesIn(Faces(groups), vs)
    ensures ms == Accumulate(ns, vs, Faces(groups), sqrt)
  {
    FacesInRange(groups, vs);
    ms := ns;
    for g := 0 to |groups|
      invariant FacesIn(Faces(groups[..g]), vs)
      invariant ms == Accumulate(ns, vs, Faces(groups[..g]), sqrt)
    {
      GroupsPrefix(groups, vs, g);
      ms := AccumulateGroup(ms, vs, groups[g], sqrt);
      AccumulateAppend(ns, vs, Faces(groups[..g]), Triangles(groups[g]), sqrt);
    }
    assert groups[..|groups|] == groups;
  }

  /** The final loop: every whole triple with a positive length is divided by it. */
  method Renormalize(ns: seq<real>, sqrt: real -> real) returns (ms: seq<real>)
    ensures ms == Renormalized(ns, sqrt)
  {
    ms := ns;
    var i := 0;
    while i < |ms|
      invariant |ms| == |ns| && i % 3 == 0 && i <= |ns| + 2
      invariant forall p :: 0 <= p < |ns| && p < i ==> ms[p] == RenormalizedAt(ns, p, sqrt)
      invariant forall p :: i <= p < |ns| ==> ms[p] == ns[p]
    {
      ms := RenormalizeTriple(ms, ns, i, sqrt);
      i := i + 3;
    }
  }

  /** One turn of the final loop, at triple `i`. */
  method RenormalizeTriple(ms: seq<real>, ns: seq<real>, i: nat, sqrt: real -> real) returns (ms': seq<real>)
    requires |ms| == |ns| && i % 3 == 0 && i < |ns|
    requires forall p :: i <= p < |ns| ==> ms[p] == ns[p]
    ensures |ms'| == |ns|
    ensures forall p :: 0 <= p < i ==> ms'[p] == ms[p]
    ensures forall p :: i <= p < |ns| && p < i + 3 ==> ms'[p] == RenormalizedAt(ns, p, sqrt)
    ensures forall p :: i + 3 <= p < |ns| ==> ms'[p] == ns[p]
  {
    ms' := ms;
    if i + 2 < |ms| {
      var x, y, z := ms[i], ms[i + 1], ms[i + 2];
      assert x == ns[i] && y == ns[i + 1] && z == ns[i + 2];
      assert x * x + y * y + z * z == SquaredLength(VertexAt(ns, i));
      var len := sqrt(x * x + y * y + z * z);
      if len > 0.0 {
        ms' := ms[i := x / len][i + 1 := y / len][i + 2 := z / len];
      }
      TriplesAt(ns, i, sqrt);
    } else {
      forall p | i <= p < |ns|
        ensures RenormalizedAt(ns, p, sqrt) == ns[p]
      {
        TripleStart(i, p);
      }
    }
  }

  /** The method the loader calls: `noNormals`, the zero array, the accumulation when there
      were no normals, and the renormalisation in every case. Only `vertexNormals` changes. */
  method ReconstructNormals(mesh: Meshes.Mesh, firstNormalIsNaN: bool, sqrt: real -> real)
    requires IsSqrt(sqrt)
    requires NoNormals(mesh.vertexNormals, firstNormalIsNaN) ==> Triangulated(mesh.indicesPerMaterial, mesh.vertices)
    modifies mesh
    ensures mesh.vertexNormals
         == NormalPass(old(mesh.vertices), old(mesh.vertexNormals), old(mesh.indicesPerMaterial), firstNormalIsNaN, sqrt)
    ensures mesh.vertices == old(mesh.vertices) && mesh.textures == old(mesh.textures)
    ensures mesh.indicesPerMaterial == old(mesh.indicesPerMaterial) && mesh.materialNames == old(mesh.materialNames)
  {
    var noNormals := |mesh.vertexNormals| == 0 || firstNormalIsNaN;
    var ns := mesh.vertexNormals;
    if noNormals {
      ns := Zeros(|mesh.vertices|);
      ns := AccumulateGroups(ns, mesh.vertices, mesh.indicesPerMaterial, sqrt);
    }
    ns := Renormalize(ns, sqrt);
    mesh.vertexNormals := ns;
  }

  // ---------------------------------------------------------------------------------
  // Helpers of the loops
  // ---------------------------------------------------------------------------------

  lemma TriplesAt(ns: seq<real>, i: nat, sqrt: real -> real)
    requires i % 3 == 0 && i + 3 <= |ns|
    ensures var len := sqrt(SquaredLength(VertexAt(ns, i)));
      && RenormalizedAt(ns, i, sqrt) == (if len > 0.0 then ns[i] / len else ns[i])
      && RenormalizedAt(ns, i + 1, sqrt) == (if len > 0.0 then ns[i + 1] / len else ns[i + 1])
      && RenormalizedAt(ns, i + 2, sqrt) == (if len > 0.0 then ns[i + 2] / len else ns[i + 2])
  {
    TripleStart(i, i);
    TripleStart(i, i + 1);
    TripleStart(i, i + 2);
  }

  lemma TripleStart(i: nat, p: nat)
    requires i % 3 == 0 && i <= p < i + 3
    ensures p / 3 * 3 == i
  {
  }

  lemma TrianglesIn(group: seq<int>, vs: seq<real>)
    requires |group| % 3 == 0 && forall i :: 0 <= i < |group| ==> HasVertex(vs, group[i])
    ensures FacesIn(Triangles(group), vs)
  {
    var fs := Triangles(group);
    forall t | 0 <= t < |fs|
      ensures FaceIn(fs[t], vs)
    {
      assert 3 * t + 2 < |group|;
    }
  }

  lemma TrianglesStep(ns: seq<real>, vs: seq<real>, group: seq<int>, t: nat, sqrt: real -> real)
    requires |ns| == |vs| && IsSqrt(sqrt)
    requires |group| % 3 == 0 && forall i :: 0 <= i < |group| ==> HasVertex(vs, group[i])
    requires t < |group| / 3
    ensures FacesIn(Triangles(group), vs)
    ensures Triangles(group)[t] == Face(group[3 * t], group[3 * t + 1], group[3 * t + 2])
  {
    TrianglesIn(group, vs);
  }

  lemma AccumulateStep(ns: seq<real>, vs: seq<real>, fs: seq<Face>, t: nat, sqrt: real -> real)
    requires |ns| == |vs| && IsSqrt(sqrt) && FacesIn(fs, vs) && t < |fs|
    ensures FacesIn(fs[..t], vs) && FacesIn(fs[..t + 1], vs)
    ensures var f := fs[t];
      Accumulate(ns, vs, fs[..t + 1], sqrt)
      == AddCorners(Accumulate(ns, vs, fs[..t], sqrt), [3 * f.a, 3 * f.b, 3 * f.c], FaceNormal(vs, f, sqrt), 3)
  {
    assert fs[..t + 1][..t] == fs[..t];
  }

  lemma {:induction false} FacesInRange(groups: seq<seq<int>>, vs: seq<real>)
    requires Triangulated(groups, vs)
    ensures FacesIn(Faces(groups), vs)
  {
    if groups != [] {
      var p := groups[..|groups| - 1];
      assert forall g :: 0 <= g < |p| ==> p[g] == groups[g];
      FacesInRange(p, vs);
      TrianglesIn(groups[|groups| - 1], vs);
    }
  }

  lemma GroupsPrefix(groups: seq<seq<int>>, vs: seq<real>, g: nat)
    requires Triangulated(groups, vs) && g < |groups|
    ensures groups[..g + 1][..g] == groups[..g] && groups[..g + 1][g] == groups[g]
    ensures Faces(groups[..g + 1]) == Faces(groups[..g]) + Triangles(groups[g])
    ensures FacesIn(Faces(groups[..g + 1]), vs)
  {
    FacesInRange(groups[..g + 1], vs);
  }

  /** Visiting two lists of triangles one after the other is visiting their concatenation. */
  lemma {:induction false} AccumulateAppend(ns: seq<real>, vs: seq<real>, a: seq<Face>, b: seq<Face>, sqrt: real -> real)
    requires |ns| == |vs| && FacesIn(a, vs) && FacesIn(b, vs) && IsSqrt(sqrt)
    ensures FacesIn(a + b, vs)
    ensures Accumulate(ns, vs, a + b, sqrt) == Accumulate(Accumulate(ns, vs, a, sqrt), vs, b, sqrt)
    decreases |b|
  {
    if b != [] {
      var b' := b[..|b| - 1];
      assert (a + b)[..|a + b| - 1] == a + b';
      AccumulateAppend(ns, vs, a, b', sqrt);
    } else {
      assert a + b == a;
    }
  }

  // ---------------------------------------------------------------------------------
  // Properties of the normal pass
  // ---------------------------------------------------------------------------------

  /** Vertex k is a corner of f. */
  predicate Uses(f: Face, k: int) {
    f.a == k || f.b == k || f.c == k
  }

  /** Component j of n, once for each corner of f that is vertex k. */
  function Share(f: Face, k: int, n: Vec3, j: nat): real
    requires j < 3
  {
    (if f.a == k then Get(n, j) else 0.0) + (if f.b == k then Get(n, j) else 0.0) + (if f.c == k then Get(n, j) else 0.0)
  }

  /** Σ over the triangles of component j of the face normal, once per corner that is vertex k. */
  function Contribution(vs: seq<real>, fs: seq<Face>, k: int, j: nat, sqrt: real -> real): real
    requires FacesIn(fs, vs) && IsSqrt(sqrt) && j < 3
  {
    if fs == [] then 0.0
    else
      var f := fs[|fs| - 1];
      Contribution(vs, fs[..|fs| - 1], k, j, sqrt) + Share(f, k, FaceNormal(vs, f, sqrt), j)
  }

  /** Slot p of `m` incremented slots from idx gains component p - idx. */
  lemma {:induction false} AddSlotsAt(ns: seq<real>, idx: nat, v: Vec3, m: nat, p: nat)
    requires m <= 3 && idx + 3 <= |ns| && p < |ns|
    ensures AddSlots(ns, idx, v, m)[p] == ns[p] + (if idx <= p < idx + m then Get(v, p - idx) else 0.0)
  {
    if m > 0 {
      AddSlotsAt(ns, idx, v, m - 1, p);
    }
  }

  /** Adding n at the slots of vertex a changes the slots of vertex k only when a = k. */
  lemma VertexSlots(ns: seq<real>, a: nat, v: Vec3, k: nat, j: nat)
    requires 3 * a + 3 <= |ns| && 3 * k + 3 <= |ns| && j < 3
    ensures AddSlots(ns, 3 * a, v, 3)[3 * k + j] == ns[3 * k + j] + (if a == k then Get(v, j) else 0.0)
  {
    AddSlotsAt(ns, 3 * a, v, 3, 3 * k + j);
    assert (3 * a <= 3 * k + j < 3 * a + 3) <==> a == k;
  }

  /** Adding n at the corners a, b and c adds it once per corner that is vertex k. */
  lemma CornersAdded(ns: seq<real>, a: nat, b: nat, c: nat, n: Vec3, k: nat, j: nat)
    requires 3 * a + 3 <= |ns| && 3 * b + 3 <= |ns| && 3 * c + 3 <= |ns| && 3 * k + 3 <= |ns| && j < 3
    ensures AddCorners(ns, [3 * a, 3 * b, 3 * c], n, 3)[3 * k + j] == ns[3 * k + j] + Share(Face(a, b, c), k, n, j)
  {
    var cs: seq<nat> := [3 * a, 3 * b, 3 * c];
    var r1 := AddSlots(ns, 3 * a, n, 3);
    var r2 := AddSlots(r1, 3 * b, n, 3);
    assert AddCorners(ns, cs, n, 1) == r1;
    assert AddCorners(ns, cs, n, 2) == r2;
    assert AddCorners(ns, cs, n, 3) == AddSlots(r2, 3 * c, n, 3);
    VertexSlots(ns, a, n, k, j);
    VertexSlots(r1, b, n, k, j);
    VertexSlots(r2, c, n, k, j);
  }

  /** Accumulation as a sum: normal slot j of vertex k ends as its starting value plus, for
      every triangle, the face normal's component j once per corner that is vertex k. */
  lemma {:induction false} AccumulateIsSum(ns: seq<real>, vs: seq<real>, fs: seq<Face>, sqrt: real -> real, k: nat, j: nat)
    requires |ns| == |vs| && FacesIn(fs, vs) && IsSqrt(sqrt) && j < 3 && 3 * k + 3 <= |ns|
    ensures Accumulate(ns, vs, fs, sqrt)[3 * k + j] == ns[3 * k + j] + Contribution(vs, fs, k, j, sqrt)
  {
    if fs != [] {
      var p := fs[..|fs| - 1];
      assert FacesIn(p, vs);
      AccumulateIsSum(ns, vs, p, sqrt, k, j);
      var f := fs[|fs| - 1];
      CornersAdded(Accumulate(ns, vs, p, sqrt), f.a, f.b, f.c, FaceNormal(vs, f, sqrt), k, j);
    }
  }

  /** A vertex that is a corner of no triangle receives nothing. */
  lemma {:induction false} UnusedContributesNothing(vs: seq<real>, fs: seq<Face>, sqrt: real -> real, k: int, j: nat)
    requires FacesIn(fs, vs) && IsSqrt(sqrt) && j < 3
    requires forall i :: 0 <= i < |fs| ==> !Uses(fs[i], k)
    ensures Contribution(vs, fs, k, j, sqrt) == 0.0
  {
    if fs != [] {
      var p := fs[..|fs| - 1];
      assert forall i :: 0 <= i < |p| ==> p[i] == fs[i];
      UnusedContributesNothing(vs, p, sqrt, k, j);
    }
  }

  /** Reconstructed normals before the final pass: vertex k's normal is the sum, over the
      triangles, of the face normal once per corner that is k; a vertex used by no triangle
      keeps (0, 0, 0). */
  lemma ReconstructedSum(vs: seq<real>, groups: seq<seq<int>>, sqrt: real -> real, k: nat, j: nat)
    requires Triangulated(groups, vs) && IsSqrt(sqrt) && j < 3 && 3 * k + 3 <= |vs|
    ensures FacesIn(Faces(groups), vs)
    ensures Accumulate(Zeros(|vs|), vs, Faces(groups), sqrt)[3 * k + j] == Contribution(vs, Faces(groups), k, j, sqrt)
    ensures (forall i :: 0 <= i < |Faces(groups)| ==> !Uses(Faces(groups)[i], k)) ==>
      Accumulate(Zeros(|vs|), vs, Faces(groups), sqrt)[3 * k + j] == 0.0
  {
    FacesInRange(groups, vs);
    AccumulateIsSum(Zeros(|vs|), vs, Faces(groups), sqrt, k, j);
    if forall i :: 0 <= i < |Faces(groups)| ==> !Uses(Faces(groups)[i], k) {
      UnusedContributesNothing(vs, Faces(groups), sqrt, k, j);
    }
  }

  /** Normals are rebuilt exactly when there were none: with normals supplied the pass only
      renormalises them; without, the supplied array is not read at all. */
  lemma SuppliedNormalsKept(vs: seq<real>, ns: seq<real>, groups: seq<seq<int>>, firstNormalIsNaN: bool,
                            sqrt: real -> real)
    requires NoNormals(ns, firstNormalIsNaN) ==> Triangulated(groups, vs)
    requires IsSqrt(sqrt)
    ensures !NoNormals(ns, firstNormalIsNaN) ==> NormalPass(vs, ns, groups, firstNormalIsNaN, sqrt) == Renormalized(ns, sqrt)
    ensures NoNormals(ns, firstNormalIsNaN) ==>
      |NormalPass(vs, ns, groups, firstNormalIsNaN, sqrt)| == |vs|
      && forall ns' :: NormalPass(vs, ns', groups, true, sqrt) == NormalPass(vs, ns, groups, firstNormalIsNaN, sqrt)
  {
  }

  /** The final pass turns every whole triple with a positive length into a unit vector in
      the same direction, and keeps a zero triple. */
  lemma RenormalizedTriple(ns: seq<real>, sqrt: real -> real, i: nat)
    requires IsSqrt(sqrt) && i % 3 == 0 && i + 3 <= |ns|
    ensures var v, w := VertexAt(ns, i), VertexAt(Renormalized(ns, sqrt), i);
      && (SquaredLength(v) > 0.0 ==> SquaredLength(w) == 1.0 && exists s: real :: s > 0.0 && w == Scale(v, s))
      && (SquaredLength(v) == 0.0 ==> w == v)
  {
    var v := VertexAt(ns, i);
    RenormalizedEntries(ns, sqrt, i);
    if SquaredLength(v) > 0.0 {
      RenormalizedUnit(ns, sqrt, i, v, sqrt(SquaredLength(v)));
    }
  }

  lemma RenormalizedUnit(ns: seq<real>, sqrt: real -> real, i: nat, v: Vec3, len: real)
    requires IsSqrt(sqrt) && i % 3 == 0 && i + 3 <= |ns|
    requires v == VertexAt(ns, i) && SquaredLength(v) > 0.0 && len == sqrt(SquaredLength(v))
    requires VertexAt(Renormalized(ns, sqrt), i) == Vec3(v.x / len, v.y / len, v.z / len)
    ensures SquaredLength(Scale(v, 1.0 / len)) == 1.0 && 1.0 / len > 0.0
    ensures VertexAt(Renormalized(ns, sqrt), i) == Scale(v, 1.0 / len)
  {
    UnitScale(v, sqrt);
    DivIsScale(v, len);
  }

  /** Triple i after the final pass, as the loop body computes it. */
  lemma RenormalizedEntries(ns: seq<real>, sqrt: real -> real, i: nat)
    requires i % 3 == 0 && i + 3 <= |ns|
    ensures var v, len := VertexAt(ns, i), sqrt(SquaredLength(VertexAt(ns, i)));
      VertexAt(Renormalized(ns, sqrt), i) == if len > 0.0 then Vec3(v.x / len, v.y / len, v.z / len) else v
  {
    var r := Renormalized(ns, sqrt);
    TriplesAt(ns, i, sqrt);
    assert r[i] == RenormalizedAt(ns, i, sqrt);
    assert r[i + 1] == RenormalizedAt(ns, i + 1, sqrt);
    assert r[i + 2] == RenormalizedAt(ns, i + 2, sqrt);
  }

  lemma DivIsScale(v: Vec3, len: real)
    requires len > 0.0
    ensures Vec3(v.x / len, v.y / len, v.z / len) == Scale(v, 1.0 / len)
  {
  }

  /** An incomplete last triple is kept as it is. */
  lemma RenormalizedTail(ns: seq<real>, sqrt: real -> real, p: nat)
    requires p < |ns| && p / 3 * 3 + 2 >= |ns|
    ensures Renormalized(ns, sqrt)[p] == ns[p]
  {
  }
}
