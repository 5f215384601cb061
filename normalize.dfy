/** `normalizeMesh`: rewrites a mesh's vertex positions in place so that the model is
    centred on x and z, rests on y = 0 and has a largest extent of 1. */
module Normalize {
  import opened Meshes

  function Min(a: real, b: real): real { if a <= b then a else b }
  function Max(a: real, b: real): real { if a >= b then a else b }

  /** Number of whole (x, y, z) triples in a flat coordinate array. */
  function Triples(v: seq<real>): nat { |v| / 3 }

  /** Smallest coordinate on `axis` over the first `n` triples. */
  function MinAxis(v: seq<real>, n: nat, axis: nat): real
    requires 1 <= n && 3 * n <= |v| && axis < 3
  {
    if n == 1 then v[axis] else Min(MinAxis(v, n - 1, axis), v[3 * (n - 1) + axis])
  }

  /** Largest coordinate on `axis` over the first `n` triples. */
  function MaxAxis(v: seq<real>, n: nat, axis: nat): real
    requires 1 <= n && 3 * n <= |v| && axis < 3
  {
    if n == 1 then v[axis] else Max(MaxAxis(v, n - 1, axis), v[3 * (n - 1) + axis])
  }

  /** The bounding box's dimension along `axis`. */
  function Extent(v: seq<real>, axis: nat): real
    requires |v| >= 3 && axis < 3
  {
    MaxAxis(v, Triples(v), axis) - MinAxis(v, Triples(v), axis)
  }

  /** The largest dimension of the bounding box (`size`). */
  function Size(v: seq<real>): real
    requires |v| >= 3
  {
    Max(Max(Extent(v, 0), Extent(v, 1)), Extent(v, 2))
  }

  /** What the source divides by is never zero: either there is no vertex (and no division
      happens) or the bounding box has a positive dimension. */
  predicate Normalizable(v: seq<real>) {
    |v| % 3 == 0 && (|v| == 0 || Size(v) > 0.0)
  }

  /** The point each axis is shifted to the origin: the mid-point of x and of z, but the
      minimum of y, so that the model rests on the plane y = 0. */
  function Anchor(v: seq<real>, axis: nat): real
    requires |v| >= 3 && axis < 3
  {
    if axis == 1 then MinAxis(v, Triples(v), 1)
    else (MaxAxis(v, Triples(v), axis) + MinAxis(v, Triples(v), axis)) / 2.0
  }

  /** One coordinate shifted by `c` and scaled by `1 / s`. */
  function Rescaled(x: real, c: real, s: real): real
    requires s != 0.0
  {
    (x - c) / s
  }

  /** The vertex array after normalisation. */
  function Normalized(v: seq<real>): (w: seq<real>)
    requires Normalizable(v)
    ensures |w| == |v|
  {
    if |v| == 0 then []
    else seq(|v|, k requires 0 <= k < |v| => Rescaled(v[k], Anchor(v, k % 3), Size(v)))
  }

  /** The first loop of `normalizeMesh`: per-axis minimum and maximum of all vertices.
      The source starts from +Infinity and -Infinity; here the first triple replaces them. */
  method Bounds(vs: seq<real>) returns (lo: seq<real>, hi: seq<real>)
    requires |vs| % 3 == 0 && |vs| > 0
    ensures |lo| == 3 && |hi| == 3
    ensures forall a :: 0 <= a < 3 ==> lo[a] == MinAxis(vs, Triples(vs), a) && hi[a] == MaxAxis(vs, Triples(vs), a)
  {
    var n := |vs|;
    lo, hi := [vs[0], vs[1], vs[2]], [vs[0], vs[1], vs[2]];
    var i := 3;
    while i < n
      invariant i % 3 == 0 && 3 <= i <= n
      invariant |lo| == 3 && |hi| == 3
      invariant forall a :: 0 <= a < 3 ==> lo[a] == MinAxis(vs, i / 3, a) && hi[a] == MaxAxis(vs, i / 3, a)
    {
      var x, y, z := vs[i], vs[i + 1], vs[i + 2];
      lo := [Min(lo[0], x), Min(lo[1], y), Min(lo[2], z)];
      hi := [Max(hi[0], x), Max(hi[1], y), Max(hi[2], z)];
      i := i + 3;
    }
  }

  /** `normalizeMesh`: rewrites `mesh.vertices` in place, touches nothing else and returns the
      same mesh object. */
  method NormalizeMesh(mesh: Mesh) returns (r: Mesh)
    requires Normalizable(mesh.vertices)
    modifies mesh
    ensures r == mesh
    ensures mesh.vertices == Normalized(old(mesh.vertices))
    ensures mesh.vertexNormals == old(mesh.vertexNormals) && mesh.textures == old(mesh.textures)
    ensures mesh.indicesPerMaterial == old(mesh.indicesPerMaterial)
    ensures mesh.materialNames == old(mesh.materialNames)
  {
    ghost var v := mesh.vertices;
    var n := |mesh.vertices|;
    if n == 0 {
      return mesh;
    }
    var lo, hi := Bounds(mesh.vertices);
    var center := [(hi[0] + lo[0]) / 2.0, (hi[1] + lo[1]) / 2.0, (hi[2] + lo[2]) / 2.0];
    var size := Max(Max(hi[0] - lo[0], hi[1] - lo[1]), hi[2] - lo[2]);
    BoundsGiveAnchors(v, lo, hi);
    var vs := Rescale(mesh.vertices, center[0], lo[1], center[2], size);
    mesh.vertices := vs;
    RescaledIsNormalized(v, mesh.vertices, center[0], lo[1], center[2]);
    return mesh;
  }

  /** The second loop of `normalizeMesh`: every triple shifted by (cx, cy, cz) and scaled
      by 1 / size. The source updates `mesh.vertices` entry by entry; nothing else reads the
      array meanwhile, so the loop runs on a copy that is stored back at the end. */
  method Rescale(vs: seq<real>, cx: real, cy: real, cz: real, size: real) returns (ws: seq<real>)
    requires size != 0.0 && |vs| % 3 == 0
    ensures |ws| == |vs|
    ensures forall t :: 0 <= t < |vs| / 3 ==> RescaledTriple(ws, vs, t, cx, cy, cz, size)
  {
    var n := |vs|;
    ws := vs;
    var i := 0;
    ghost var t := 0;
    while i < n
      invariant i == 3 * t && i <= n
      invariant RescaledUpTo(ws, vs, t, cx, cy, cz, size)
    {
      var x := Rescaled(ws[i], cx, size);
      var y := Rescaled(ws[i + 1], cy, size);
      var z := Rescaled(ws[i + 2], cz, size);
      RescaleStep(ws, vs, t, cx, cy, cz, size);
      ws := ws[i := x][i + 1 := y][i + 2 := z];
      i := i + 3;
      t := t + 1;
    }
    assert t == |vs| / 3;
  }

  /** The second loop's state after `t` triples: those are rescaled, the rest untouched. */
  ghost predicate RescaledUpTo(ws: seq<real>, vs: seq<real>, t: nat, cx: real, cy: real, cz: real, size: real)
    requires size != 0.0
  {
    && |ws| == |vs| && 3 * t <= |vs|
    && (forall u :: 0 <= u < t ==> RescaledTriple(ws, vs, u, cx, cy, cz, size))
    && ws[3 * t..] == vs[3 * t..]
  }

  lemma RescaleStep(ws: seq<real>, vs: seq<real>, t: nat, cx: real, cy: real, cz: real, size: real)
    requires size != 0.0 && RescaledUpTo(ws, vs, t, cx, cy, cz, size) && 3 * t + 3 <= |vs|
    ensures ws[3 * t] == vs[3 * t] && ws[3 * t + 1] == vs[3 * t + 1] && ws[3 * t + 2] == vs[3 * t + 2]
    ensures RescaledUpTo(ws[3 * t := Rescaled(ws[3 * t], cx, size)]
                          [3 * t + 1 := Rescaled(ws[3 * t + 1], cy, size)]
                          [3 * t + 2 := Rescaled(ws[3 * t + 2], cz, size)], vs, t + 1, cx, cy, cz, size)
  {
    var i := 3 * t;
    assert ws[i..][0] == vs[i..][0] && ws[i..][1] == vs[i..][1] && ws[i..][2] == vs[i..][2];
    var ws' := ws[i := Rescaled(ws[i], cx, size)][i + 1 := Rescaled(ws[i + 1], cy, size)][i + 2 := Rescaled(ws[i + 2], cz, size)];
    assert ws'[i + 3..] == ws[i + 3..];
    forall u | 0 <= u < t + 1 ensures RescaledTriple(ws', vs, u, cx, cy, cz, size) {
      if u < t { assert RescaledTriple(ws, vs, u, cx, cy, cz, size); }
    }
  }

  /** Triple `t` of `w` is triple `t` of `v` shifted by (cx, cy, cz) and scaled by 1 / size. */
  ghost predicate RescaledTriple(w: seq<real>, v: seq<real>, t: nat, cx: real, cy: real, cz: real, size: real)
    requires size != 0.0
  {
    && 3 * t + 3 <= |w| && 3 * t + 3 <= |v|
    && w[3 * t] == Rescaled(v[3 * t], cx, size)
    && w[3 * t + 1] == Rescaled(v[3 * t + 1], cy, size)
    && w[3 * t + 2] == Rescaled(v[3 * t + 2], cz, size)
  }

  lemma RescaledIsNormalized(v: seq<real>, w: seq<real>, cx: real, cy: real, cz: real)
    requires Normalizable(v) && |v| > 0 && |w| == |v|
    requires cx == Anchor(v, 0) && cy == Anchor(v, 1) && cz == Anchor(v, 2)
    requires forall t :: 0 <= t < |v| / 3 ==> RescaledTriple(w, v, t, cx, cy, cz, Size(v))
    ensures w == Normalized(v)
  {
    var size := Size(v);
    forall k | 0 <= k < |v| ensures w[k] == Normalized(v)[k] {
      var t := k / 3;
      assert RescaledTriple(w, v, t, cx, cy, cz, size);
      assert Normalized(v)[k] == Rescaled(v[k], Anchor(v, k % 3), size);
      if k % 3 == 0 {
        assert k == 3 * t;
      } else if k % 3 == 1 {
        assert k == 3 * t + 1;
      } else {
        assert k == 3 * t + 2;
      }
    }
  }

  /** The minima and maxima found by the first loop give the anchors and the size. */
  lemma BoundsGiveAnchors(v: seq<real>, lo: seq<real>, hi: seq<real>)
    requires Normalizable(v) && |v| > 0 && |lo| == 3 && |hi| == 3
    requires forall a :: 0 <= a < 3 ==> lo[a] == MinAxis(v, Triples(v), a) && hi[a] == MaxAxis(v, Triples(v), a)
    ensures Max(Max(hi[0] - lo[0], hi[1] - lo[1]), hi[2] - lo[2]) == Size(v)
    ensures (hi[0] + lo[0]) / 2.0 == Anchor(v, 0) && lo[1] == Anchor(v, 1) && (hi[2] + lo[2]) / 2.0 == Anchor(v, 2)
  {
    assert lo[0] == MinAxis(v, Triples(v), 0) && hi[0] == MaxAxis(v, Triples(v), 0);
    assert lo[1] == MinAxis(v, Triples(v), 1) && hi[1] == MaxAxis(v, Triples(v), 1);
    assert lo[2] == MinAxis(v, Triples(v), 2) && hi[2] == MaxAxis(v, Triples(v), 2);
  }

  lemma RescaledMonotone(a: real, b: real, c: real, s: real)
    requires s > 0.0 && a <= b
    ensures Rescaled(a, c, s) <= Rescaled(b, c, s)
  {
    assert Rescaled(b, c, s) - Rescaled(a, c, s) == (b - a) / s;
  }

  /** The shift-and-scale x -> (x - c) / s with s > 0 commutes with min and max along one axis. */
  lemma {:induction false} AffineBounds(v: seq<real>, w: seq<real>, n: nat, axis: nat, c: real, s: real)
    requires 1 <= n && 3 * n <= |v| == |w| && axis < 3 && s > 0.0
    requires forall t :: 0 <= t < n ==> w[3 * t + axis] == Rescaled(v[3 * t + axis], c, s)
    ensures MinAxis(w, n, axis) == Rescaled(MinAxis(v, n, axis), c, s)
    ensures MaxAxis(w, n, axis) == Rescaled(MaxAxis(v, n, axis), c, s)
  {
    assert w[3 * 0 + axis] == Rescaled(v[3 * 0 + axis], c, s);
    if n > 1 {
      AffineBounds(v, w, n - 1, axis, c, s);
      var a, b := MinAxis(v, n - 1, axis), v[3 * (n - 1) + axis];
      if a <= b { RescaledMonotone(a, b, c, s); } else { RescaledMonotone(b, a, c, s); }
      var p := MaxAxis(v, n - 1, axis);
      if p <= b { RescaledMonotone(p, b, c, s); } else { RescaledMonotone(b, p, c, s); }
    }
  }

  lemma NormalizedAt(v: seq<real>, t: nat, axis: nat)
    requires Normalizable(v) && |v| > 0 && axis < 3 && 3 * t + 3 <= |v|
    ensures Normalized(v)[3 * t + axis] == Rescaled(v[3 * t + axis], Anchor(v, axis), Size(v))
  {
    var k := 3 * t + axis;
    assert k % 3 == axis;
  }

  /** Along each axis, the normalised bounds are the original bounds shifted and scaled. */
  lemma NormalizedAxis(v: seq<real>, axis: nat)
    requires Normalizable(v) && |v| > 0 && axis < 3
    ensures MinAxis(Normalized(v), Triples(v), axis) == Rescaled(MinAxis(v, Triples(v), axis), Anchor(v, axis), Size(v))
    ensures MaxAxis(Normalized(v), Triples(v), axis) == Rescaled(MaxAxis(v, Triples(v), axis), Anchor(v, axis), Size(v))
  {
    var w := Normalized(v);
    var c, s := Anchor(v, axis), Size(v);
    forall t | 0 <= t < Triples(v) ensures w[3 * t + axis] == Rescaled(v[3 * t + axis], c, s) {
      NormalizedAt(v, t, axis);
    }
    AffineBounds(v, w, Triples(v), axis, c, s);
  }

  lemma RescaledDiff(lo: real, hi: real, c: real, s: real, e: real)
    requires s != 0.0 && e == hi - lo
    ensures Rescaled(hi, c, s) - Rescaled(lo, c, s) == e / s
  {
  }

  lemma RescaledSelf(x: real, c: real, s: real)
    requires s != 0.0 && x == c
    ensures Rescaled(x, c, s) == 0.0
  {
  }

  lemma RescaledMid(lo: real, hi: real, c: real, s: real)
    requires s != 0.0 && c == (hi + lo) / 2.0
    ensures Rescaled(lo, c, s) == -Rescaled(hi, c, s)
  {
    assert lo - c == -(hi - c);
  }

  lemma DivSelf(s: real)
    requires s != 0.0
    ensures s / s == 1.0
  {
  }

  lemma MaxOfScaled(e0: real, e1: real, e2: real, s: real)
    requires s > 0.0
    ensures Max(Max(e0 / s, e1 / s), e2 / s) == Max(Max(e0, e1), e2) / s
  {
    if e0 <= e1 { RescaledMonotone(e0, e1, 0.0, s); } else { RescaledMonotone(e1, e0, 0.0, s); }
    var m := Max(e0, e1);
    if m <= e2 { RescaledMonotone(m, e2, 0.0, s); } else { RescaledMonotone(e2, m, 0.0, s); }
  }

  /** After normalisation the model rests on the plane y = 0. */
  lemma NormalizedFloor(v: seq<real>)
    requires Normalizable(v) && |v| > 0
    ensures MinAxis(Normalized(v), Triples(v), 1) == 0.0
  {
    NormalizedAxis(v, 1);
    var lo := MinAxis(v, Triples(v), 1);
    assert Anchor(v, 1) == lo;
    RescaledSelf(lo, Anchor(v, 1), Size(v));
  }

  /** After normalisation the model is centred on x = 0 and on z = 0. */
  lemma NormalizedCentred(v: seq<real>, axis: nat)
    requires Normalizable(v) && |v| > 0 && (axis == 0 || axis == 2)
    ensures MinAxis(Normalized(v), Triples(v), axis) == -MaxAxis(Normalized(v), Triples(v), axis)
  {
    NormalizedAxis(v, axis);
    var lo, hi := MinAxis(v, Triples(v), axis), MaxAxis(v, Triples(v), axis);
    assert Anchor(v, axis) == (hi + lo) / 2.0;
    RescaledMid(lo, hi, Anchor(v, axis), Size(v));
  }

  /** Each bounding-box dimension is divided by the size. */
  lemma NormalizedExtent(v: seq<real>, axis: nat)
    requires Normalizable(v) && |v| > 0 && axis < 3
    ensures Extent(Normalized(v), axis) == Extent(v, axis) / Size(v)
  {
    var w, n, s, c := Normalized(v), Triples(v), Size(v), Anchor(v, axis);
    var lo, hi := MinAxis(v, n, axis), MaxAxis(v, n, axis);
    assert Triples(w) == n;
    NormalizedAxis(v, axis);
    assert Extent(v, axis) == hi - lo;
    RescaledDiff(lo, hi, c, s, Extent(v, axis));
    assert Extent(w, axis) == Rescaled(hi, c, s) - Rescaled(lo, c, s);
  }

  /** After normalisation the largest bounding-box dimension is exactly 1. */
  lemma NormalizedSize(v: seq<real>)
    requires Normalizable(v) && |v| > 0
    ensures Size(Normalized(v)) == 1.0
  {
    var w := Normalized(v);
    var s := Size(v);
    var e0, e1, e2 := Extent(v, 0), Extent(v, 1), Extent(v, 2);
    assert s == Max(Max(e0, e1), e2);
    NormalizedExtent(v, 0);
    NormalizedExtent(v, 1);
    NormalizedExtent(v, 2);
    MaxOfScaled(e0, e1, e2, s);
    calc {
      Size(w);
      Max(Max(Extent(w, 0), Extent(w, 1)), Extent(w, 2));
      Max(Max(e0 / s, e1 / s), e2 / s);
      s / s;
      { DivSelf(s); }
      1.0;
    }
  }

  /** After normalisation the model stands on y = 0, is centred on x = 0 and z = 0, and its
      largest bounding-box dimension is exactly 1. */
  lemma NormalizedBounds(v: seq<real>)
    requires Normalizable(v) && |v| > 0
    ensures var w := Normalized(v); var n := Triples(w);
      && MinAxis(w, n, 1) == 0.0
      && MinAxis(w, n, 0) == -MaxAxis(w, n, 0)
      && MinAxis(w, n, 2) == -MaxAxis(w, n, 2)
      && Size(w) == 1.0
  {
    assert Triples(Normalized(v)) == Triples(v);
    NormalizedFloor(v);
    NormalizedCentred(v, 0);
    NormalizedCentred(v, 2);
    NormalizedSize(v);
  }
}
