/** `splitMesh`: cuts a mesh into submeshes small enough for 16-bit index buffers. */
module Split {
  import opened Js
  import opened Meshes

  /** A submesh as `splitMesh` fills it. Texture coordinates and the material name are
      JavaScript reads that may fall off the end of the source arrays (an STL mesh has no
      texture coordinates and no material names), so they are kept as `undefined`-or-value. */
  datatype Submesh = Submesh(
    vertices: seq<real>,
    vertexNormals: seq<real>,
    textures: seq<Option<real>>,
    indices: seq<int>,
    materialNames: seq<Option<string>>)

  /** The state of one window: the first-seen remap table and the arrays filled so far. */
  datatype Remap = Remap(
    indexMap: map<int, int>,
    vertices: seq<real>,
    vertexNormals: seq<real>,
    textures: seq<Option<real>>,
    indices: seq<int>)

  /** Index `idx` names a whole vertex and a whole normal. */
  predicate InRange(idx: int, vs: seq<real>, ns: seq<real>) {
    0 <= idx && 3 * idx + 3 <= |vs| && 3 * idx + 3 <= |ns|
  }

  predicate AllInRange(w: seq<int>, vs: seq<real>, ns: seq<real>) {
    forall i :: 0 <= i < |w| ==> InRange(w[i], vs, ns)
  }

  predicate GroupsInRange(groups: seq<seq<int>>, vs: seq<real>, ns: seq<real>) {
    forall g :: 0 <= g < |groups| ==> AllInRange(groups[g], vs, ns)
  }

  /** One step of the inner loop: a vertex seen for the first time gets the next compact index
      (the table's size) and its position, normal and texture coordinates are copied. */
  function RemapStep(r: Remap, idx: int, vs: seq<real>, ns: seq<real>, ts: seq<real>): Remap
    requires InRange(idx, vs, ns)
  {
    if idx in r.indexMap then r.(indices := r.indices + [r.indexMap[idx]])
    else
      var c := |r.indexMap|;
      Remap(r.indexMap[idx := c],
            r.vertices + vs[3 * idx..3 * idx + 3],
            r.vertexNormals + ns[3 * idx..3 * idx + 3],
            r.textures + [At(ts, 2 * idx), At(ts, 2 * idx + 1)],
            r.indices + [c])
  }

  /** The state after the inner loop has consumed the positions `w` of one window. */
  function RemapWindow(w: seq<int>, vs: seq<real>, ns: seq<real>, ts: seq<real>): Remap
    requires AllInRange(w, vs, ns)
  {
    if w == [] then Remap(map[], [], [], [], [])
    else RemapStep(RemapWindow(w[..|w| - 1], vs, ns, ts), w[|w| - 1], vs, ns, ts)
  }

  /** Number of windows of a group of `len` indices (the outer `offset` loop's trip count). */
  function WindowCount(len: nat): nat { (len + 65535 - 1) / 65535 }

  function MinNat(a: nat, b: nat): nat { if a <= b then a else b }

  lemma WindowStart(len: nat, k: nat)
    ensures k < WindowCount(len) <==> 65535 * k < len
  {
  }

  /** The `k`-th window of a group: positions 65535*k up to (not including) 65535*(k+1). */
  function Window(g: seq<int>, k: nat): (w: seq<int>)
    requires k < WindowCount(|g|)
    ensures |w| == MinNat(65535, |g| - 65535 * k)
  {
    WindowStart(|g|, k);
    g[65535 * k..MinNat(65535 * (k + 1), |g|)]
  }

  function ToSubmesh(r: Remap, name: Option<string>): Submesh {
    Submesh(r.vertices, r.vertexNormals, r.textures, r.indices, [name])
  }

  /** The submeshes of one material group, in window order. */
  function GroupSubmeshes(g: seq<int>, name: Option<string>, vs: seq<real>, ns: seq<real>, ts: seq<real>): (subs: seq<Submesh>)
    requires AllInRange(g, vs, ns)
    ensures |subs| == WindowCount(|g|)
  {
    seq(WindowCount(|g|), k requires 0 <= k < WindowCount(|g|) =>
      ToSubmesh(RemapWindow(Window(g, k), vs, ns, ts), name))
  }

  /** The submeshes of the first `|groups|` material groups, group after group. */
  function SplitGroups(groups: seq<seq<int>>, names: seq<string>, vs: seq<real>, ns: seq<real>, ts: seq<real>): seq<Submesh>
    requires GroupsInRange(groups, vs, ns)
  {
    if groups == [] then []
    else
      var m := |groups| - 1;
      SplitGroups(groups[..m], names, vs, ns, ts) + GroupSubmeshes(groups[m], At(names, m), vs, ns, ts)
  }

  /** One pass of the `i` loop of `splitMesh` for the index `idx`: a vertex not yet in the
      table is entered with the table's size as its compact index and its three position,
      three normal and two texture components are pushed (the `j` loop); then its compact
      index is pushed. */
  method ReindexVertex(indexMap: map<int, int>, pv: seq<real>, pn: seq<real>, pt: seq<Option<real>>, pi: seq<int>,
                       idx: int, vs: seq<real>, ns: seq<real>, ts: seq<real>)
    returns (indexMap': map<int, int>, pv': seq<real>, pn': seq<real>, pt': seq<Option<real>>, pi': seq<int>)
    requires InRange(idx, vs, ns)
    ensures Remap(indexMap', pv', pn', pt', pi') == RemapStep(Remap(indexMap, pv, pn, pt, pi), idx, vs, ns, ts)
  {
    indexMap', pv', pn', pt' := indexMap, pv, pn, pt;
    if idx !in indexMap {
      indexMap' := indexMap[idx := |indexMap|];
      var j := 0;
      while j < 3
        invariant j <= 3
        invariant pv' == pv + vs[3 * idx..3 * idx + j] && pn' == pn + ns[3 * idx..3 * idx + j]
        invariant pt' == pt + [At(ts, 2 * idx), At(ts, 2 * idx + 1)][..if j < 2 then j else 2]
      {
        assert vs[3 * idx..3 * idx + j + 1] == vs[3 * idx..3 * idx + j] + [vs[3 * idx + j]];
        assert ns[3 * idx..3 * idx + j + 1] == ns[3 * idx..3 * idx + j] + [ns[3 * idx + j]];
        pv' := pv' + [vs[3 * idx + j]];
        pn' := pn' + [ns[3 * idx + j]];
        if j < 2 {
          pt' := pt' + [At(ts, 2 * idx + j)];
        }
        j := j + 1;
      }
    }
    pi' := pi + [indexMap'[idx]];
  }

  /** The `i` loop of `splitMesh`: re-indexes the positions `offset` up to (not including)
      `offset + 65535` of `indices`, as far as there are any, into a fresh submesh. */
  method ReindexWindow(indices: seq<int>, offset: nat, name: Option<string>, vs: seq<real>, ns: seq<real>, ts: seq<real>)
    returns (sub: Submesh)
    requires AllInRange(indices, vs, ns) && offset <= |indices|
    ensures sub == ToSubmesh(RemapWindow(indices[offset..MinNat(offset + 65535, |indices|)], vs, ns, ts), name)
  {
    var indexMap: map<int, int> := map[];
    var pv: seq<real>, pn: seq<real>, pt: seq<Option<real>>, pi: seq<int> := [], [], [], [];
    var i := 0;
    while i < 65535 && offset + i < |indices|
      invariant i <= 65535 && offset + i <= |indices|
      invariant Reindexed(indices, offset, i, vs, ns, ts, Remap(indexMap, pv, pn, pt, pi))
    {
      var idx := indices[offset + i];
      RemapWindowSnoc(indices, offset, i, vs, ns, ts);
      indexMap, pv, pn, pt, pi := ReindexVertex(indexMap, pv, pn, pt, pi, idx, vs, ns, ts);
      i := i + 1;
    }
    sub := Submesh(pv, pn, pt, pi, [name]);
  }

  /** The `i` loop's state after the positions `offset` up to `offset + i`. */
  ghost predicate Reindexed(indices: seq<int>, offset: nat, i: nat, vs: seq<real>, ns: seq<real>, ts: seq<real>, r: Remap) {
    && AllInRange(indices, vs, ns) && offset + i <= |indices|
    && AllInRange(indices[offset..offset + i], vs, ns)
    && r == RemapWindow(indices[offset..offset + i], vs, ns, ts)
  }

  lemma RemapWindowSnoc(indices: seq<int>, offset: nat, i: nat, vs: seq<real>, ns: seq<real>, ts: seq<real>)
    requires AllInRange(indices, vs, ns) && offset + i < |indices|
    ensures AllInRange(indices[offset..offset + i + 1], vs, ns)
    ensures RemapWindow(indices[offset..offset + i + 1], vs, ns, ts)
         == RemapStep(RemapWindow(indices[offset..offset + i], vs, ns, ts), indices[offset + i], vs, ns, ts)
  {
    var w := indices[offset..offset + i + 1];
    assert forall j :: 0 <= j < |w| ==> w[j] == indices[offset + j];
    assert w[..i] == indices[offset..offset + i];
  }

  /** The `offset` loop of `splitMesh` for one material group. */
  method SplitGroup(indices: seq<int>, name: Option<string>, vs: seq<real>, ns: seq<real>, ts: seq<real>)
    returns (subs: seq<Submesh>)
    requires AllInRange(indices, vs, ns)
    ensures subs == GroupSubmeshes(indices, name, vs, ns, ts)
  {
    ghost var all := GroupSubmeshes(indices, name, vs, ns, ts);
    subs := [];
    var offset := 0;
    ghost var k := 0;
    while offset < |indices|
      invariant offset == 65535 * k && k <= WindowCount(|indices|)
      invariant subs == all[..k]
    {
      WindowStart(|indices|, k);
      assert Window(indices, k) == indices[offset..MinNat(offset + 65535, |indices|)];
      var sub := ReindexWindow(indices, offset, name, vs, ns, ts);
      subs := subs + [sub];
      offset := offset + 65535;
      k := k + 1;
    }
    WindowStart(|indices|, k);
  }

  /** `splitMesh`. The source reads every index of every group as a vertex and a normal,
      so the mesh must have them (all loaders of the project produce such meshes). */
  method SplitMesh(mesh: Mesh) returns (meshes: seq<Submesh>)
    requires GroupsInRange(mesh.indicesPerMaterial, mesh.vertices, mesh.vertexNormals)
    ensures meshes == SplitGroups(mesh.indicesPerMaterial, mesh.materialNames, mesh.vertices, mesh.vertexNormals, mesh.textures)
  {
    ghost var groups := mesh.indicesPerMaterial;
    var vs, ns, ts := mesh.vertices, mesh.vertexNormals, mesh.textures;
    meshes := [];
    var materialIndex := 0;
    while materialIndex < |mesh.indicesPerMaterial|
      invariant materialIndex <= |groups|
      invariant meshes == SplitGroups(groups[..materialIndex], mesh.materialNames, vs, ns, ts)
    {
      var subs := SplitGroup(mesh.indicesPerMaterial[materialIndex], At(mesh.materialNames, materialIndex), vs, ns, ts);
      meshes := meshes + subs;
      assert groups[..materialIndex + 1][..materialIndex] == groups[..materialIndex];
      materialIndex := materialIndex + 1;
    }
    assert groups[..materialIndex] == groups;
  }

  // ---------------------------------------------------------------------------------
  // Properties of splitMesh
  // ---------------------------------------------------------------------------------

  /** The outer loop runs ceil(len / 65535) times; an empty group yields no submesh. */
  lemma WindowCountIsCeiling(len: nat)
    ensures 65535 * WindowCount(len) >= len
    ensures len > 0 ==> 65535 * (WindowCount(len) - 1) < len
    ensures WindowCount(len) == 0 <==> len == 0
  {
  }

  lemma WindowAt(g: seq<int>, k: nat, i: nat)
    requires k < WindowCount(|g|) && i < |Window(g, k)|
    ensures 65535 * k + i < |g| && Window(g, k)[i] == g[65535 * k + i]
  {
    WindowStart(|g|, k);
  }

  /** Every window holds at most 65535 positions, and since 65535 = 3 * 21845 a group made of
      whole triangles is cut only between triangles. */
  lemma WindowShape(g: seq<int>, k: nat)
    requires k < WindowCount(|g|)
    ensures 0 < |Window(g, k)| <= 65535
    ensures |g| % 3 == 0 ==> |Window(g, k)| % 3 == 0
  {
    WindowStart(|g|, k);
    if |g| % 3 == 0 && |Window(g, k)| != 65535 {
      var q := |g| / 3;
      assert |g| == 3 * q;
      assert |Window(g, k)| == 3 * (q - 21845 * k);
    }
  }

  function Flatten(ws: seq<seq<int>>): seq<int> {
    if ws == [] then [] else Flatten(ws[..|ws| - 1]) + ws[|ws| - 1]
  }

  function Windows(g: seq<int>): (ws: seq<seq<int>>)
    ensures |ws| == WindowCount(|g|)
  {
    seq(WindowCount(|g|), k requires 0 <= k < WindowCount(|g|) => Window(g, k))
  }

  /** The first `m` windows are exactly the first 65535 * m positions of the group. */
  lemma {:induction false} WindowsPrefix(g: seq<int>, m: nat)
    requires m <= WindowCount(|g|)
    ensures Flatten(Windows(g)[..m]) == g[..MinNat(65535 * m, |g|)]
  {
    if m > 0 {
      var ws := Windows(g);
      assert ws[..m][..m - 1] == ws[..m - 1];
      WindowsPrefix(g, m - 1);
      WindowStart(|g|, m - 1);
      var lo, hi := 65535 * (m - 1), MinNat(65535 * m, |g|);
      assert g[..hi] == g[..lo] + g[lo..hi];
    }
  }

  /** The windows cover the group: concatenated in order, they give back every position. */
  lemma WindowsCover(g: seq<int>)
    ensures Flatten(Windows(g)) == g
  {
    var n := WindowCount(|g|);
    WindowsPrefix(g, n);
    WindowCountIsCeiling(|g|);
    assert Windows(g)[..n] == Windows(g);
  }

  /** The distinct entries of `w` in order of first appearance. */
  function FirstSeen(w: seq<int>): (d: seq<int>)
    ensures |d| <= |w|
    ensures forall x :: x in d <==> x in w
    ensures forall i, j :: 0 <= i < j < |d| ==> d[i] != d[j]
  {
    if w == [] then []
    else
      var d := FirstSeen(w[..|w| - 1]);
      var x := w[|w| - 1];
      assert w == w[..|w| - 1] + [x];
      if x in d then d else d + [x]
  }

  /** Compact slot `c` of `r` holds the position, normal and texture coordinates that
      the source mesh stores for vertex `x`. */
  ghost predicate Copied(r: Remap, c: int, x: int, vs: seq<real>, ns: seq<real>, ts: seq<real>) {
    && 0 <= c && 0 <= x
    && 3 * c + 3 <= |r.vertices| && 3 * c + 3 <= |r.vertexNormals| && 2 * c + 2 <= |r.textures|
    && 3 * x + 3 <= |vs| && 3 * x + 3 <= |ns|
    && r.vertices[3 * c..3 * c + 3] == vs[3 * x..3 * x + 3]
    && r.vertexNormals[3 * c..3 * c + 3] == ns[3 * x..3 * x + 3]
    && r.textures[2 * c..2 * c + 2] == [At(ts, 2 * x), At(ts, 2 * x + 1)]
  }

  /** `r` numbers the distinct vertices `d`: vertex d[c] has compact index c and its data
      sits in compact slot c. */
  ghost predicate Numbered(r: Remap, d: seq<int>, vs: seq<real>, ns: seq<real>, ts: seq<real>) {
    && |r.indexMap| == |d|
    && (forall x :: x in r.indexMap <==> x in d)
    && (forall c :: 0 <= c < |d| ==> r.indexMap[d[c]] == c)
    && |r.vertices| == 3 * |d| && |r.vertexNormals| == 3 * |d| && |r.textures| == 2 * |d|
    && (forall c :: 0 <= c < |d| ==> Copied(r, c, d[c], vs, ns, ts))
  }

  lemma SliceOfPrefix<T>(a: seq<T>, b: seq<T>, lo: nat, hi: nat)
    requires lo <= hi <= |a|
    ensures (a + b)[lo..hi] == a[lo..hi]
  {
  }

  /** Copying more data after the filled slots keeps what those slots hold. */
  lemma CopiedKept(r: Remap, r2: Remap, c: nat, x: int, vs: seq<real>, ns: seq<real>, ts: seq<real>,
                   pv: seq<real>, pn: seq<real>, pt: seq<Option<real>>)
    requires Copied(r, c, x, vs, ns, ts)
    requires r2.vertices == r.vertices + pv && r2.vertexNormals == r.vertexNormals + pn && r2.textures == r.textures + pt
    ensures Copied(r2, c, x, vs, ns, ts)
  {
    SliceOfPrefix(r.vertices, pv, 3 * c, 3 * c + 3);
    SliceOfPrefix(r.vertexNormals, pn, 3 * c, 3 * c + 3);
    SliceOfPrefix(r.textures, pt, 2 * c, 2 * c + 2);
  }

  /** One step of the inner loop keeps the numbering, extended by the vertex if it is new. */
  lemma StepNumbered(r: Remap, d: seq<int>, x: int, vs: seq<real>, ns: seq<real>, ts: seq<real>)
    requires Numbered(r, d, vs, ns, ts) && InRange(x, vs, ns)
    ensures Numbered(RemapStep(r, x, vs, ns, ts), if x in d then d else d + [x], vs, ns, ts)
  {
    if x in d {
      StepSeen(r, d, x, vs, ns, ts);
    } else {
      StepFresh(r, d, x, vs, ns, ts);
    }
  }

  lemma StepSeen(r: Remap, d: seq<int>, x: int, vs: seq<real>, ns: seq<real>, ts: seq<real>)
    requires Numbered(r, d, vs, ns, ts) && InRange(x, vs, ns) && x in d
    ensures Numbered(RemapStep(r, x, vs, ns, ts), d, vs, ns, ts)
  {
    var r2 := RemapStep(r, x, vs, ns, ts);
    forall c | 0 <= c < |d| ensures Copied(r2, c, d[c], vs, ns, ts) {
      assert Copied(r, c, d[c], vs, ns, ts);
    }
  }

  lemma StepFresh(r: Remap, d: seq<int>, x: int, vs: seq<real>, ns: seq<real>, ts: seq<real>)
    requires Numbered(r, d, vs, ns, ts) && InRange(x, vs, ns) && x !in d
    ensures Numbered(RemapStep(r, x, vs, ns, ts), d + [x], vs, ns, ts)
  {
    var r2 := RemapStep(r, x, vs, ns, ts);
    var c0 := |d|;
    var d2 := d + [x];
    var pv, pn, pt := vs[3 * x..3 * x + 3], ns[3 * x..3 * x + 3], [At(ts, 2 * x), At(ts, 2 * x + 1)];
    assert r2 == Remap(r.indexMap[x := c0], r.vertices + pv, r.vertexNormals + pn, r.textures + pt, r.indices + [c0]);
    forall c | 0 <= c < |d2| ensures r2.indexMap[d2[c]] == c {
      if c < c0 { assert d2[c] == d[c] && d[c] != x; }
    }
    forall c | 0 <= c < c0 ensures Copied(r2, c, d2[c], vs, ns, ts) {
      assert d2[c] == d[c];
      CopiedKept(r, r2, c, d[c], vs, ns, ts, pv, pn, pt);
    }
    CopiedFresh(r, r2, c0, x, vs, ns, ts, pv, pn, pt);
  }

  /** The slot right after the filled ones receives the new vertex's data. */
  lemma CopiedFresh(r: Remap, r2: Remap, c: nat, x: int, vs: seq<real>, ns: seq<real>, ts: seq<real>,
                    pv: seq<real>, pn: seq<real>, pt: seq<Option<real>>)
    requires InRange(x, vs, ns)
    requires |r.vertices| == 3 * c && |r.vertexNormals| == 3 * c && |r.textures| == 2 * c
    requires pv == vs[3 * x..3 * x + 3] && pn == ns[3 * x..3 * x + 3] && pt == [At(ts, 2 * x), At(ts, 2 * x + 1)]
    requires r2.vertices == r.vertices + pv && r2.vertexNormals == r.vertexNormals + pn && r2.textures == r.textures + pt
    ensures Copied(r2, c, x, vs, ns, ts)
  {
    assert r2.vertices[3 * c..3 * c + 3] == pv;
    assert r2.vertexNormals[3 * c..3 * c + 3] == pn;
    assert r2.textures[2 * c..2 * c + 2] == pt;
  }

  /** The remap table of a window numbers the window's distinct vertices in order of first
      appearance (a new vertex gets the table's size), and compact slot c holds the data of
      the c-th distinct vertex. */
  lemma {:induction false} RemapWindowIsFirstSeen(w: seq<int>, vs: seq<real>, ns: seq<real>, ts: seq<real>)
    requires AllInRange(w, vs, ns)
    ensures Numbered(RemapWindow(w, vs, ns, ts), FirstSeen(w), vs, ns, ts)
  {
    if w != [] {
      var w', x := w[..|w| - 1], w[|w| - 1];
      assert AllInRange(w', vs, ns) by {
        forall i | 0 <= i < |w'| ensures InRange(w'[i], vs, ns) { assert w'[i] == w[i]; }
      }
      RemapWindowIsFirstSeen(w', vs, ns, ts);
      var r', d' := RemapWindow(w', vs, ns, ts), FirstSeen(w');
      StepNumbered(r', d', x, vs, ns, ts);
      assert RemapWindow(w, vs, ns, ts) == RemapStep(r', x, vs, ns, ts);
      assert FirstSeen(w) == if x in d' then d' else d' + [x];
    }
  }

  /** Every position of a window is rewritten to its vertex's entry in the remap table. */
  lemma {:induction false} RemapWindowIndices(w: seq<int>, vs: seq<real>, ns: seq<real>, ts: seq<real>)
    requires AllInRange(w, vs, ns)
    ensures var r := RemapWindow(w, vs, ns, ts);
      && |r.indices| == |w|
      && (forall i :: 0 <= i < |w| ==> w[i] in r.indexMap && r.indices[i] == r.indexMap[w[i]])
  {
    if w != [] {
      var w', x := w[..|w| - 1], w[|w| - 1];
      assert AllInRange(w', vs, ns) by {
        forall i | 0 <= i < |w'| ensures InRange(w'[i], vs, ns) { assert w'[i] == w[i]; }
      }
      RemapWindowIndices(w', vs, ns, ts);
      var r' := RemapWindow(w', vs, ns, ts);
      var r := RemapWindow(w, vs, ns, ts);
      assert r == RemapStep(r', x, vs, ns, ts);
      forall i | 0 <= i < |w| ensures w[i] in r.indexMap && r.indices[i] == r.indexMap[w[i]] {
        if i < |w'| {
          assert w[i] == w'[i];
          assert r.indices[i] == r'.indices[i];
        }
      }
    }
  }

  /** Un-remapping: through its compact index, every position of a window still reaches the
      original vertex, normal and texture coordinates; two positions share a compact index
      exactly when they name the same vertex, and every compact index fits in 16 bits. */
  lemma Unremap(w: seq<int>, vs: seq<real>, ns: seq<real>, ts: seq<real>)
    requires AllInRange(w, vs, ns) && |w| <= 65535
    ensures var r := RemapWindow(w, vs, ns, ts);
      && |r.indices| == |w|
      && (forall i :: 0 <= i < |w| ==> r.indices[i] < 65535 && Copied(r, r.indices[i], w[i], vs, ns, ts))
      && (forall i, j :: 0 <= i < |w| && 0 <= j < |w| ==> (r.indices[i] == r.indices[j] <==> w[i] == w[j]))
  {
    var r, d := RemapWindow(w, vs, ns, ts), FirstSeen(w);
    RemapWindowIsFirstSeen(w, vs, ns, ts);
    RemapWindowIndices(w, vs, ns, ts);
    forall i | 0 <= i < |w| ensures r.indices[i] < 65535 && Copied(r, r.indices[i], w[i], vs, ns, ts) {
      var c :| 0 <= c < |d| && d[c] == w[i];
      assert r.indices[i] == c;
      assert Copied(r, c, d[c], vs, ns, ts);
    }
    forall i, j | 0 <= i < |w| && 0 <= j < |w| ensures r.indices[i] == r.indices[j] <==> w[i] == w[j] {
      var c :| 0 <= c < |d| && d[c] == w[i];
      var e :| 0 <= e < |d| && d[e] == w[j];
      assert r.indices[i] == c && r.indices[j] == e;
    }
  }

  /** Number of submeshes the first `|groups|` material groups give. */
  function SubmeshCount(groups: seq<seq<int>>): nat {
    if groups == [] then 0 else SubmeshCount(groups[..|groups| - 1]) + WindowCount(|groups[|groups| - 1]|)
  }

  lemma {:induction false} SplitGroupsPrefix(groups: seq<seq<int>>, names: seq<string>, vs: seq<real>, ns: seq<real>, ts: seq<real>, m: nat)
    requires GroupsInRange(groups, vs, ns) && m <= |groups|
    ensures |SplitGroups(groups, names, vs, ns, ts)| == SubmeshCount(groups)
    ensures GroupsInRange(groups[..m], vs, ns)
    ensures SplitGroups(groups[..m], names, vs, ns, ts) <= SplitGroups(groups, names, vs, ns, ts)
    ensures SubmeshCount(groups[..m]) <= SubmeshCount(groups)
    decreases |groups|
  {
    assert GroupsInRange(groups[..m], vs, ns) by {
      forall g | 0 <= g < m ensures AllInRange(groups[..m][g], vs, ns) { assert groups[..m][g] == groups[g]; }
    }
    if groups != [] {
      var k := |groups| - 1;
      assert GroupsInRange(groups[..k], vs, ns) by {
        forall g | 0 <= g < k ensures AllInRange(groups[..k][g], vs, ns) { assert groups[..k][g] == groups[g]; }
      }
      if m == |groups| {
        assert groups[..m] == groups;
        SplitGroupsPrefix(groups[..k], names, vs, ns, ts, k);
      } else {
        assert groups[..k][..m] == groups[..m];
        SplitGroupsPrefix(groups[..k], names, vs, ns, ts, m);
      }
    }
  }

  /** Submeshes come group after group and, within a group, window after window: the
      `k`-th submesh of group `g` sits at position SubmeshCount(groups[..g]) + k. There are
      ceil(len / 65535) submeshes per group, and each names only its group's material. */
  lemma SplitGroupsLayout(groups: seq<seq<int>>, names: seq<string>, vs: seq<real>, ns: seq<real>, ts: seq<real>, g: nat, k: nat)
    requires GroupsInRange(groups, vs, ns) && g < |groups| && k < WindowCount(|groups[g]|)
    ensures SubmeshCount(groups[..g]) + k < |SplitGroups(groups, names, vs, ns, ts)|
    ensures SplitGroups(groups, names, vs, ns, ts)[SubmeshCount(groups[..g]) + k]
         == ToSubmesh(RemapWindow(Window(groups[g], k), vs, ns, ts), At(names, g))
    ensures SplitGroups(groups, names, vs, ns, ts)[SubmeshCount(groups[..g]) + k].materialNames == [At(names, g)]
  {
    SplitGroupsPrefix(groups, names, vs, ns, ts, g + 1);
    SplitGroupsPrefix(groups, names, vs, ns, ts, g);
    var p := groups[..g + 1];
    assert p[..g] == groups[..g];
    assert p[g] == groups[g];
    assert SubmeshCount(p) == SubmeshCount(groups[..g]) + WindowCount(|groups[g]|);
    SplitGroupsPrefix(p, names, vs, ns, ts, g);
  }

  /** The k-th submesh of group g: at most 65535 indices, each below 65535, and through each
      of them the data of the original vertex the group names at that position. */
  lemma SplitSubmesh(groups: seq<seq<int>>, names: seq<string>, vs: seq<real>, ns: seq<real>, ts: seq<real>, g: nat, k: nat)
    requires GroupsInRange(groups, vs, ns) && g < |groups| && k < WindowCount(|groups[g]|)
    ensures SubmeshCount(groups[..g]) + k < |SplitGroups(groups, names, vs, ns, ts)|
    ensures var sub := SplitGroups(groups, names, vs, ns, ts)[SubmeshCount(groups[..g]) + k];
      var grp := groups[g];
      && |sub.indices| == MinNat(65535, |grp| - 65535 * k)
      && forall i :: 0 <= i < |sub.indices| ==>
           && 0 <= sub.indices[i] < 65535
           && 3 * sub.indices[i] + 3 <= |sub.vertices|
           && 3 * sub.indices[i] + 3 <= |sub.vertexNormals|
           && 2 * sub.indices[i] + 2 <= |sub.textures|
           && sub.vertices[3 * sub.indices[i]..3 * sub.indices[i] + 3] == vs[3 * grp[65535 * k + i]..3 * grp[65535 * k + i] + 3]
           && sub.vertexNormals[3 * sub.indices[i]..3 * sub.indices[i] + 3] == ns[3 * grp[65535 * k + i]..3 * grp[65535 * k + i] + 3]
           && sub.textures[2 * sub.indices[i]..2 * sub.indices[i] + 2] == [At(ts, 2 * grp[65535 * k + i]), At(ts, 2 * grp[65535 * k + i] + 1)]
  {
    SplitGroupsLayout(groups, names, vs, ns, ts, g, k);
    var w := Window(groups[g], k);
    assert AllInRange(w, vs, ns) by {
      forall i | 0 <= i < |w| ensures InRange(w[i], vs, ns) { WindowAt(groups[g], k, i); }
    }
    WindowShape(groups[g], k);
    Unremap(w, vs, ns, ts);
    var r := RemapWindow(w, vs, ns, ts);
    forall i | 0 <= i < |r.indices| ensures Copied(r, r.indices[i], groups[g][65535 * k + i], vs, ns, ts) {
      WindowAt(groups[g], k, i);
    }
  }
}

