/** The line parser of `loadAsciiStl`: every line is trimmed and split on single spaces,
    and only `facet` and `vertex` lines change the mesh. */
module StlAscii {
  import opened Js

  /** What the parser fills: positions, per-vertex normals and the one index group. */
  datatype AsciiMesh = AsciiMesh(vertices: seq<real>, vertexNormals: seq<real>, indices: seq<int>)

  /** `line.trim().split(" ")`. */
  function Tokens(line: string): (t: seq<string>)
    ensures |t| >= 1
  {
    Split(Trim(line), ' ')
  }

  /** `tokens[i]` as `Number.parseFloat` sees it: a missing token is `undefined`, which
      `parseFloat` converts to the string "undefined" before parsing. */
  function Arg(tokens: seq<string>, i: nat): string {
    if i < |tokens| then tokens[i] else "undefined"
  }

  predicate IsFacet(line: string) {
    Tokens(line)[0] == "facet"
  }

  predicate IsVertex(line: string) {
    Tokens(line)[0] == "vertex"
  }

  /** One pass of the `forEach` body. `facet` pushes three indices numbered from the
      current vertex count and the normal read from tokens 2, 4 and 3, three times;
      `vertex` pushes the position read from tokens 1, 3 and 2; any other line is skipped. */
  function ParseLine(m: AsciiMesh, line: string, parseFloat: string -> real): AsciiMesh {
    var tokens := Tokens(line);
    if tokens[0] == "facet" then
      var base := |m.vertices| / 3;
      var x, y, z := parseFloat(Arg(tokens, 2)), parseFloat(Arg(tokens, 4)), parseFloat(Arg(tokens, 3));
      m.(indices := m.indices + [base, base + 1, base + 2],
         vertexNormals := m.vertexNormals + [x, y, z, x, y, z, x, y, z])
    else if tokens[0] == "vertex" then
      m.(vertices := m.vertices + [parseFloat(Arg(tokens, 1)), parseFloat(Arg(tokens, 3)), parseFloat(Arg(tokens, 2))])
    else m
  }

  /** Number of `facet` lines. */
  function Facets(lines: seq<string>): nat {
    if lines == [] then 0
    else Facets(lines[..|lines| - 1]) + (if IsFacet(lines[|lines| - 1]) then 1 else 0)
  }

  /** Number of `vertex` lines. */
  function VertexLines(lines: seq<string>): nat {
    if lines == [] then 0
    else VertexLines(lines[..|lines| - 1]) + (if IsVertex(lines[|lines| - 1]) then 1 else 0)
  }

  /** The mesh after the `forEach` has visited `lines`. Each vertex line adds one position,
      each facet line one normal per corner and three indices; in particular the vertex
      count `vertices.length / 3` the source divides out is always a whole number. */
  function ParseLines(lines: seq<string>, parseFloat: string -> real): (m: AsciiMesh)
    ensures |m.vertices| == 3 * VertexLines(lines)
    ensures |m.vertexNormals| == 9 * Facets(lines) && |m.indices| == 3 * Facets(lines)
  {
    if lines == [] then AsciiMesh([], [], [])
    else ParseLine(ParseLines(lines[..|lines| - 1], parseFloat), lines[|lines| - 1], parseFloat)
  }

  lemma ParseLinesSnoc(lines: seq<string>, line: string, parseFloat: string -> real)
    ensures ParseLines(lines + [line], parseFloat) == ParseLine(ParseLines(lines, parseFloat), line, parseFloat)
  {
    assert (lines + [line])[..|lines|] == lines;
  }

  lemma ParseLinesPrefix(lines: seq<string>, i: nat, parseFloat: string -> real)
    requires i < |lines|
    ensures ParseLines(lines[..i + 1], parseFloat) == ParseLine(ParseLines(lines[..i], parseFloat), lines[i], parseFloat)
  {
    assert lines[..i + 1][..i] == lines[..i];
  }

  /** The `forEach` body for one line, on the mesh's three arrays. */
  method ReadLine(line: string, parseFloat: string -> real,
                  vertices: seq<real>, vertexNormals: seq<real>, indices: seq<int>)
    returns (vertices': seq<real>, vertexNormals': seq<real>, indices': seq<int>)
    ensures AsciiMesh(vertices', vertexNormals', indices')
         == ParseLine(AsciiMesh(vertices, vertexNormals, indices), line, parseFloat)
  {
    vertices', vertexNormals', indices' := vertices, vertexNormals, indices;
    var tokens := Tokens(line);
    if tokens[0] == "facet" {
      var base := |vertices| / 3;
      indices' := indices + [base, base + 1, base + 2];
      var x := parseFloat(Arg(tokens, 2));
      var y := parseFloat(Arg(tokens, 4));
      var z := parseFloat(Arg(tokens, 3));
      vertexNormals' := vertexNormals + [x, y, z, x, y, z, x, y, z];
    } else if tokens[0] == "vertex" {
      var x := parseFloat(Arg(tokens, 1));
      var y := parseFloat(Arg(tokens, 3));
      var z := parseFloat(Arg(tokens, 2));
      vertices' := vertices + [x, y, z];
    }
  }

  /** The `forEach` of `loadAsciiStl` over `data.split("\n")`. */
  method ReadAscii(data: string, parseFloat: string -> real)
    returns (vertices: seq<real>, vertexNormals: seq<real>, indices: seq<int>)
    ensures AsciiMesh(vertices, vertexNormals, indices) == ParseLines(Split(data, '\n'), parseFloat)
  {
    var lines := Split(data, '\n');
    vertices, vertexNormals, indices := [], [], [];
    var i := 0;
    while i < |lines|
      invariant i <= |lines|
      invariant AsciiMesh(vertices, vertexNormals, indices) == ParseLines(lines[..i], parseFloat)
    {
      ParseLinesPrefix(lines, i, parseFloat);
      vertices, vertexNormals, indices := ReadLine(lines[i], parseFloat, vertices, vertexNormals, indices);
      i := i + 1;
    }
    assert lines[..i] == lines;
  }

  // ---------------------------------------------------------------------------------
  // Properties of the line parser
  // ---------------------------------------------------------------------------------

  /** The line `vertex x y z` (the tokens joined by single spaces) stores the point
      (x, z, y): the file's y and z are swapped. */
  lemma VertexLineSwapsYZ(m: AsciiMesh, x: string, y: string, z: string, parseFloat: string -> real)
    requires ' ' !in x && ' ' !in y && ' ' !in z && z != "" && !IsSpace(z[|z| - 1])
    ensures ParseLine(m, Join(["vertex", x, y, z], ' '), parseFloat)
         == m.(vertices := m.vertices + [parseFloat(x), parseFloat(z), parseFloat(y)])
  {
    var pieces := ["vertex", x, y, z];
    JoinLast(pieces, ' ');
    SplitOfJoin(pieces, ' ');
    TrimOfTrimmed(Join(pieces, ' '));
  }

  /** The line `facet normal a b c` gives each of the facet's three vertices the normal
      (a, c, b) and numbers them from the current vertex count. */
  lemma FacetLineSwapsYZ(m: AsciiMesh, a: string, b: string, c: string, parseFloat: string -> real)
    requires ' ' !in a && ' ' !in b && ' ' !in c && c != "" && !IsSpace(c[|c| - 1])
    ensures var base := |m.vertices| / 3;
      var nx, ny, nz := parseFloat(a), parseFloat(c), parseFloat(b);
      ParseLine(m, Join(["facet", "normal", a, b, c], ' '), parseFloat)
      == m.(indices := m.indices + [base, base + 1, base + 2],
            vertexNormals := m.vertexNormals + [nx, ny, nz, nx, ny, nz, nx, ny, nz])
  {
    var pieces := ["facet", "normal", a, b, c];
    JoinLast(pieces, ' ');
    SplitOfJoin(pieces, ' ');
    TrimOfTrimmed(Join(pieces, ' '));
  }

  /** The `facet` and `vertex` lines, in file order. */
  function Commands(lines: seq<string>): (c: seq<string>)
    ensures |c| <= |lines|
  {
    if lines == [] then []
    else
      var l := lines[|lines| - 1];
      Commands(lines[..|lines| - 1]) + (if IsFacet(l) || IsVertex(l) then [l] else [])
  }

  /** Every line other than `facet` and `vertex` (`solid`, `outer loop`, `endloop`,
      `endfacet`, blank lines, anything else) is ignored: parsing only the command lines
      gives the same mesh. */
  lemma {:induction false} OnlyCommandsMatter(lines: seq<string>, parseFloat: string -> real)
    ensures ParseLines(lines, parseFloat) == ParseLines(Commands(lines), parseFloat)
  {
    if lines != [] {
      var p, l := lines[..|lines| - 1], lines[|lines| - 1];
      OnlyCommandsMatter(p, parseFloat);
      if IsFacet(l) || IsVertex(l) {
        assert Commands(lines) == Commands(p) + [l];
        ParseLinesSnoc(Commands(p), l, parseFloat);
      } else {
        assert Commands(lines) == Commands(p);
        OtherLine(ParseLines(p, parseFloat), l, parseFloat);
      }
    }
  }

  lemma OtherLine(m: AsciiMesh, line: string, parseFloat: string -> real)
    requires !IsFacet(line) && !IsVertex(line)
    ensures ParseLine(m, line, parseFloat) == m
  {
  }

  /** Facets and vertex lines nest as in a well-formed file: each `facet` line comes once
      every earlier facet has had its three `vertex` lines, and each `vertex` line belongs
      to a facet that has not had three yet. */
  predicate Nested(lines: seq<string>) {
    lines == [] ||
    var p, l := lines[..|lines| - 1], lines[|lines| - 1];
    && Nested(p)
    && (IsFacet(l) ==> VertexLines(p) == 3 * Facets(p))
    && (IsVertex(l) ==> VertexLines(p) < 3 * Facets(p))
  }

  /** Nested, and the last facet is complete: exactly three vertex lines per facet. */
  predicate WellFormed(lines: seq<string>) {
    Nested(lines) && VertexLines(lines) == 3 * Facets(lines)
  }

  /** In nested input the index list is 0, 1, ..., 3 n - 1 for n facets. */
  lemma {:induction false} NestedIndices(lines: seq<string>, parseFloat: string -> real, k: nat)
    requires Nested(lines) && k < 3 * Facets(lines)
    ensures ParseLines(lines, parseFloat).indices[k] == k
  {
    var p, l := lines[..|lines| - 1], lines[|lines| - 1];
    var m := ParseLines(p, parseFloat);
    if k < 3 * Facets(p) {
      NestedIndices(p, parseFloat, k);
      assert ParseLines(lines, parseFloat).indices[k] == m.indices[k];
    } else {
      FacetIndicesPushed(m, l, parseFloat, 3 * Facets(p), k - 3 * Facets(p));
    }
  }

  /** A facet line pushes the indices b, b + 1 and b + 2 for b = vertices.length / 3. */
  lemma FacetIndicesPushed(m: AsciiMesh, line: string, parseFloat: string -> real, b: int, c: nat)
    requires IsFacet(line) && |m.vertices| == 3 * b && |m.indices| == b && c < 3
    ensures |ParseLine(m, line, parseFloat).indices| == b + 3
    ensures ParseLine(m, line, parseFloat).indices[b + c] == b + c
  {
  }

  /** In a well-formed file every vertex has a position and a normal, and every index
      names one of them: the mesh can be split without reading past its arrays. */
  lemma WellFormedInRange(lines: seq<string>, parseFloat: string -> real)
    requires WellFormed(lines)
    ensures var m := ParseLines(lines, parseFloat);
      && |m.vertices| == |m.vertexNormals| == 3 * |m.indices|
      && forall k :: 0 <= k < |m.indices| ==> m.indices[k] == k && 3 * m.indices[k] + 3 <= |m.vertices|
  {
    var m := ParseLines(lines, parseFloat);
    forall k | 0 <= k < |m.indices|
      ensures m.indices[k] == k
    {
      NestedIndices(lines, parseFloat, k);
    }
  }
}
