/** The `Mtl` constructor of src/utils/models/mtl.ts: a line-by-line parser of Wavefront
    material libraries that fills a `Map` from material names to partially filled records. */
module Mtl {
  import opened Js
  import WebGl

  /** A material record. A field the file never set is absent (`None`): the record starts as
      `{} as Material`. */
  datatype Material = Material(
    ambient: Option<seq<real>>, diffuse: Option<seq<real>>, specular: Option<seq<real>>,
    ambientMap: Option<string>, diffuseMap: Option<string>, specularMap: Option<string>)

  /** `{} as Material`. */
  const Blank := Material(None, None, None, None, None, None)

  /** The six properties a line can set. */
  datatype Field = Ambient | Diffuse | Specular | AmbientMap | DiffuseMap | SpecularMap

  /** What a property holds: colour components or a texture path. */
  datatype Value = Numbers(xs: seq<real>) | Path(p: string)

  /** The lower-case command that sets a field. */
  function CommandOf(f: Field): string {
    match f
    case Ambient => "ka"
    case Diffuse => "kd"
    case Specular => "ks"
    case AmbientMap => "map_ka"
    case DiffuseMap => "map_kd"
    case SpecularMap => "map_ks"
  }

  /** The `case` labels of the `switch`, other than `newmtl`. */
  function FieldOf(command: string): (f: Option<Field>)
    ensures f.Some? ==> command == CommandOf(f.value)
    ensures f.None? ==> forall g: Field :: command != CommandOf(g)
  {
    if command == "ka" then Some(Ambient)
    else if command == "kd" then Some(Diffuse)
    else if command == "ks" then Some(Specular)
    else if command == "map_kd" then Some(DiffuseMap)
    else if command == "map_ka" then Some(AmbientMap)
    else if command == "map_ks" then Some(SpecularMap)
    else None
  }

  /** `args.map(parseFloat)`. */
  function Floats(args: seq<string>, parseFloat: string -> real): (xs: seq<real>)
    ensures |xs| == |args| && forall i :: 0 <= i < |args| ==> xs[i] == parseFloat(args[i])
  {
    seq(|args|, i requires 0 <= i < |args| => parseFloat(args[i]))
  }

  /** What the line with arguments `args` stores in field `f`: every argument parsed as a
      number for a colour, the arguments joined by single spaces for a texture map. */
  function ValueOf(f: Field, args: seq<string>, parseFloat: string -> real): Value {
    if f == Ambient || f == Diffuse || f == Specular then Numbers(Floats(args, parseFloat))
    else Path(Join(args, ' '))
  }

  /** The value of field `f`, if set. */
  function Get(m: Material, f: Field): Option<Value> {
    match f
    case Ambient => if m.ambient.Some? then Some(Numbers(m.ambient.value)) else None
    case Diffuse => if m.diffuse.Some? then Some(Numbers(m.diffuse.value)) else None
    case Specular => if m.specular.Some? then Some(Numbers(m.specular.value)) else None
    case AmbientMap => if m.ambientMap.Some? then Some(Path(m.ambientMap.value)) else None
    case DiffuseMap => if m.diffuseMap.Some? then Some(Path(m.diffuseMap.value)) else None
    case SpecularMap => if m.specularMap.Some? then Some(Path(m.specularMap.value)) else None
  }

  /** The assignment `this.materials.get(currentMaterial)!.<field> = ...`. */
  function Assign(m: Material, f: Field, args: seq<string>, parseFloat: string -> real): (r: Material)
    ensures Get(r, f) == Some(ValueOf(f, args, parseFloat))
    ensures forall g :: g != f ==> Get(r, g) == Get(m, g)
  {
    match f
    case Ambient => m.(ambient := Some(Floats(args, parseFloat)))
    case Diffuse => m.(diffuse := Some(Floats(args, parseFloat)))
    case Specular => m.(specular := Some(Floats(args, parseFloat)))
    case AmbientMap => m.(ambientMap := Some(Join(args, ' ')))
    case DiffuseMap => m.(diffuseMap := Some(Join(args, ' ')))
    case SpecularMap => m.(specularMap := Some(Join(args, ' ')))
  }

  /** A key of the map: `newmtl` with no name uses the key `undefined` (None). */
  type Key = Option<string>

  /** `if (currentMaterial)`: `null`, `undefined` and the empty string are falsy. */
  predicate Truthy(k: Key) {
    k.Some? && k.value != ""
  }

  /** The parser's state: the map (its entries, and its keys in insertion order, which is the
      order `entries()` visits them) and the `currentMaterial` register. */
  datatype State = State(materials: map<Key, Material>, keys: seq<Key>, current: Key)

  /** `keys` lists the map's keys. */
  ghost predicate Ordered(materials: map<Key, Material>, keys: seq<Key>) {
    forall k :: k in materials <==> k in keys
  }

  /** No key is listed twice. */
  predicate Distinct(keys: seq<Key>) {
    keys == [] || (keys[|keys| - 1] !in keys[..|keys| - 1] && Distinct(keys[..|keys| - 1]))
  }

  /** The invariant of the line loop: a truthy register names an entry, so the `!` of
      `get(currentMaterial)!` never fails. */
  ghost predicate Consistent(s: State) {
    Ordered(s.materials, s.keys) && (Truthy(s.current) ==> s.current in s.materials)
  }

  /** `new Map()`, and `currentMaterial = null`. */
  const Start := State(map[], [], None)

  /** `map.set(k, m)`: a new key goes to the end of the order, an existing one keeps its place. */
  function Put(s: State, k: Key, m: Material): (r: State)
    requires Ordered(s.materials, s.keys)
    ensures Ordered(r.materials, r.keys) && r.current == s.current
  {
    s.(materials := s.materials[k := m], keys := if k in s.materials then s.keys else s.keys + [k])
  }

  /** `line.split('#')[0].trim()`. */
  function Cleaned(line: string): string {
    Trim(Before(line, '#'))
  }

  /** `cleanedLine.split(/\s+/)`: the command and its arguments. */
  function Tokens(line: string): (t: seq<string>)
    ensures |t| >= 1
  {
    SplitSpaces(Cleaned(line))
  }

  /** `parts[0].toLowerCase()`. */
  function Command(line: string): string {
    Lower(Tokens(line)[0])
  }

  /** `parts.slice(1)`. */
  function Args(line: string): seq<string> {
    Tokens(line)[1..]
  }

  predicate IsNewmtl(line: string) {
    Cleaned(line) != "" && Command(line) == "newmtl"
  }

  /** `args[0]` of a `newmtl` line. */
  function NameOf(line: string): Key {
    At(Args(line), 0)
  }

  /** One pass of the `for` body: a line that is blank once cleaned is skipped (`continue`),
      any other is dispatched on its command. */
  function Step(s: State, line: string, parseFloat: string -> real): (r: State)
    requires Consistent(s)
    ensures Consistent(r)
  {
    if Cleaned(line) == "" then s else Act(s, Command(line), Args(line), parseFloat)
  }

  /** The `switch (command)`. */
  function Act(s: State, command: string, args: seq<string>, parseFloat: string -> real): (r: State)
    requires Consistent(s)
    ensures Consistent(r)
  {
    if command == "newmtl" then
      var name := At(args, 0);
      Put(s, name, Blank).(current := name)
    else match FieldOf(command)
      case None => s
      case Some(f) =>
        if Truthy(s.current) then Put(s, s.current, Assign(s.materials[s.current], f, args, parseFloat))
        else s
  }

  /** The state after the loop has visited `lines`. */
  function ParseLines(lines: seq<string>, parseFloat: string -> real): (s: State)
    ensures Consistent(s)
  {
    if lines == [] then Start
    else Step(ParseLines(lines[..|lines| - 1], parseFloat), lines[|lines| - 1], parseFloat)
  }

  /** `new Mtl(objectData)`. */
  function Parse(objectData: string, parseFloat: string -> real): State {
    ParseLines(Split(objectData, '\n'), parseFloat)
  }

  lemma ParseLinesPrefix(lines: seq<string>, i: nat, parseFloat: string -> real)
    requires i < |lines|
    ensures ParseLines(lines[..i + 1], parseFloat) == Step(ParseLines(lines[..i], parseFloat), lines[i], parseFloat)
  {
    assert lines[..i + 1][..i] == lines[..i];
  }

  /** An `Mtl` object, with the `textures` map `initMtlTextures` adds to it. */
  class Mtl {
    var materials: map<Key, Material>
    var keys: seq<Key>
    var textures: map<Key, WebGl.Texture>

    ghost predicate Valid()
      reads this
    {
      Ordered(materials, keys)
    }

    /** The constructor: the `for` loop over `objectData.split("\n")`. The `textures` map
        starts empty; `initMtlTextures` is not part of this model. */
    constructor (objectData: string, parseFloat: string -> real)
      ensures materials == Parse(objectData, parseFloat).materials
      ensures keys == Parse(objectData, parseFloat).keys
      ensures textures == map[] && Valid()
    {
      materials, keys, textures := map[], [], map[];
      new;
      var currentMaterial: Key := None;
      var lines := Split(objectData, '\n');
      for i := 0 to |lines|
        invariant State(materials, keys, currentMaterial) == ParseLines(lines[..i], parseFloat)
        invariant textures == map[]
      {
        ParseLinesPrefix(lines, i, parseFloat);
        currentMaterial := ReadLine(lines[i], currentMaterial, parseFloat);
      }
      assert lines[..|lines|] == lines;
    }

    /** One line: `continue` on a blank line, else the `switch` on its command, where the six
        property cases share one shape (`if (currentMaterial)` and one field assignment). */
    method ReadLine(line: string, currentMaterial: Key, parseFloat: string -> real) returns (current: Key)
      requires Consistent(State(materials, keys, currentMaterial))
      modifies this
      ensures State(materials, keys, current) == Step(State(old(materials), old(keys), currentMaterial), line, parseFloat)
      ensures textures == old(textures)
    {
      current := currentMaterial;
      var cleanedLine := Cleaned(line);
      if cleanedLine == "" {
        return;
      }
      var parts := SplitSpaces(cleanedLine);
      var command := Lower(parts[0]);
      var args := parts[1..];
      if command == "newmtl" {
        current := At(args, 0);
        Set(current, Blank);
      } else {
        var field := FieldOf(command);
        if field.Some? && Truthy(current) {
          Set(current, Assign(materials[current], field.value, args, parseFloat));
        }
      }
    }

    /** `this.materials.set(k, m)`. */
    method Set(k: Key, m: Material)
      requires Valid()
      modifies this
      ensures materials == old(materials)[k := m]
      ensures keys == if k in old(materials) then old(keys) else old(keys) + [k]
      ensures textures == old(textures) && Valid()
    {
      if k !in materials {
        keys := keys + [k];
      }
      materials := materials[k := m];
      assert Ordered(Put(State(old(materials), old(keys), None), k, m).materials, keys);
    }
  }

  // ---------------------------------------------------------------------------------
  // Lines
  // ---------------------------------------------------------------------------------

  /** A token as it can stand in a file: non-empty, no white space, no comment sign. */
  predicate Token(w: string) {
    IsWord(w) && '#' !in w
  }

  /** The line `lead`, the tokens separated by the white-space runs `gaps`, `trail`, and an
      optional comment. */
  function Layout(lead: string, pieces: seq<string>, gaps: seq<string>, trail: string, comment: string): string
    requires |pieces| >= 1 && |gaps| == |pieces| - 1
  {
    lead + Spaced(pieces, gaps) + trail + comment
  }

  /** Comment stripping and trimming leave the tokens and the runs between them, and splitting
      on white space recovers the tokens. */
  lemma LineTokens(lead: string, pieces: seq<string>, gaps: seq<string>, trail: string, comment: string)
    requires |pieces| >= 1 && |gaps| == |pieces| - 1 && AreGaps(gaps)
    requires forall i :: 0 <= i < |pieces| ==> Token(pieces[i])
    requires AllSpace(lead) && AllSpace(trail) && (comment == "" || comment[0] == '#')
    ensures var line := Layout(lead, pieces, gaps, trail, comment);
      Cleaned(line) == Spaced(pieces, gaps) && Cleaned(line) != "" && Tokens(line) == pieces
  {
    var body := Spaced(pieces, gaps);
    forall i | 0 <= i < |gaps|
      ensures '#' !in gaps[i]
    {
      SpacesAvoid(gaps[i], '#');
    }
    SpacedAvoids(pieces, gaps, '#');
    SpacesAvoid(lead, '#');
    SpacesAvoid(trail, '#');
    BeforeFirst(lead + body + trail, '#', comment);
    assert Token(pieces[0]) && Token(pieces[|pieces| - 1]);
    SpacedEnds(pieces, gaps);
    TrimPadded(lead, body, trail);
    SplitSpacesOfSpaced(pieces, gaps);
  }

  // ---------------------------------------------------------------------------------
  // Properties of one line
  // ---------------------------------------------------------------------------------

  /** Whatever follows the first `#`, the white space around the line and the width of the
      runs between tokens do not matter: a line means what its tokens joined by single spaces
      mean. */
  lemma LayoutIgnored(s: State, lead: string, pieces: seq<string>, gaps: seq<string>, trail: string,
                      comment: string, parseFloat: string -> real)
    requires Consistent(s)
    requires |pieces| >= 1 && |gaps| == |pieces| - 1 && AreGaps(gaps)
    requires forall i :: 0 <= i < |pieces| ==> Token(pieces[i])
    requires AllSpace(lead) && AllSpace(trail) && (comment == "" || comment[0] == '#')
    ensures Step(s, Layout(lead, pieces, gaps, trail, comment), parseFloat) == Step(s, Join(pieces, ' '), parseFloat)
  {
    var line := Layout(lead, pieces, gaps, trail, comment);
    LineTokens(lead, pieces, gaps, trail, comment);
    JoinTokens(pieces);
    SameTokens(s, line, Join(pieces, ' '), parseFloat);
  }

  /** Two lines with the same tokens do the same. */
  lemma SameTokens(s: State, l1: string, l2: string, parseFloat: string -> real)
    requires Consistent(s) && Cleaned(l1) != "" && Cleaned(l2) != "" && Tokens(l1) == Tokens(l2)
    ensures Step(s, l1, parseFloat) == Step(s, l2, parseFloat)
  {
    assert Command(l1) == Command(l2) && Args(l1) == Args(l2);
  }

  /** Tokens joined by single spaces are what the line splits into. */
  lemma JoinTokens(pieces: seq<string>)
    requires |pieces| >= 1 && forall i :: 0 <= i < |pieces| ==> Token(pieces[i])
    ensures Cleaned(Join(pieces, ' ')) != "" && Tokens(Join(pieces, ' ')) == pieces
  {
    var ones := seq(|pieces| - 1, _ => " ");
    assert AreGaps(ones);
    SpacedBySpaces(pieces);
    LineTokens("", pieces, ones, "", "");
    assert "" + Spaced(pieces, ones) + "" + "" == Spaced(pieces, ones);
  }

  /** A line that is blank once its comment is dropped changes nothing. */
  lemma BlankLineSkipped(s: State, line: string, parseFloat: string -> real)
    requires Consistent(s) && AllSpace(Before(line, '#'))
    ensures Step(s, line, parseFloat) == s
  {
    TrimSpec(Before(line, '#'));
  }

  /** Commands are case-insensitive: `Kd`, `KD` and `kd` lines do the same. */
  lemma CaseInsensitive(s: State, c1: string, c2: string, args: seq<string>, parseFloat: string -> real)
    requires Consistent(s) && Token(c1) && Token(c2) && Lower(c1) == Lower(c2)
    requires forall i :: 0 <= i < |args| ==> Token(args[i])
    ensures Step(s, Join([c1] + args, ' '), parseFloat) == Step(s, Join([c2] + args, ' '), parseFloat)
  {
    var l1, l2 := Join([c1] + args, ' '), Join([c2] + args, ' ');
    assert forall i :: 0 <= i < |[c1] + args| ==> Token(([c1] + args)[i]);
    assert forall i :: 0 <= i < |[c2] + args| ==> Token(([c2] + args)[i]);
    JoinTokens([c1] + args);
    JoinTokens([c2] + args);
    assert Command(l1) == Command(l2) && Args(l1) == Args(l2);
  }

  /** `newmtl name` makes `name` (or `undefined` without one) current and resets its entry to
      an empty record, discarding an earlier definition; nothing else changes, and a new name
      is added at the end of the key order. */
  lemma NewmtlResets(s: State, line: string, parseFloat: string -> real)
    requires Consistent(s) && IsNewmtl(line)
    ensures var r := Step(s, line, parseFloat);
      && r.current == NameOf(line) && r.current in r.materials && r.materials[r.current] == Blank
      && (forall k :: k != r.current ==> (k in r.materials <==> k in s.materials))
      && (forall k :: k != r.current && k in s.materials ==> r.materials[k] == s.materials[k])
      && r.keys == if r.current in s.materials then s.keys else s.keys + [r.current]
  {
  }

  /** With a truthy current name, a `Ka`/`Kd`/`Ks`/`map_*` line sets that field of the current
      entry to the value of its arguments, whatever was there before, and leaves every other
      field, every other entry, the key order and the register alone. */
  lemma PropertySet(s: State, line: string, f: Field, parseFloat: string -> real)
    requires Consistent(s) && Truthy(s.current) && Cleaned(line) != "" && Command(line) == CommandOf(f)
    ensures var r, args := Step(s, line, parseFloat), Tokens(line)[1..];
      && r.current == s.current && r.keys == s.keys && r.materials.Keys == s.materials.Keys
      && Get(r.materials[s.current], f) == Some(ValueOf(f, args, parseFloat))
      && (forall g :: g != f ==> Get(r.materials[s.current], g) == Get(s.materials[s.current], g))
      && (forall k :: k in s.materials && k != s.current ==> r.materials[k] == s.materials[k])
  {
    assert CommandOf(f) != "newmtl";
  }

  /** Before the first `newmtl` (or after a `newmtl` with no name) every other line is a no-op. */
  lemma NoCurrentNoChange(s: State, line: string, parseFloat: string -> real)
    requires Consistent(s) && !Truthy(s.current) && !IsNewmtl(line)
    ensures Step(s, line, parseFloat) == s
  {
  }

  /** A command that is none of the seven is ignored. */
  lemma UnknownIgnored(s: State, line: string, parseFloat: string -> real)
    requires Consistent(s) && Command(line) != "newmtl" && forall f: Field :: Command(line) != CommandOf(f)
    ensures Step(s, line, parseFloat) == s
  {
  }

  /** A line changes at most the register and the entry it leaves current: every other entry
      stays, with the same record, and no other key appears. */
  lemma StepScope(s: State, line: string, parseFloat: string -> real)
    requires Consistent(s)
    ensures var r := Step(s, line, parseFloat);
      && (forall k :: k in r.materials ==> k in s.materials || k == r.current)
      && (forall k :: k in s.materials && k != r.current ==> k in r.materials && r.materials[k] == s.materials[k])
      && (r.current != s.current ==> IsNewmtl(line))
  {
  }

  // ---------------------------------------------------------------------------------
  // Properties of a whole file
  // ---------------------------------------------------------------------------------

  /** The names of the `newmtl` lines. */
  function Names(lines: seq<string>): set<Key> {
    if lines == [] then {}
    else
      var l := lines[|lines| - 1];
      Names(lines[..|lines| - 1]) + if IsNewmtl(l) then {NameOf(l)} else {}
  }

  /** The keys of the map are exactly the names on `newmtl` lines. */
  lemma {:induction false} KeysAreNames(lines: seq<string>, parseFloat: string -> real)
    ensures ParseLines(lines, parseFloat).materials.Keys == Names(lines)
  {
    if lines != [] {
      var p, l := lines[..|lines| - 1], lines[|lines| - 1];
      KeysAreNames(p, parseFloat);
      var s := ParseLines(p, parseFloat);
      StepScope(s, l, parseFloat);
      if IsNewmtl(l) {
        NewmtlResets(s, l, parseFloat);
      } else if Cleaned(l) != "" && Truthy(s.current) && FieldOf(Command(l)).Some? {
        PropertySet(s, l, FieldOf(Command(l)).value, parseFloat);
      }
    }
  }

  /** Each key is listed once, in the order of the first `newmtl` line that names it. */
  lemma {:induction false} KeysDistinct(lines: seq<string>, parseFloat: string -> real)
    ensures Distinct(ParseLines(lines, parseFloat).keys)
  {
    if lines != [] {
      var p, l := lines[..|lines| - 1], lines[|lines| - 1];
      KeysDistinct(p, parseFloat);
      var s := ParseLines(p, parseFloat);
      var r := ParseLines(lines, parseFloat);
      StepKeys(s, l, parseFloat);
      if r.keys != s.keys {
        assert r.keys[..|r.keys| - 1] == s.keys;
      }
    }
  }

  /** A line adds at most one key, at the end, and only one the map did not have. */
  lemma StepKeys(s: State, line: string, parseFloat: string -> real)
    requires Consistent(s)
    ensures var r := Step(s, line, parseFloat);
      r.keys == s.keys || (r.keys == s.keys + [r.current] && r.current !in s.materials)
  {
  }

  /** A file without a `newmtl` line defines no material. */
  lemma {:induction false} NoNewmtlNoMaterials(lines: seq<string>, parseFloat: string -> real)
    requires forall i :: 0 <= i < |lines| ==> !IsNewmtl(lines[i])
    ensures ParseLines(lines, parseFloat) == Start
  {
    if lines != [] {
      var p := lines[..|lines| - 1];
      assert forall i :: 0 <= i < |p| ==> p[i] == lines[i];
      NoNewmtlNoMaterials(p, parseFloat);
      NoCurrentNoChange(Start, lines[|lines| - 1], parseFloat);
    }
  }

  /** A field no line sets stays absent in every material. */
  lemma {:induction false} UnsetFieldAbsent(lines: seq<string>, f: Field, parseFloat: string -> real)
    requires forall i :: 0 <= i < |lines| ==> Cleaned(lines[i]) == "" || Command(lines[i]) != CommandOf(f)
    ensures Absent(ParseLines(lines, parseFloat), f)
  {
    if lines != [] {
      var p, l := lines[..|lines| - 1], lines[|lines| - 1];
      assert forall i :: 0 <= i < |p| ==> p[i] == lines[i];
      UnsetFieldAbsent(p, f, parseFloat);
      StepKeepsAbsent(ParseLines(p, parseFloat), l, f, parseFloat);
    }
  }

  /** No material has field `f`. */
  ghost predicate Absent(s: State, f: Field) {
    forall k :: k in s.materials ==> Get(s.materials[k], f) == None
  }

  lemma StepKeepsAbsent(s: State, line: string, f: Field, parseFloat: string -> real)
    requires Consistent(s) && Absent(s, f)
    requires Cleaned(line) == "" || Command(line) != CommandOf(f)
    ensures Absent(Step(s, line, parseFloat), f)
  {
    StepScope(s, line, parseFloat);
    if IsNewmtl(line) {
      NewmtlResets(s, line, parseFloat);
    } else if Cleaned(line) != "" && Truthy(s.current) && FieldOf(Command(line)).Some? {
      var g := FieldOf(Command(line)).value;
      PropertySet(s, line, g, parseFloat);
      assert g != f;
    }
  }
}
