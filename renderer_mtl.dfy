/** The `Mtl` constructor of src/features/renderer/utils/mtl.ts, a copy of the parser in
    src/utils/models/mtl.ts whose records have one more field, `defaultTexture`. The line
    cleaning, tokens and commands are those of module Base. */
module RendererMtl {
  import opened Js
  import WebGl
  import Base = Mtl

  /** The renderer's material record: the six parsed properties and `defaultTexture`. */
  datatype Material = Material(
    ambient: Option<seq<real>>, diffuse: Option<seq<real>>, specular: Option<seq<real>>,
    ambientMap: Option<string>, diffuseMap: Option<string>, specularMap: Option<string>,
    defaultTexture: Option<WebGl.Texture>)

  /** `{} as Material`. */
  const Blank := Material(None, None, None, None, None, None, None)

  /** The assignment `this.materials.get(currentMaterial)!.<field> = ...`. */
  function Assign(m: Material, f: Base.Field, args: seq<string>, parseFloat: string -> real): (r: Material)
    ensures r.defaultTexture == m.defaultTexture
    ensures Forget(r) == Base.Assign(Forget(m), f, args, parseFloat)
  {
    match f
    case Ambient => m.(ambient := Some(Base.Floats(args, parseFloat)))
    case Diffuse => m.(diffuse := Some(Base.Floats(args, parseFloat)))
    case Specular => m.(specular := Some(Base.Floats(args, parseFloat)))
    case AmbientMap => m.(ambientMap := Some(Join(args, ' ')))
    case DiffuseMap => m.(diffuseMap := Some(Join(args, ' ')))
    case SpecularMap => m.(specularMap := Some(Join(args, ' ')))
  }

  datatype State = State(materials: map<Base.Key, Material>, keys: seq<Base.Key>, current: Base.Key)

  ghost predicate Consistent(s: State) {
    (forall k :: k in s.materials <==> k in s.keys) && (Base.Truthy(s.current) ==> s.current in s.materials)
  }

  const Start := State(map[], [], None)

  /** `map.set(k, m)`. */
  function Put(s: State, k: Base.Key, m: Material): (r: State)
    requires forall k :: k in s.materials <==> k in s.keys
    ensures (forall k :: k in r.materials <==> k in r.keys) && r.current == s.current
  {
    s.(materials := s.materials[k := m], keys := if k in s.materials then s.keys else s.keys + [k])
  }

  /** One pass of the `for` body. */
  function Step(s: State, line: string, parseFloat: string -> real): (r: State)
    requires Consistent(s)
    ensures Consistent(r)
  {
    if Base.Cleaned(line) == "" then s else Act(s, Base.Command(line), Base.Args(line), parseFloat)
  }

  /** The `switch (command)`. */
  function Act(s: State, command: string, args: seq<string>, parseFloat: string -> real): (r: State)
    requires Consistent(s)
    ensures Consistent(r)
  {
    if command == "newmtl" then
      var name := At(args, 0);
      Put(s, name, Blank).(current := name)
    else match Base.FieldOf(command)
      case None => s
      case Some(f) =>
        if Base.Truthy(s.current) then Put(s, s.current, Assign(s.materials[s.current], f, args, parseFloat))
        else s
  }

  function ParseLines(lines: seq<string>, parseFloat: string -> real): (s: State)
    ensures Consistent(s)
  {
    if lines == [] then Start
    else Step(ParseLines(lines[..|lines| - 1], parseFloat), lines[|lines| - 1], parseFloat)
  }

  function Parse(objectData: string, parseFloat: string -> real): State {
    ParseLines(Split(objectData, '\n'), parseFloat)
  }

  lemma ParseLinesPrefix(lines: seq<string>, i: nat, parseFloat: string -> real)
    requires i < |lines|
    ensures ParseLines(lines[..i + 1], parseFloat) == Step(ParseLines(lines[..i], parseFloat), lines[i], parseFloat)
  {
    assert lines[..i + 1][..i] == lines[..i];
  }

  /** The renderer's `Mtl` object. */
  class Mtl {
    var materials: map<Base.Key, Material>
    var keys: seq<Base.Key>
    var textures: map<Base.Key, WebGl.Texture>

    ghost predicate Valid()
      reads this
    {
      forall k :: k in materials <==> k in keys
    }

    constructor (objectData: string, parseFloat: string -> real)
      ensures materials == Parse(objectData, parseFloat).materials
      ensures keys == Parse(objectData, parseFloat).keys
      ensures textures == map[] && Valid()
    {
      materials, keys, textures := map[], [], map[];
      new;
      var currentMaterial: Base.Key := None;
      var lines := Split(objectData, '\n');
      for i := 0 to |lines|
        invariant State(materials, keys, currentMaterial) == ParseLines(lines[..i], parseFloat)
        invariant textures == map[]
      {
        ParseLinesPrefix(lines, i, parseFloat);
        currentMaterial := ReadLine(lines[i], currentMaterial, parseFloat);
      }
      assert lines[..|lines|] == lines;
    }

    method ReadLine(line: string, currentMaterial: Base.Key, parseFloat: string -> real) returns (current: Base.Key)
      requires Consistent(State(materials, keys, currentMaterial))
      modifies this
      ensures State(materials, keys, current) == Step(State(old(materials), old(keys), currentMaterial), line, parseFloat)
      ensures textures == old(textures)
    {
      current := currentMaterial;
      var cleanedLine := Base.Cleaned(line);
      if cleanedLine == "" {
        return;
      }
      var parts := SplitSpaces(cleanedLine);
      var command := Lower(parts[0]);
      var args := parts[1..];
      if command == "newmtl" {
        current := At(args, 0);
        Set(current, Blank);
      } else {
        var field := Base.FieldOf(command);
        if field.Some? && Base.Truthy(current) {
          Set(current, Assign(materials[current], field.value, args, parseFloat));
        }
      }
    }

    method Set(k: Base.Key, m: Material)
      requires Valid()
      modifies this
      ensures materials == old(materials)[k := m]
      ensures keys == if k in old(materials) then old(keys) else old(keys) + [k]
      ensures textures == old(textures) && Valid()
    {
      if k !in materials {
        keys := keys + [k];
      }
      materials := materials[k := m];
    }
  }

  // ---------------------------------------------------------------------------------
  // The two parsers agree
  // ---------------------------------------------------------------------------------

  /** A renderer record without its `defaultTexture`. */
  function Forget(m: Material): Base.Material {
    Base.Material(m.ambient, m.diffuse, m.specular, m.ambientMap, m.diffuseMap, m.specularMap)
  }

  function ForgetAll(s: State): Base.State {
    Base.State(ForgetMap(s.materials), s.keys, s.current)
  }

  function ForgetMap(ms: map<Base.Key, Material>): map<Base.Key, Base.Material> {
    map k | k in ms :: Forget(ms[k])
  }

  lemma ForgetUpdate(ms: map<Base.Key, Material>, k: Base.Key, m: Material)
    ensures ForgetMap(ms[k := m]) == ForgetMap(ms)[k := Forget(m)]
  {
    var a, b := ForgetMap(ms[k := m]), ForgetMap(ms)[k := Forget(m)];
    assert a.Keys == b.Keys;
    forall j | j in a
      ensures a[j] == b[j]
    {
    }
  }

  lemma PutAgrees(s: State, k: Base.Key, m: Material)
    requires forall k :: k in s.materials <==> k in s.keys
    ensures ForgetAll(Put(s, k, m)) == Base.Put(ForgetAll(s), k, Forget(m))
  {
    ForgetUpdate(s.materials, k, m);
    assert k in s.materials <==> k in ForgetMap(s.materials);
  }

  /** One line does the same to both maps. */
  lemma StepAgrees(s: State, line: string, parseFloat: string -> real)
    requires Consistent(s)
    ensures Base.Consistent(ForgetAll(s))
    ensures ForgetAll(Step(s, line, parseFloat)) == Base.Step(ForgetAll(s), line, parseFloat)
  {
    if Base.Cleaned(line) != "" {
      var command, args := Base.Command(line), Base.Args(line);
      if command == "newmtl" {
        PutAgrees(s, At(args, 0), Blank);
      } else if Base.FieldOf(command).Some? && Base.Truthy(s.current) {
        var f := Base.FieldOf(command).value;
        PutAgrees(s, s.current, Assign(s.materials[s.current], f, args, parseFloat));
      }
    }
  }

  /** On every input the renderer's parser yields the same map as the other one, up to the
      `defaultTexture` field, in the same key order. */
  lemma {:induction false} SameMaterials(lines: seq<string>, parseFloat: string -> real)
    ensures ForgetAll(ParseLines(lines, parseFloat)) == Base.ParseLines(lines, parseFloat)
  {
    if lines != [] {
      var p := lines[..|lines| - 1];
      SameMaterials(p, parseFloat);
      StepAgrees(ParseLines(p, parseFloat), lines[|lines| - 1], parseFloat);
    } else {
      assert ForgetAll(Start).materials == map[];
    }
  }

  predicate NoDefaults(s: State) {
    forall k :: k in s.materials ==> s.materials[k].defaultTexture == None
  }

  lemma StepKeepsNoDefaults(s: State, line: string, parseFloat: string -> real)
    requires Consistent(s) && NoDefaults(s)
    ensures NoDefaults(Step(s, line, parseFloat))
  {
    if Base.Cleaned(line) != "" {
      ActKeepsNoDefaults(s, Base.Command(line), Base.Args(line), parseFloat);
    }
  }

  lemma ActKeepsNoDefaults(s: State, command: string, args: seq<string>, parseFloat: string -> real)
    requires Consistent(s) && NoDefaults(s)
    ensures NoDefaults(Act(s, command, args, parseFloat))
  {
    if command != "newmtl" && Base.FieldOf(command).Some? && Base.Truthy(s.current) {
      var m := Assign(s.materials[s.current], Base.FieldOf(command).value, args, parseFloat);
      assert Act(s, command, args, parseFloat).materials == s.materials[s.current := m];
    }
  }

  /** The parser never sets `defaultTexture`. */
  lemma {:induction false} NoDefaultTexture(lines: seq<string>, parseFloat: string -> real)
    ensures NoDefaults(ParseLines(lines, parseFloat))
  {
    if lines != [] {
      NoDefaultTexture(lines[..|lines| - 1], parseFloat);
      StepKeepsNoDefaults(ParseLines(lines[..|lines| - 1], parseFloat), lines[|lines| - 1], parseFloat);
    }
  }

  /** The two constructors fill the same `materials` map and key order from the same text. */
  lemma SameParse(objectData: string, parseFloat: string -> real)
    ensures var r, m := Parse(objectData, parseFloat), Base.Parse(objectData, parseFloat);
      && r.keys == m.keys && r.materials.Keys == m.materials.Keys
      && forall k :: k in r.materials ==> Forget(r.materials[k]) == m.materials[k]
  {
    SameMaterials(Split(objectData, '\n'), parseFloat);
  }
}
