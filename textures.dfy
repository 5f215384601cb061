/** `loadTextures`: every uploaded file whose name equals a material's `diffuse_map` gets a fresh
    texture, stored under that material's name in the `textures` map. */
module Textures {
  import opened Js
  import WebGl
  import Mtl

  /** The observable state of one run: the `textures` map and how many handles the context
      has created. */
  datatype Loading = Loading(textures: map<Mtl.Key, WebGl.Texture>, created: nat)

  /** Every key iterated over names a material. */
  predicate Covers(keys: seq<Mtl.Key>, materials: map<Mtl.Key, Mtl.Material>) {
    forall i :: 0 <= i < |keys| ==> keys[i] in materials
  }

  /** The inner loop for one file, over the materials in insertion order. */
  function LoadFile(l: Loading, keys: seq<Mtl.Key>, materials: map<Mtl.Key, Mtl.Material>, file: WebGl.File): Loading
    requires Covers(keys, materials)
  {
    if keys == [] then l
    else
      var p := LoadFile(l, keys[..|keys| - 1], materials, file);
      var k := keys[|keys| - 1];
      if materials[k].diffuseMap == Some(file.name) then
        Loading(p.textures[k := WebGl.Texture(p.created, file)], p.created + 1)
      else p
  }

  /** The outer loop, over the files in order. */
  function LoadAll(l: Loading, files: seq<WebGl.File>, keys: seq<Mtl.Key>, materials: map<Mtl.Key, Mtl.Material>): Loading
    requires Covers(keys, materials)
  {
    if files == [] then l
    else LoadFile(LoadAll(l, files[..|files| - 1], keys, materials), keys, materials, files[|files| - 1])
  }

  /** The last file, in upload order, whose name is `diffuseMap`. */
  function LastMatch(files: seq<WebGl.File>, diffuseMap: Option<string>): (r: Option<nat>)
    ensures r.Some? ==> (r.value < |files| && Some(files[r.value].name) == diffuseMap
                         && forall j :: r.value < j < |files| ==> Some(files[j].name) != diffuseMap)
    ensures r.None? ==> forall j :: 0 <= j < |files| ==> Some(files[j].name) != diffuseMap
  {
    if files == [] then None
    else if Some(files[|files| - 1].name) == diffuseMap then Some(|files| - 1)
    else LastMatch(files[..|files| - 1], diffuseMap)
  }

  method LoadTextures(gl: WebGl.Context, files: seq<WebGl.File>, mtl: Mtl.Mtl)
    requires mtl.Valid()
    modifies gl, mtl
    ensures mtl.materials == old(mtl.materials) && mtl.keys == old(mtl.keys)
    ensures Covers(mtl.keys, mtl.materials)
    ensures Loading(mtl.textures, gl.created)
         == LoadAll(Loading(old(mtl.textures), old(gl.created)), files, mtl.keys, mtl.materials)
  {
    assert Covers(mtl.keys, mtl.materials);
    ghost var start := Loading(mtl.textures, gl.created);
    for i := 0 to |files|
      invariant mtl.materials == old(mtl.materials) && mtl.keys == old(mtl.keys)
      invariant Loading(mtl.textures, gl.created) == LoadAll(start, files[..i], mtl.keys, mtl.materials)
    {
      assert files[..i + 1][..i] == files[..i];
      var fileName := files[i].name;
      for j := 0 to |mtl.keys|
        invariant mtl.materials == old(mtl.materials) && mtl.keys == old(mtl.keys)
        invariant Loading(mtl.textures, gl.created)
               == LoadFile(LoadAll(start, files[..i], mtl.keys, mtl.materials), mtl.keys[..j], mtl.materials, files[i])
      {
        assert mtl.keys[..j + 1][..j] == mtl.keys[..j];
        var materialName := mtl.keys[j];
        var material := mtl.materials[materialName];
        if material.diffuseMap == Some(fileName) {
          var texture := gl.LoadTexture(files[i]);
          mtl.textures := mtl.textures[materialName := texture];
        }
      }
      assert mtl.keys[..|mtl.keys|] == mtl.keys;
    }
    assert files[..|files|] == files;
  }

  // ---------------------------------------------------------------------------------
  // What one run does to each entry
  // ---------------------------------------------------------------------------------

  /** One file: a material whose `diffuse_map` is the file's name gets a handle made during
      this pass; every other entry is left as it was. */
  lemma {:induction false} LoadFileEntry(l: Loading, keys: seq<Mtl.Key>, materials: map<Mtl.Key, Mtl.Material>,
                                         file: WebGl.File, k: Mtl.Key)
    requires Covers(keys, materials)
    ensures var r := LoadFile(l, keys, materials, file);
      && l.created <= r.created
      && if k in keys && materials[k].diffuseMap == Some(file.name)
         then k in r.textures && r.textures[k].file == file && l.created <= r.textures[k].serial < r.created
         else (k in r.textures <==> k in l.textures) && (k in l.textures ==> r.textures[k] == l.textures[k])
  {
    if keys != [] {
      var front := keys[..|keys| - 1];
      assert Covers(front, materials);
      LoadFileEntry(l, front, materials, file, k);
      assert k in keys <==> k in front || k == keys[|keys| - 1];
    }
  }

  /** All files: a material gets the last matching file's image in a handle made during the
      run; a material no file matches, and every key that names no material, keeps its entry. */
  lemma {:induction false} LoadAllEntry(l: Loading, files: seq<WebGl.File>, keys: seq<Mtl.Key>,
                                        materials: map<Mtl.Key, Mtl.Material>, k: Mtl.Key)
    requires Covers(keys, materials)
    ensures var r := LoadAll(l, files, keys, materials);
      && l.created <= r.created
      && if k in keys && LastMatch(files, materials[k].diffuseMap).Some?
         then k in r.textures && r.textures[k].file == files[LastMatch(files, materials[k].diffuseMap).value]
           && l.created <= r.textures[k].serial < r.created
         else (k in r.textures <==> k in l.textures) && (k in l.textures ==> r.textures[k] == l.textures[k])
  {
    if files != [] {
      var front := files[..|files| - 1];
      LoadAllEntry(l, front, keys, materials, k);
      LoadFileEntry(LoadAll(l, front, keys, materials), keys, materials, files[|files| - 1], k);
    }
  }

  // ---------------------------------------------------------------------------------
  // Consequences
  // ---------------------------------------------------------------------------------

  /** A material's entry is replaced by a handle of this run exactly when some file's name
      equals its `diffuse_map`. */
  lemma ReplacedIffMatched(l: Loading, files: seq<WebGl.File>, keys: seq<Mtl.Key>,
                           materials: map<Mtl.Key, Mtl.Material>, k: Mtl.Key)
    requires Covers(keys, materials) && k in keys
    requires Issued(l)
    ensures var r := LoadAll(l, files, keys, materials);
      (k in r.textures && r.textures[k].serial >= l.created)
      <==> exists i :: 0 <= i < |files| && Some(files[i].name) == materials[k].diffuseMap
  {
    LoadAllEntry(l, files, keys, materials, k);
    var m := LastMatch(files, materials[k].diffuseMap);
    if m.Some? {
      assert Some(files[m.value].name) == materials[k].diffuseMap;
    }
  }

  /** When several files match, the last one wins. */
  lemma LastFileWins(l: Loading, files: seq<WebGl.File>, keys: seq<Mtl.Key>,
                     materials: map<Mtl.Key, Mtl.Material>, k: Mtl.Key, i: nat)
    requires Covers(keys, materials) && k in keys
    requires i < |files| && Some(files[i].name) == materials[k].diffuseMap
    requires forall j :: i < j < |files| ==> Some(files[j].name) != materials[k].diffuseMap
    ensures var r := LoadAll(l, files, keys, materials);
      k in r.textures && r.textures[k].file == files[i]
  {
    LoadAllEntry(l, files, keys, materials, k);
    var m := LastMatch(files, materials[k].diffuseMap);
    assert m.Some?;
    assert m.value == i;
  }

  /** Materials that share a `diffuse_map` show the same image once some file matches it. */
  lemma SharedMapSameFile(l: Loading, files: seq<WebGl.File>, keys: seq<Mtl.Key>,
                          materials: map<Mtl.Key, Mtl.Material>, k1: Mtl.Key, k2: Mtl.Key)
    requires Covers(keys, materials) && k1 in keys && k2 in keys
    requires materials[k1].diffuseMap == materials[k2].diffuseMap
    requires exists i :: 0 <= i < |files| && Some(files[i].name) == materials[k1].diffuseMap
    ensures var r := LoadAll(l, files, keys, materials);
      k1 in r.textures && k2 in r.textures && r.textures[k1].file == r.textures[k2].file
  {
    LoadAllEntry(l, files, keys, materials, k1);
    LoadAllEntry(l, files, keys, materials, k2);
  }

  /** `textures` gains no key that names no material. */
  lemma OnlyMaterialKeys(l: Loading, files: seq<WebGl.File>, keys: seq<Mtl.Key>,
                         materials: map<Mtl.Key, Mtl.Material>)
    requires Covers(keys, materials)
    ensures var r := LoadAll(l, files, keys, materials);
      forall k :: k in r.textures ==> k in l.textures || k in materials
  {
    var r := LoadAll(l, files, keys, materials);
    forall k | k in r.textures
      ensures k in l.textures || k in materials
    {
      LoadAllEntry(l, files, keys, materials, k);
    }
  }

  /** Every handle in the map was created before the count. */
  ghost predicate Issued(l: Loading) {
    forall k :: k in l.textures ==> l.textures[k].serial < l.created
  }

  /** No two names share a handle created from `from` on. */
  ghost predicate Unshared(textures: map<Mtl.Key, WebGl.Texture>, from: nat) {
    forall k1, k2 :: k1 in textures && k2 in textures && k1 != k2 && textures[k1].serial >= from
      ==> textures[k1].serial != textures[k2].serial
  }

  lemma {:induction false} LoadFileFresh(l: Loading, keys: seq<Mtl.Key>, materials: map<Mtl.Key, Mtl.Material>,
                                         file: WebGl.File, from: nat)
    requires Covers(keys, materials) && Issued(l) && Unshared(l.textures, from) && from <= l.created
    ensures var r := LoadFile(l, keys, materials, file);
      Issued(r) && Unshared(r.textures, from) && l.created <= r.created
  {
    if keys != [] {
      var front := keys[..|keys| - 1];
      assert Covers(front, materials);
      LoadFileFresh(l, front, materials, file, from);
    }
  }

  /** `createTexture` hands out a new object on every call, so no two materials end up
      sharing a handle made during the run. */
  lemma {:induction false} FreshHandles(l: Loading, files: seq<WebGl.File>, keys: seq<Mtl.Key>,
                                        materials: map<Mtl.Key, Mtl.Material>)
    requires Covers(keys, materials) && Issued(l)
    ensures var r := LoadAll(l, files, keys, materials);
      Issued(r) && Unshared(r.textures, l.created) && l.created <= r.created
  {
    if files == [] {
      assert Unshared(l.textures, l.created);
    } else {
      var front := files[..|files| - 1];
      FreshHandles(l, front, keys, materials);
      LoadFileFresh(LoadAll(l, front, keys, materials), keys, materials, files[|files| - 1], l.created);
    }
  }

  /** No uploaded file, no change. */
  lemma NoFilesNoChange(l: Loading, keys: seq<Mtl.Key>, materials: map<Mtl.Key, Mtl.Material>)
    requires Covers(keys, materials)
    ensures LoadAll(l, [], keys, materials) == l
  {
  }
}
