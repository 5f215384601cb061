/** The `lighting` slice of the store: the PBR material and the two lights the shader reads,
    written one uniform component at a time by `updateStructUniform`. */
module Lighting {
  import opened Js

  datatype Material = Material(albedo: seq<real>, metallic: real, roughness: real, ao: real)
  datatype DirLight = DirLight(direction: seq<real>, color: seq<real>)
  datatype PointLight = PointLight(position: seq<real>, color: seq<real>)
  datatype Lighting = Lighting(material: Material, dirLight: DirLight, pointLight: PointLight)

  /** `initialState`. */
  const Initial := Lighting(
    Material([0.75, 0.75, 0.75], 0.04, 0.2, 0.05),
    DirLight([-0.1, -0.1, -0.1], [0.9, 0.9, 0.9]),
    PointLight([-1.0, 0.0, 0.0], [0.9, 0.9, 0.9]))

  /** The payload's `parentKey` and `key`; the type of `key` admits the keys of all three groups. */
  datatype Parent = MaterialGroup | DirLightGroup | PointLightGroup
  datatype Key = Albedo | Metallic | Roughness | Ao | Direction | Color | Position

  datatype Action = Action(parentKey: Parent, key: Key, index: int, value: real)

  /** Where a payload lands. A scalar key of `material` is set whatever `index` is; a key that
      `material` lacks is set on it as a new, unread property (Stray); a key the chosen light
      lacks makes `undefined[index] = value` throw (Throws). */
  datatype Place =
    | AlbedoSlot | MetallicValue | RoughnessValue | AoValue
    | PointPositionSlot | PointColorSlot | DirDirectionSlot | DirColorSlot
    | Stray | Throws

  function PlaceOf(parentKey: Parent, key: Key): (p: Place)
    ensures p == Throws <==> (|| (parentKey == PointLightGroup && !(key == Position || key == Color))
                              || (parentKey == DirLightGroup && !(key == Direction || key == Color)))
    ensures p == Stray <==> parentKey == MaterialGroup && (key == Direction || key == Color || key == Position)
  {
    if parentKey.MaterialGroup? then
      match key
      case Albedo => AlbedoSlot
      case Metallic => MetallicValue
      case Roughness => RoughnessValue
      case Ao => AoValue
      case _ => Stray
    else if parentKey.PointLightGroup? then
      match key
      case Position => PointPositionSlot
      case Color => PointColorSlot
      case _ => Throws
    else
      match key
      case Direction => DirDirectionSlot
      case Color => DirColorSlot
      case _ => Throws
  }

  /** The array a place indexes, if it is an array slot. */
  function Slots(s: Lighting, p: Place): Option<seq<real>> {
    match p
    case AlbedoSlot => Some(s.material.albedo)
    case PointPositionSlot => Some(s.pointLight.position)
    case PointColorSlot => Some(s.pointLight.color)
    case DirDirectionSlot => Some(s.dirLight.direction)
    case DirColorSlot => Some(s.dirLight.color)
    case _ => None
  }

  /** The index is a slot of the array written, when an array is written. */
  predicate Addressable(s: Lighting, a: Action) {
    var slots := Slots(s, PlaceOf(a.parentKey, a.key));
    slots.Some? ==> 0 <= a.index < |slots.value|
  }

  function Update(s: Lighting, a: Action): (r: Result<Lighting>)
    requires Addressable(s, a)
    ensures r.Failure? <==> PlaceOf(a.parentKey, a.key) == Throws
    ensures r.Success? && a.parentKey == MaterialGroup ==> r.value.dirLight == s.dirLight && r.value.pointLight == s.pointLight
    ensures r.Success? && a.parentKey == PointLightGroup ==> r.value.material == s.material && r.value.dirLight == s.dirLight
    ensures r.Success? && a.parentKey == DirLightGroup ==> r.value.material == s.material && r.value.pointLight == s.pointLight
  {
    var i, x := a.index, a.value;
    match PlaceOf(a.parentKey, a.key)
    case AlbedoSlot => Success(s.(material := s.material.(albedo := SetAt(s.material.albedo, i, x))))
    case MetallicValue => Success(s.(material := s.material.(metallic := x)))
    case RoughnessValue => Success(s.(material := s.material.(roughness := x)))
    case AoValue => Success(s.(material := s.material.(ao := x)))
    case PointPositionSlot => Success(s.(pointLight := s.pointLight.(position := SetAt(s.pointLight.position, i, x))))
    case PointColorSlot => Success(s.(pointLight := s.pointLight.(color := SetAt(s.pointLight.color, i, x))))
    case DirDirectionSlot => Success(s.(dirLight := s.dirLight.(direction := SetAt(s.dirLight.direction, i, x))))
    case DirColorSlot => Success(s.(dirLight := s.dirLight.(color := SetAt(s.dirLight.color, i, x))))
    case Stray => Success(s)
    case Throws => Failure("TypeError: cannot set properties of undefined")
  }

  class LightingSlice {
    var material: Material
    var dirLight: DirLight
    var pointLight: PointLight

    function State(): Lighting
      reads this
    {
      Lighting(material, dirLight, pointLight)
    }

    constructor ()
      ensures State() == Initial
    {
      material, dirLight, pointLight := Initial.material, Initial.dirLight, Initial.pointLight;
    }

    /** `updateStructUniform`. A reducer that throws leaves the store as it was. */
    method UpdateStructUniform(parentKey: Parent, key: Key, index: int, value: real) returns (thrown: bool)
      requires Addressable(State(), Action(parentKey, key, index, value))
      modifies this
      ensures thrown <==> Update(old(State()), Action(parentKey, key, index, value)).Failure?
      ensures thrown ==> State() == old(State())
      ensures !thrown ==> State() == Update(old(State()), Action(parentKey, key, index, value)).value
    {
      thrown := false;
      if parentKey == MaterialGroup {
        match key {
          case Albedo => material := material.(albedo := material.albedo[index := value]);
          case Metallic => material := material.(metallic := value);
          case Roughness => material := material.(roughness := value);
          case Ao => material := material.(ao := value);
          case _ =>
        }
      } else if parentKey == PointLightGroup {
        match key {
          case Position => pointLight := pointLight.(position := pointLight.position[index := value]);
          case Color => pointLight := pointLight.(color := pointLight.color[index := value]);
          case _ => thrown := true;
        }
      } else {
        match key {
          case Direction => dirLight := dirLight.(direction := dirLight.direction[index := value]);
          case Color => dirLight := dirLight.(color := dirLight.color[index := value]);
          case _ => thrown := true;
        }
      }
    }
  }

  // ---------------------------------------------------------------------------------
  // Properties
  // ---------------------------------------------------------------------------------

  /** Every array of the slice has three slots, and updates keep it so. */
  predicate Shaped(s: Lighting) {
    && |s.material.albedo| == 3 && |s.dirLight.direction| == 3 && |s.dirLight.color| == 3
    && |s.pointLight.position| == 3 && |s.pointLight.color| == 3
  }

  lemma UpdateKeepsShape(s: Lighting, a: Action)
    requires Shaped(s) && Addressable(s, a) && Update(s, a).Success?
    ensures Shaped(Update(s, a).value) && Shaped(Initial)
  {
  }

  /** Only the addressed slot of the addressed array changes. */
  lemma OnlySlotChanges(s: Lighting, a: Action)
    requires Addressable(s, a) && Slots(s, PlaceOf(a.parentKey, a.key)).Some?
    ensures var p := PlaceOf(a.parentKey, a.key);
      && Update(s, a).Success?
      && Slots(Update(s, a).value, p) == Some(SetAt(Slots(s, p).value, a.index, a.value))
      && forall q :: q != p ==> Slots(Update(s, a).value, q) == Slots(s, q)
  {
  }

  /** A scalar material key is set to the value and `index` plays no part. */
  lemma ScalarIgnoresIndex(s: Lighting, a: Action, j: int)
    requires a.parentKey == MaterialGroup && a.key in {Metallic, Roughness, Ao}
    ensures Update(s, a).Success? && Update(s, a) == Update(s, a.(index := j))
    ensures var m := Update(s, a).value.material;
      && m.albedo == s.material.albedo
      && (if a.key == Metallic then m.metallic == a.value else m.metallic == s.material.metallic)
      && (if a.key == Roughness then m.roughness == a.value else m.roughness == s.material.roughness)
      && (if a.key == Ao then m.ao == a.value else m.ao == s.material.ao)
  {
  }

  /** Dispatching the same action twice is dispatching it once. */
  lemma UpdateIdempotent(s: Lighting, a: Action)
    requires Addressable(s, a) && Update(s, a).Success?
    ensures Addressable(Update(s, a).value, a)
    ensures Update(Update(s, a).value, a) == Update(s, a)
  {
    var p := PlaceOf(a.parentKey, a.key);
    if Slots(s, p).Some? {
      SetAtLast(Slots(s, p).value, a.index, a.value, a.value);
    }
  }
}
