/** The `transformations` slice of the store: the model's position, per-axis and overall
    scale, and rotation, each written one slot at a time by the sliders. */
module Transformations {
  import opened Js

  /** The three arrays of the slice. */
  datatype Vector = Position | Scale | Rotation

  datatype Transform = Transform(position: seq<real>, scale: seq<real>, rotation: seq<real>)

  /** `initialState`. */
  const Initial := Transform([0.0, -0.25, -1.5], [1.0, 1.0, 1.0, 1.0], [0.0, 0.0, 0.0])

  function Get(t: Transform, v: Vector): seq<real> {
    match v
    case Position => t.position
    case Scale => t.scale
    case Rotation => t.rotation
  }

  /** Three position slots, four scale slots (x, y, z and the overall factor), three angles. */
  predicate Shaped(t: Transform) {
    |t.position| == 3 && |t.scale| == 4 && |t.rotation| == 3
  }

  /** What one setter does: `state.<v>[index] = value`, and nothing else. */
  function Write(t: Transform, v: Vector, index: int, value: real): (r: Transform)
    requires 0 <= index < |Get(t, v)|
    ensures Get(r, v) == SetAt(Get(t, v), index, value)
    ensures forall w :: w != v ==> Get(r, w) == Get(t, w)
  {
    match v
    case Position => t.(position := SetAt(t.position, index, value))
    case Scale => t.(scale := SetAt(t.scale, index, value))
    case Rotation => t.(rotation := SetAt(t.rotation, index, value))
  }

  /** The slice while the app runs; each reducer writes into it in place. */
  class TransformationsSlice {
    var position: seq<real>
    var scale: seq<real>
    var rotation: seq<real>

    function State(): Transform
      reads this
    {
      Transform(position, scale, rotation)
    }

    constructor ()
      ensures State() == Initial
    {
      position, scale, rotation := Initial.position, Initial.scale, Initial.rotation;
    }

    method SetPosition(value: real, index: int)
      requires 0 <= index < |position|
      modifies this
      ensures State() == Write(old(State()), Position, index, value)
    {
      position := position[index := value];
    }

    method SetScale(value: real, index: int)
      requires 0 <= index < |scale|
      modifies this
      ensures State() == Write(old(State()), Scale, index, value)
    {
      scale := scale[index := value];
    }

    method SetRotation(value: real, index: int)
      requires 0 <= index < |rotation|
      modifies this
      ensures State() == Write(old(State()), Rotation, index, value)
    {
      rotation := rotation[index := value];
    }
  }

  /** The initial state holds every slot, and no setter changes an array's length. */
  lemma WriteKeepsShape(t: Transform, v: Vector, index: int, value: real)
    requires Shaped(t) && 0 <= index < |Get(t, v)|
    ensures Shaped(Write(t, v, index, value)) && Shaped(Initial)
  {
    assert Get(Write(t, v, index, value), v) == SetAt(Get(t, v), index, value);
  }

  /** Dispatching the same action twice is dispatching it once; of two writes to one slot the
      later stays. */
  lemma WriteIdempotent(t: Transform, v: Vector, index: int, x: real, y: real)
    requires 0 <= index < |Get(t, v)|
    ensures Write(Write(t, v, index, x), v, index, y) == Write(t, v, index, y)
    ensures Write(Write(t, v, index, x), v, index, x) == Write(t, v, index, x)
  {
    SetAtLast(Get(t, v), index, x, y);
    SetAtLast(Get(t, v), index, x, x);
  }

  /** Setters aimed at different slots, of one array or of two, commute. */
  lemma WritesCommute(t: Transform, v: Vector, i: int, x: real, w: Vector, j: int, y: real)
    requires 0 <= i < |Get(t, v)| && 0 <= j < |Get(t, w)| && (v, i) != (w, j)
    ensures Write(Write(t, v, i, x), w, j, y) == Write(Write(t, w, j, y), v, i, x)
  {
    if v == w {
      SetAtCommute(Get(t, v), i, x, j, y);
    }
  }
}
