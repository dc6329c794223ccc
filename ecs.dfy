/** Entity-store vocabulary shared by every system of the simulation.

    The engine's world is modelled as one map per component type, keyed by
    entity id. A system receives the components its query reads as maps and
    returns the components it writes as new maps; a component that a system
    inserts or removes through deferred commands appears in the returned map
    only once the call is over. */
module Ecs {

  /** An entity handle. Handles are weak: a lookup may fail. */
  type EntityId = nat

  datatype Option<T> = None | Some(value: T)

  /** A three-component vector of reals standing in for the engine's `Vec3` of `f32`. */
  datatype Vec3 = Vec3(x: real, y: real, z: real) {
    function Add(o: Vec3): Vec3 { Vec3(x + o.x, y + o.y, z + o.z) }
    function Sub(o: Vec3): Vec3 { Vec3(x - o.x, y - o.y, z - o.z) }
    function Scale(k: real): Vec3 { Vec3(k * x, k * y, k * z) }
    function LengthSquared(): (r: real)
      ensures r >= 0.0
    {
      x * x + y * y + z * z
    }
  }

  const Zero := Vec3(0.0, 0.0, 0.0)

  /** A rotation quaternion; the model only copies rotations, it never composes them. */
  datatype Quat = Quat(x: real, y: real, z: real, w: real)

  const Identity := Quat(0.0, 0.0, 0.0, 1.0)

  datatype Transform = Transform(translation: Vec3, rotation: Quat, scale: Vec3)

  /** The transcendental and vector functions the systems call. They are left
      uninterpreted: every contract that depends on them is stated in terms of
      the functions handed in. */
  datatype Maths = Maths(
    atan2: (real, real) -> real,  // atan2(y, x), as Rust's `y.atan2(x)`
    sqrt: real -> real,
    cos: real -> real,
    sin: real -> real,
    exp: real -> real,
    normalize: Vec3 -> Vec3)

  /** `order` is an iteration order of a query whose matching entities are `keys`:
      every matching entity is visited exactly once. */
  ghost predicate IsOrderOf(order: seq<EntityId>, keys: set<EntityId>)
  {
    (forall i, j :: 0 <= i < j < |order| ==> order[i] != order[j]) &&
    (forall e :: e in order <==> e in keys)
  }

  /** Rust's `f32::signum` on a non-NaN value: 1.0 for every non-negative value,
      +0.0 included; -1.0 otherwise. */
  function Signum(x: real): (r: real)
    ensures r == 1.0 || r == -1.0
    ensures r * x >= 0.0 && (x != 0.0 ==> r * x > 0.0)
    ensures x == 0.0 ==> r == 1.0
  {
    if x >= 0.0 then 1.0 else -1.0
  }

  function Abs(x: real): (r: real)
    ensures r >= 0.0 && (r == x || r == -x)
  {
    if x >= 0.0 then x else -x
  }

  function Min(a: real, b: real): (r: real)
    ensures r <= a && r <= b && (r == a || r == b)
  {
    if a <= b then a else b
  }
}
