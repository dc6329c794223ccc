/** Plain combat data shared by the combat systems: targets, teams and the
    attack payload of an effect instance. */
module Combat {
  import opened Ecs

  /** The entity an agent (or an effect instance) is aimed at; `None` by default.
      The source declares this component twice with the same shape; the model
      uses this single type for both. */
  type Target = Option<EntityId>

  const NoTarget: Target := None

  /** The team an entity belongs to (a signed 32-bit id in the source). */
  datatype Team = Team(id: int)

  datatype AttackResult = Hit | Miss | Blocked

  datatype Attack = Attack(accuracy: real, result: AttackResult)

  /** A fresh attack always starts as a hit. */
  function NewAttack(accuracy: real): (a: Attack)
    ensures a.accuracy == accuracy && a.result == Hit
  {
    Attack(accuracy, Hit)
  }

  /** The animations an effect request can ask for. */
  datatype AnimatedEffect =
    | SmallExplosion | MuzzleFlare | MediumExplosion | Shield | Smoke1
    | BlueLaserBeam | GreenLaserBeam | TinyPlusExplosion | FlashExplosion

  /** A fire-and-forget request to the presentation layer: the transform
      (translation, rotation about z in radians, scale), the animation and an
      optional parent. */
  datatype EffectRequest = EffectRequest(
    effect: AnimatedEffect,
    translation: Vec3,
    rotationZ: real,
    scale: Vec3,
    parent: Option<EntityId>)

  const UnitScale := Vec3(1.0, 1.0, 1.0)

  /** A request placed at a point with no rotation and unit scale, as
      `Transform::from_translation` builds it. */
  function RequestAt(effect: AnimatedEffect, at: Vec3): (r: EffectRequest)
    ensures r.effect == effect && r.translation == at && r.parent == None
    ensures r.rotationZ == 0.0 && r.scale == UnitScale
  {
    EffectRequest(effect, at, 0.0, UnitScale, None)
  }
}
