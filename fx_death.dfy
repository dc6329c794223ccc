/** Death effects: while an entity is in its death throes it sets off small
    explosions and puffs of smoke at random intervals around itself, and once it
    is dead one large explosion per tick. */
module DeathFx {
  import opened Ecs
  import opened Combat
  import opened Mortal

  /** The per-entity countdowns to the next explosion and the next puff of smoke,
      and the two animations used. */
  datatype DeathEffect = DeathEffect(timeToExplosion: real, timeToSmoke: real,
                                     dyingExplosion: AnimatedEffect, deathExplosion: AnimatedEffect)

  /** The random draws one entity may use in one call: an offset and a new delay
      for the explosion, and an offset and a new delay for the smoke. */
  datatype DeathDraw = DeathDraw(explosionX: real, explosionY: real, explosionDelay: real,
                                 smokeX: real, smokeY: real, smokeDelay: real)

  predicate OffsetInRange(x: real)
  {
    -6.0 <= x < 6.0
  }

  /** The draws lie in the source's ranges: offsets in [-6, 6), the explosion delay
      in [0.05, 0.2) and the smoke delay in [0, 0.05). */
  predicate DrawInRange(d: DeathDraw)
  {
    OffsetInRange(d.explosionX) && OffsetInRange(d.explosionY) && 0.05 <= d.explosionDelay < 0.2 &&
    OffsetInRange(d.smokeX) && OffsetInRange(d.smokeY) && 0.0 <= d.smokeDelay < 0.05
  }

  datatype DeathOutput = DeathOutput(effect: DeathEffect, requests: seq<EffectRequest>)

  function Count(b: bool): nat
  {
    if b then 1 else 0
  }

  /** One entity's share of a call: both countdowns run down by `dt`; a countdown
      that drops below zero is redrawn and requests its effect near the entity
      (explosions in front, smoke behind); a dead entity also requests its death
      explosion at its position. */
  function DeathStep(fx: DeathEffect, at: Vec3, dead: bool, dt: real, d: DeathDraw): (o: DeathOutput)
    requires DrawInRange(d)
    // A countdown either ran down by exactly dt or was redrawn from its range; neither is left negative.
    ensures fx.timeToExplosion - dt >= 0.0 ==> o.effect.timeToExplosion == fx.timeToExplosion - dt
    ensures fx.timeToExplosion - dt < 0.0 ==> o.effect.timeToExplosion == d.explosionDelay
    ensures fx.timeToExplosion - dt < 0.0 ==> 0.05 <= o.effect.timeToExplosion < 0.2
    ensures fx.timeToSmoke - dt >= 0.0 ==> o.effect.timeToSmoke == fx.timeToSmoke - dt
    ensures fx.timeToSmoke - dt < 0.0 ==> o.effect.timeToSmoke == d.smokeDelay
    ensures fx.timeToSmoke - dt < 0.0 ==> 0.0 <= o.effect.timeToSmoke < 0.05
    ensures o.effect.timeToExplosion >= 0.0 && o.effect.timeToSmoke >= 0.0
    ensures o.effect.dyingExplosion == fx.dyingExplosion && o.effect.deathExplosion == fx.deathExplosion
    // One request per countdown that ran out, one more while dead: at most three.
    ensures |o.requests| == Count(fx.timeToExplosion - dt < 0.0) + Count(fx.timeToSmoke - dt < 0.0) + Count(dead)
    ensures |o.requests| <= 3
    // A spent explosion countdown requests a dying explosion in front of the entity,
    // first; a spent smoke countdown then requests a puff of smoke behind it.
    ensures fx.timeToExplosion - dt < 0.0 ==>
      o.requests[0] == RequestAt(fx.dyingExplosion, at.Add(Vec3(d.explosionX, d.explosionY, 0.1)))
    ensures fx.timeToSmoke - dt < 0.0 ==>
      o.requests[Count(fx.timeToExplosion - dt < 0.0)] == RequestAt(Smoke1, at.Add(Vec3(d.smokeX, d.smokeY, -0.05)))
    ensures forall r :: r in o.requests ==> r.parent == None && r.rotationZ == 0.0 && r.scale == UnitScale
    ensures forall r :: r in o.requests ==>
      (r.effect == Smoke1 && r.translation.z == at.z - 0.05 &&
       OffsetInRange(r.translation.x - at.x) && OffsetInRange(r.translation.y - at.y)) ||
      (r.effect == fx.dyingExplosion && r.translation.z == at.z + 0.1 &&
       OffsetInRange(r.translation.x - at.x) && OffsetInRange(r.translation.y - at.y)) ||
      (r.effect == fx.deathExplosion && r.translation == at)
    ensures dead <==> |o.requests| > 0 && o.requests[|o.requests| - 1] == RequestAt(fx.deathExplosion, at)
  {
    var explosion := fx.timeToExplosion - dt;
    var smoke := fx.timeToSmoke - dt;
    var explosionRequests :=
      if explosion < 0.0 then [RequestAt(fx.dyingExplosion, at.Add(Vec3(d.explosionX, d.explosionY, 0.1)))] else [];
    var smokeRequests :=
      if smoke < 0.0 then [RequestAt(Smoke1, at.Add(Vec3(d.smokeX, d.smokeY, -0.05)))] else [];
    var deathRequests := if dead then [RequestAt(fx.deathExplosion, at)] else [];
    DeathOutput(
      fx.(timeToExplosion := if explosion < 0.0 then d.explosionDelay else explosion,
          timeToSmoke := if smoke < 0.0 then d.smokeDelay else smoke),
      explosionRequests + smokeRequests + deathRequests)
  }

  /** `do_death_effects` over the entities with a death effect, a position and
      death throes. `requests[e]` are the effect requests queued for `e`, in the
      order the source queues them; the draws are the input `draw`. */
  method DoDeathEffects(dt: real, effects: map<EntityId, DeathEffect>, positions: map<EntityId, Vec3>,
                        dieing: map<EntityId, Dieing>, draw: EntityId -> DeathDraw)
    returns (effects': map<EntityId, DeathEffect>, requests: map<EntityId, seq<EffectRequest>>)
    requires forall e :: DrawInRange(draw(e))
    ensures effects'.Keys == effects.Keys
    ensures requests.Keys == effects.Keys * positions.Keys * dieing.Keys
    ensures forall e :: e in requests ==>
      DeathOutput(effects'[e], requests[e]) == DeathStep(effects[e], positions[e], dieing[e].dead, dt, draw(e))
    ensures forall e :: e in effects && e !in requests ==> effects'[e] == effects[e]
  {
    var query := effects.Keys * positions.Keys * dieing.Keys;
    effects' := effects;
    requests := map[];
    var todo := query;
    while todo != {}
      invariant todo <= query
      invariant effects'.Keys == effects.Keys
      invariant requests.Keys == query - todo
      invariant forall e :: e in requests ==>
        DeathOutput(effects'[e], requests[e]) == DeathStep(effects[e], positions[e], dieing[e].dead, dt, draw(e))
      invariant forall e :: e in effects && e !in requests ==> effects'[e] == effects[e]
      decreases todo
    {
      var e :| e in todo;
      todo := todo - {e};
      var fx, queued := DeathEffectsOf(effects'[e], positions[e], dieing[e].dead, dt, draw(e));
      effects' := effects'[e := fx];
      requests := requests[e := queued];
    }
  }

  /** The body of the loop of `do_death_effects` for one entity. */
  method DeathEffectsOf(fx: DeathEffect, at: Vec3, dead: bool, dt: real, d: DeathDraw)
    returns (fx': DeathEffect, queued: seq<EffectRequest>)
    requires DrawInRange(d)
    ensures DeathOutput(fx', queued) == DeathStep(fx, at, dead, dt, d)
  {
    fx' := fx.(timeToExplosion := fx.timeToExplosion - dt, timeToSmoke := fx.timeToSmoke - dt);
    queued := [];
    if fx'.timeToExplosion < 0.0 {
      fx' := fx'.(timeToExplosion := d.explosionDelay);
      queued := queued + [RequestAt(fx'.dyingExplosion, at.Add(Vec3(d.explosionX, d.explosionY, 0.1)))];
    }
    if fx'.timeToSmoke < 0.0 {
      fx' := fx'.(timeToSmoke := d.smokeDelay);
      queued := queued + [RequestAt(Smoke1, at.Add(Vec3(d.smokeX, d.smokeY, -0.05)))];
    }
    if dead {
      queued := queued + [RequestAt(fx'.deathExplosion, at)];
    }
  }

  /** The effect after `k` calls with the same `dt` and the same draws. */
  function QuietRun(fx: DeathEffect, at: Vec3, dead: bool, dt: real, d: DeathDraw, k: nat): DeathEffect
    requires DrawInRange(d)
    decreases k
  {
    if k == 0 then fx else QuietRun(DeathStep(fx, at, dead, dt, d).effect, at, dead, dt, d, k - 1)
  }

  /** Call number `k` (from zero) of such a run requests a dying explosion. */
  predicate Exploded(fx: DeathEffect, at: Vec3, dead: bool, dt: real, d: DeathDraw, k: nat)
    requires DrawInRange(d)
  {
    QuietRun(fx, at, dead, dt, d, k).timeToExplosion - dt < 0.0
  }

  /** The explosions keep coming: with a positive time step, an entity whose
      explosion countdown is below `n * dt` requests a dying explosion within its
      next `n` calls. Since every redrawn countdown is below 0.2, that is at least
      one explosion every `0.2 / dt` calls or so for the whole of the throes. */
  lemma {:induction false} ExplosionWithin(fx: DeathEffect, at: Vec3, dead: bool, dt: real, d: DeathDraw, n: nat)
    requires DrawInRange(d) && dt > 0.0 && 0.0 <= fx.timeToExplosion < n as real * dt
    ensures exists k :: 0 <= k < n && Exploded(fx, at, dead, dt, d, k)
    decreases n
  {
    if fx.timeToExplosion - dt < 0.0 {
      assert Exploded(fx, at, dead, dt, d, 0);
    } else {
      var next := DeathStep(fx, at, dead, dt, d).effect;
      assert next.timeToExplosion == fx.timeToExplosion - dt;
      assert (n - 1) as real * dt == n as real * dt - dt;
      ExplosionWithin(next, at, dead, dt, d, n - 1);
      var k :| 0 <= k < n - 1 && Exploded(next, at, dead, dt, d, k);
      assert QuietRun(fx, at, dead, dt, d, k + 1) == QuietRun(next, at, dead, dt, d, k);
      assert Exploded(fx, at, dead, dt, d, k + 1);
    }
  }
}
