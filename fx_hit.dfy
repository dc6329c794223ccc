/** Hit effects: every attack that reaches its target, whether it hits or is
    blocked, requests one small animation near the point of impact; a miss shows
    nothing. */
module HitFx {
  import opened Ecs
  import opened Combat

  /** The random offset of a hit effect in the plane of play. */
  datatype HitDraw = HitDraw(x: real, y: real)

  /** Both offsets lie in [-6, 6). */
  predicate HitDrawInRange(d: HitDraw)
  {
    -6.0 <= d.x < 6.0 && -6.0 <= d.y < 6.0
  }

  /** The attacks of the query that show a hit effect: all but the misses. */
  function Shown(hitEffects: map<EntityId, AnimatedEffect>, locations: map<EntityId, Vec3>,
                 attacks: map<EntityId, Attack>): set<EntityId>
  {
    set e | e in hitEffects && e in locations && e in attacks && attacks[e].result != Miss
  }

  /** `create_hit_effects` over the effect instances with a hit effect, an effect
      location and an attack. `requests[e]` is the request queued for `e`; the
      offsets are the input `draw`. */
  method CreateHitEffects(hitEffects: map<EntityId, AnimatedEffect>, locations: map<EntityId, Vec3>,
                          attacks: map<EntityId, Attack>, draw: EntityId -> HitDraw)
    returns (requests: map<EntityId, EffectRequest>)
    requires forall e :: HitDrawInRange(draw(e))
    // A request for every attack that does not miss, and for nothing else.
    ensures forall e :: e in requests <==> e in hitEffects && e in locations && e in attacks && attacks[e].result != Miss
    ensures |requests| == |Shown(hitEffects, locations, attacks)|
    ensures forall e :: e in requests ==>
      requests[e] == RequestAt(hitEffects[e], locations[e].Add(Vec3(draw(e).x, draw(e).y, 0.1)))
    ensures forall e :: e in requests ==>
      var offset := requests[e].translation.Sub(locations[e]);
      -6.0 <= offset.x < 6.0 && -6.0 <= offset.y < 6.0 && offset.z == 0.1 && requests[e].parent == None
  {
    requests := map[];
    var todo := hitEffects.Keys * locations.Keys * attacks.Keys;
    while todo != {}
      invariant todo <= hitEffects.Keys * locations.Keys * attacks.Keys
      invariant forall e :: e in requests <==>
        e in hitEffects && e in locations && e in attacks && e !in todo && attacks[e].result != Miss
      invariant forall e :: e in requests ==>
        requests[e] == RequestAt(hitEffects[e], locations[e].Add(Vec3(draw(e).x, draw(e).y, 0.1)))
      decreases todo
    {
      var e :| e in todo;
      todo := todo - {e};
      if attacks[e].result == Miss {
        continue;
      }
      var d := draw(e);
      requests := requests[e := RequestAt(hitEffects[e], locations[e].Add(Vec3(d.x, d.y, 0.1)))];
    }
    assert requests.Keys == Shown(hitEffects, locations, attacks);
  }
}
