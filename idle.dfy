/** Idle behaviour: an idle agent roams about a centre, picking a fresh random
    destination inside its roaming circle whenever it is far from its current
    one, and an idle agent that acquires a target switches to pursuit. */
module Idle {
  import opened Ecs
  import opened Combat
  import opened MathUtil
  import opened AiMovement

  const ARRIVAL_TOLERANCE: real := 10.0

  datatype Roam = Roam(centre: Vec3, radius: real)

  /** The two random draws behind a new roaming destination: a distance from the
      centre and half the polar angle. */
  datatype RoamDraw = RoamDraw(distance: real, halfAngle: real)

  /** The draws lie in the ranges the source draws from: the distance in
      [0, radius) and the half angle in [0, pi). */
  predicate DrawInRange(d: RoamDraw, radius: real)
  {
    0.0 <= d.distance < radius && 0.0 <= d.halfAngle < PI
  }

  /** The destination is farther than the arrival tolerance from the agent. */
  predicate FarFrom(destination: Vec3, position: Vec3)
  {
    destination.Sub(position).LengthSquared() > ARRIVAL_TOLERANCE * ARRIVAL_TOLERANCE
  }

  /** The point `distance` from `centre` at polar angle `angle` in the plane of
      play, at the centre's height. */
  function RoamPoint(m: Maths, centre: Vec3, distance: real, angle: real): (p: Vec3)
    ensures p.z == centre.z
  {
    centre.Add(Vec3(distance * m.cos(angle), distance * m.sin(angle), 0.0))
  }

  /** With a cosine and sine on the unit circle, a roaming point lies at exactly
      `distance` from the centre. */
  lemma RoamPointDistance(m: Maths, centre: Vec3, distance: real, angle: real)
    requires m.cos(angle) * m.cos(angle) + m.sin(angle) * m.sin(angle) == 1.0
    ensures RoamPoint(m, centre, distance, angle).Sub(centre).LengthSquared() == distance * distance
  {
    var r, c, s := distance, m.cos(angle), m.sin(angle);
    var off := RoamPoint(m, centre, r, angle).Sub(centre);
    assert off.x == r * c && off.y == r * s && off.z == 0.0;
    calc {
      off.LengthSquared();
      (r * c) * (r * c) + (r * s) * (r * s);
      r * r * (c * c + s * s);
    }
  }

  lemma SquareBelow(r: real, radius: real)
    requires 0.0 <= r < radius
    ensures r * r < radius * radius
  {
    MulStrict(r, radius, radius);
    if r > 0.0 {
      MulMonotone(r, radius, r);
      calc {
        r * r;
      <= radius * r;
      == r * radius;
      < radius * radius;
      }
    } else {
      calc {
        r * r;
      == 0.0;
      == r * radius;
      < radius * radius;
      }
    }
  }

  /** A draw in range keeps the new destination strictly inside the roaming
      circle. */
  lemma RoamPointInCircle(m: Maths, centre: Vec3, d: RoamDraw, radius: real)
    requires DrawInRange(d, radius)
    requires m.cos(2.0 * d.halfAngle) * m.cos(2.0 * d.halfAngle) + m.sin(2.0 * d.halfAngle) * m.sin(2.0 * d.halfAngle) == 1.0
    ensures RoamPoint(m, centre, d.distance, 2.0 * d.halfAngle).Sub(centre).LengthSquared() < radius * radius
  {
    RoamPointDistance(m, centre, d.distance, 2.0 * d.halfAngle);
    SquareBelow(d.distance, radius);
  }

  /** `do_roaming` over the idle agents with a position, a roaming behaviour and a
      turn-to-destination behaviour: an agent farther than the arrival tolerance
      from its destination gets a new one, drawn in its roaming circle; the others
      keep theirs. The random draws are the input `draw`, in range wherever the
      source draws. */
  method DoRoaming(m: Maths, idle: set<EntityId>, positions: map<EntityId, Vec3>, roams: map<EntityId, Roam>,
                   destinations: map<EntityId, Vec3>, draw: EntityId -> RoamDraw)
    returns (destinations': map<EntityId, Vec3>)
    requires forall e :: (e in idle && e in positions && e in roams && e in destinations &&
                          FarFrom(destinations[e], positions[e])) ==> DrawInRange(draw(e), roams[e].radius)
    ensures destinations'.Keys == destinations.Keys
    ensures forall e :: e in destinations ==>
      destinations'[e] ==
        if e in idle && e in positions && e in roams && FarFrom(destinations[e], positions[e])
        then RoamPoint(m, roams[e].centre, draw(e).distance, 2.0 * draw(e).halfAngle)
        else destinations[e]
    ensures forall e :: e in destinations && destinations'[e] != destinations[e] ==>
      e in idle && e in roams && FarFrom(destinations[e], positions[e])
  {
    var query := idle * positions.Keys * roams.Keys * destinations.Keys;
    destinations' := destinations;
    var todo := query;
    while todo != {}
      invariant todo <= query
      invariant destinations'.Keys == destinations.Keys
      invariant forall e :: e in destinations ==>
        destinations'[e] ==
          if e in query && e !in todo && FarFrom(destinations[e], positions[e])
          then RoamPoint(m, roams[e].centre, draw(e).distance, 2.0 * draw(e).halfAngle)
          else destinations[e]
      decreases todo
    {
      var e :| e in todo;
      todo := todo - {e};
      var delta := destinations'[e].Sub(positions[e]);
      if delta.LengthSquared() > ARRIVAL_TOLERANCE * ARRIVAL_TOLERANCE {
        var distance := draw(e).distance;
        var angle := 2.0 * draw(e).halfAngle;
        destinations' := destinations'[e := RoamPoint(m, roams[e].centre, distance, angle)];
      }
    }
  }

  /** An idle agent not yet pursuing whose target changed this tick and is set. */
  predicate Engages(e: EntityId, idle: set<EntityId>, pursue: set<EntityId>, changed: set<EntityId>,
                    targets: map<EntityId, Target>)
  {
    e in idle && e !in pursue && e in changed && e in targets && targets[e].Some?
  }

  /** `idle_to_combat`: every idle agent, not already pursuing, whose target
      changed this tick to some entity starts pursuing and stops idling; every
      other agent keeps its behaviours. */
  method IdleToCombat(idle: set<EntityId>, pursue: set<EntityId>, changed: set<EntityId>,
                      targets: map<EntityId, Target>)
    returns (idle': set<EntityId>, pursue': set<EntityId>)
    ensures forall e :: e in pursue' <==> e in pursue || Engages(e, idle, pursue, changed, targets)
    ensures forall e :: e in idle' <==> e in idle && !Engages(e, idle, pursue, changed, targets)
    ensures forall peel: set<EntityId>, destinations: map<EntityId, Vec3> ::
      ModesConsistent(idle, pursue, peel, destinations) ==> ModesConsistent(idle', pursue', peel, destinations)
  {
    var query := (idle - pursue) * changed * targets.Keys;
    var engaging: set<EntityId> := {};
    var todo := query;
    while todo != {}
      invariant todo <= query
      invariant forall e :: e in engaging <==> e in query && e !in todo && targets[e].Some?
      decreases todo
    {
      var e :| e in todo;
      todo := todo - {e};
      if targets[e].Some? {
        engaging := engaging + {e};
      }
    }
    // The deferred commands take effect once the loop is over.
    pursue' := pursue + engaging;
    idle' := idle - engaging;
  }
}
