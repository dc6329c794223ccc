/** Steering AI: turning toward a destination, pursuing a target and peeling away
    from it when too close. The behaviour components are tags (`idle`, `pursue`,
    `peel`) plus the turn-to-destination behaviour (`destinations`, holding its
    destination); the systems swap them with deferred commands, so an agent moves
    Idle -> Pursue -> Peel -> Pursue ... and back to Idle when its target is lost. */
module AiMovement {
  import opened Ecs
  import opened Combat
  import opened MathUtil

  const PROXIMITY_RADIUS: real := 64.0
  const ENGAGEMENT_RADIUS: real := 128.0

  /** A peel turns only while the target lies within this angle of the heading. */
  const PEEL_CONE: real := 0.3 * PI

  /** The turn rate toward a heading `diff` radians away: full rate in the
      direction of `diff`, unless a smaller rate reaches it in one fixed step. */
  function TurnRate(diff: real, maxTurn: real, fixedStep: real): real
    requires fixedStep > 0.0
  {
    Signum(diff) * Min(maxTurn, Abs(diff) / fixedStep)
  }

  /** With a non-negative maximum, the chosen rate never exceeds it, turns toward
      the desired heading, never overshoots it within one fixed step, and lands
      on it exactly when it is within reach; otherwise it is the full rate. */
  lemma TurnRateBounds(diff: real, maxTurn: real, fixedStep: real)
    requires fixedStep > 0.0 && maxTurn >= 0.0
    ensures Abs(TurnRate(diff, maxTurn, fixedStep)) <= maxTurn
    ensures TurnRate(diff, maxTurn, fixedStep) * diff >= 0.0
    ensures Abs(TurnRate(diff, maxTurn, fixedStep)) * fixedStep <= Abs(diff)
    ensures Abs(diff) >= maxTurn * fixedStep ==> Abs(TurnRate(diff, maxTurn, fixedStep)) == maxTurn
    ensures Abs(diff) <= maxTurn * fixedStep ==> TurnRate(diff, maxTurn, fixedStep) * fixedStep == diff
  {
    var q := Abs(diff) / fixedStep;
    assert q >= 0.0;
    assert q * fixedStep == Abs(diff);
    var r := TurnRate(diff, maxTurn, fixedStep);
    if maxTurn <= q {
      assert r == Signum(diff) * maxTurn;
      assert Abs(r) == maxTurn;
      MulMonotone(maxTurn, q, fixedStep);
      if Abs(diff) <= maxTurn * fixedStep {
        assert maxTurn * fixedStep == q * fixedStep;
        assert diff == Signum(diff) * Abs(diff);
        assert r * fixedStep == Signum(diff) * (maxTurn * fixedStep);
      }
    } else {
      assert r == Signum(diff) * q;
      assert Abs(r) == q;
      assert r * fixedStep == Signum(diff) * (q * fixedStep);
      assert Signum(diff) * Abs(diff) == diff;
      MulStrict(q, maxTurn, fixedStep);
    }
  }

  /** The turn rate an agent at `position` with heading `heading` picks to steer
      toward `destination`. */
  function SteerRate(m: Maths, fixedStep: real, destination: Vec3, position: Vec3, heading: real, maxTurn: real)
    : (r: real)
    requires fixedStep > 0.0
    ensures maxTurn >= 0.0 ==> Abs(r) <= maxTurn
  {
    var diff := AngleDifference(HeadingToPoint(m, destination.Sub(position)), heading);
    if maxTurn >= 0.0 then
      TurnRateBounds(diff, maxTurn, fixedStep);
      TurnRate(diff, maxTurn, fixedStep)
    else TurnRate(diff, maxTurn, fixedStep)
  }

  /** `turn_to_destination` over the entities with a turn-to-destination behaviour,
      a position, a maximum turn speed, a heading and a turn speed: each turns
      toward its destination at `TurnRate`. */
  method TurnToDestination(m: Maths, fixedStep: real, destinations: map<EntityId, Vec3>,
                           positions: map<EntityId, Vec3>, maxTurnSpeeds: map<EntityId, real>,
                           headings: map<EntityId, real>, turnSpeeds: map<EntityId, real>)
    returns (turnSpeeds': map<EntityId, real>)
    requires fixedStep > 0.0
    ensures turnSpeeds'.Keys == turnSpeeds.Keys
    ensures forall e :: e in turnSpeeds && e in destinations && e in positions && e in maxTurnSpeeds && e in headings ==>
      turnSpeeds'[e] == SteerRate(m, fixedStep, destinations[e], positions[e], headings[e], maxTurnSpeeds[e])
    ensures forall e :: e in turnSpeeds && !(e in destinations && e in positions && e in maxTurnSpeeds && e in headings) ==>
      turnSpeeds'[e] == turnSpeeds[e]
    ensures forall e :: e in turnSpeeds && e in destinations && e in positions && e in maxTurnSpeeds && e in headings &&
                        maxTurnSpeeds[e] >= 0.0 ==>
      Abs(turnSpeeds'[e]) <= maxTurnSpeeds[e]
  {
    var query := destinations.Keys * positions.Keys * maxTurnSpeeds.Keys * headings.Keys * turnSpeeds.Keys;
    turnSpeeds' := turnSpeeds;
    var todo := query;
    while todo != {}
      invariant todo <= query
      invariant turnSpeeds'.Keys == turnSpeeds.Keys
      invariant forall e :: e in query && e !in todo ==>
        turnSpeeds'[e] == SteerRate(m, fixedStep, destinations[e], positions[e], headings[e], maxTurnSpeeds[e])
      invariant forall e :: e in turnSpeeds && (e !in query || e in todo) ==> turnSpeeds'[e] == turnSpeeds[e]
      invariant forall e :: e in query && e !in todo && maxTurnSpeeds[e] >= 0.0 ==> Abs(turnSpeeds'[e]) <= maxTurnSpeeds[e]
      decreases todo
    {
      var e :| e in todo;
      var rate := SteerRate(m, fixedStep, destinations[e], positions[e], headings[e], maxTurnSpeeds[e]);
      turnSpeeds' := turnSpeeds'[e := rate];
      todo := todo - {e};
    }
  }

  /** The target of `e` is set but has no position: it is lost. */
  predicate Lost(e: EntityId, targets: map<EntityId, Target>, positions: map<EntityId, Vec3>)
  {
    e in targets && targets[e].Some? && targets[e].value !in positions
  }

  /** The target of `e` is set and has a position. */
  predicate Resolves(e: EntityId, targets: map<EntityId, Target>, positions: map<EntityId, Vec3>)
  {
    e in targets && targets[e].Some? && targets[e].value in positions
  }

  /** The target of `e` resolves and lies strictly inside the proximity radius. */
  predicate TooClose(e: EntityId, targets: map<EntityId, Target>, positions: map<EntityId, Vec3>)
  {
    Resolves(e, targets, positions) && e in positions &&
    positions[targets[e].value].Sub(positions[e]).LengthSquared() < PROXIMITY_RADIUS * PROXIMITY_RADIUS
  }

  /** Every agent is in at most one behaviour; idle and pursuing agents steer
      toward a destination and peeling ones do not, so `turn_to_destination`
      never overrides the turn rate a peel sets. */
  ghost predicate ModesConsistent(idle: set<EntityId>, pursue: set<EntityId>, peel: set<EntityId>,
                                  destinations: map<EntityId, Vec3>)
  {
    idle * pursue == {} && idle * peel == {} && pursue * peel == {} &&
    (forall e :: e in idle ==> e in destinations) &&
    (forall e :: e in pursue ==> e in destinations) &&
    (forall e :: e in peel ==> e !in destinations)
  }

  /** `pursue` over the pursuing entities with a target, a position and a
      turn-to-destination behaviour. No target: skipped. A lost target: back to
      Idle. Otherwise the destination becomes the target's position, and a target
      strictly inside the proximity radius switches the agent to a peel, dropping
      its turn-to-destination behaviour. */
  method Pursue(pursue: set<EntityId>, targets: map<EntityId, Target>, positions: map<EntityId, Vec3>,
                destinations: map<EntityId, Vec3>, idle: set<EntityId>, peel: set<EntityId>)
    returns (destinations': map<EntityId, Vec3>, pursue': set<EntityId>, idle': set<EntityId>, peel': set<EntityId>)
    ensures forall e :: e in pursue' <==>
      e in pursue && !(e in positions && e in destinations && (Lost(e, targets, positions) || TooClose(e, targets, positions)))
    ensures forall e :: e in idle' <==>
      e in idle || (e in pursue && e in positions && e in destinations && Lost(e, targets, positions))
    ensures forall e :: e in peel' <==>
      e in peel || (e in pursue && e in destinations && TooClose(e, targets, positions))
    ensures forall e :: e in destinations' <==>
      e in destinations && !(e in pursue && TooClose(e, targets, positions))
    ensures forall e :: e in destinations' ==>
      destinations'[e] == if e in pursue && e in positions && Resolves(e, targets, positions)
                          then positions[targets[e].value] else destinations[e]
    ensures ModesConsistent(idle, pursue, peel, destinations) ==> ModesConsistent(idle', pursue', peel', destinations')
  {
    var query := pursue * targets.Keys * positions.Keys * destinations.Keys;
    destinations' := destinations;
    var lost: set<EntityId> := {};
    var close: set<EntityId> := {};
    var todo := query;
    while todo != {}
      invariant todo <= query
      invariant destinations'.Keys == destinations.Keys
      invariant forall e :: e in lost <==> e in query && e !in todo && Lost(e, targets, positions)
      invariant forall e :: e in close <==> e in query && e !in todo && TooClose(e, targets, positions)
      invariant forall e :: e in destinations ==>
        destinations'[e] == if e in query && e !in todo && Resolves(e, targets, positions)
                            then positions[targets[e].value] else destinations[e]
      decreases todo
    {
      var e :| e in todo;
      todo := todo - {e};
      var target := targets[e];
      if target.None? {
        continue;
      }
      if target.value !in positions {
        lost := lost + {e};
        continue;
      }
      destinations' := destinations'[e := positions[target.value]];
      var delta := positions[target.value].Sub(positions[e]);
      if delta.LengthSquared() < PROXIMITY_RADIUS * PROXIMITY_RADIUS {
        close := close + {e};
      }
    }
    // The deferred commands take effect once the loop is over.
    pursue' := pursue - lost - close;
    idle' := idle + lost;
    destinations' := map e | e in destinations' && e !in close :: destinations'[e];
    peel' := peel + close;
  }

  /** The peel turn for a target `angle` radians off the heading: full rate away
      from it inside the peel cone, no turn outside it. */
  function PeelTurn(angle: real, maxTurn: real): (r: real)
    ensures maxTurn >= 0.0 ==> r * angle <= 0.0 && Abs(r) <= maxTurn
    ensures Abs(angle) < PEEL_CONE ==> Abs(r) == Abs(maxTurn)
    ensures Abs(angle) >= PEEL_CONE ==> r == 0.0
    // Rust's `signum(0.0)` is 1: straight at the target, the peel turns by -max.
    ensures angle == 0.0 ==> r == -maxTurn
  {
    if Abs(angle) < PEEL_CONE then -maxTurn * Signum(angle) else 0.0
  }

  /** Inside the peel cone a peel turns the opposite way to the pursuit turn for
      the same angle: their product is negative whenever the pursuit turn is not
      zero. */
  lemma PeelOpposesPursuit(angle: real, maxTurn: real, fixedStep: real)
    requires fixedStep > 0.0 && maxTurn > 0.0 && angle != 0.0 && Abs(angle) < PEEL_CONE
    ensures PeelTurn(angle, maxTurn) * TurnRate(angle, maxTurn, fixedStep) < 0.0
  {
    var k := Min(maxTurn, Abs(angle) / fixedStep);
    assert Abs(angle) / fixedStep > 0.0;
    assert k > 0.0;
    assert Signum(angle) * Signum(angle) == 1.0;
    calc {
      PeelTurn(angle, maxTurn) * TurnRate(angle, maxTurn, fixedStep);
      (-maxTurn * Signum(angle)) * (Signum(angle) * k);
      -maxTurn * (Signum(angle) * Signum(angle)) * k;
      -maxTurn * k;
    }
    MulStrict(0.0, k, maxTurn);
  }

  /** The displacement to the target flattened onto the plane of play. */
  function Flat(delta: Vec3): (d: Vec3)
    ensures d.x == delta.x && d.y == delta.y && d.z == 0.0
  {
    delta.(z := 0.0)
  }

  /** The turn rate of a peeling agent at `position` with heading `heading`
      whose target is at `target`. */
  function PeelRate(m: Maths, target: Vec3, position: Vec3, heading: real, maxTurn: real): real
  {
    PeelTurn(AngleDifference(HeadingToPoint(m, Flat(target.Sub(position))), heading), maxTurn)
  }

  /** The resolved target of `e` lies strictly beyond the engagement radius in the
      plane of play. */
  predicate OutOfRange(e: EntityId, targets: map<EntityId, Target>, positions: map<EntityId, Vec3>)
  {
    Resolves(e, targets, positions) && e in positions &&
    Flat(positions[targets[e].value].Sub(positions[e])).LengthSquared() > ENGAGEMENT_RADIUS * ENGAGEMENT_RADIUS
  }

  /** `peel_manoeuvre` over the peeling entities with a target, a position, a
      heading, a maximum turn speed and a turn speed. No target: skipped. A lost
      target: back to Idle with a default turn-to-destination behaviour. Otherwise
      the agent turns away with `PeelTurn`, and a target beyond the engagement
      radius sends it back to Pursue with a default turn-to-destination
      behaviour. */
  method PeelManoeuvre(m: Maths, peel: set<EntityId>, targets: map<EntityId, Target>, positions: map<EntityId, Vec3>,
                       headings: map<EntityId, real>, maxTurnSpeeds: map<EntityId, real>,
                       turnSpeeds: map<EntityId, real>, idle: set<EntityId>, pursue: set<EntityId>,
                       destinations: map<EntityId, Vec3>)
    returns (turnSpeeds': map<EntityId, real>, peel': set<EntityId>, idle': set<EntityId>, pursue': set<EntityId>,
             destinations': map<EntityId, Vec3>)
    ensures turnSpeeds'.Keys == turnSpeeds.Keys
    ensures forall e :: e in turnSpeeds ==>
      turnSpeeds'[e] ==
        if e in peel && e in positions && e in headings && e in maxTurnSpeeds && Resolves(e, targets, positions)
        then PeelRate(m, positions[targets[e].value], positions[e], headings[e], maxTurnSpeeds[e])
        else turnSpeeds[e]
    ensures forall e :: e in peel' <==>
      e in peel && !(e in positions && e in headings && e in maxTurnSpeeds && e in turnSpeeds &&
                     (Lost(e, targets, positions) || OutOfRange(e, targets, positions)))
    ensures forall e :: e in idle' <==>
      e in idle || (e in peel && e in positions && e in headings && e in maxTurnSpeeds && e in turnSpeeds &&
                    Lost(e, targets, positions))
    ensures forall e :: e in pursue' <==>
      e in pursue || (e in peel && e in headings && e in maxTurnSpeeds && e in turnSpeeds &&
                      OutOfRange(e, targets, positions))
    ensures forall e :: e in destinations' <==> e in destinations || (e in peel && !(e in peel'))
    ensures forall e :: e in destinations' ==>
      destinations'[e] == if e in peel && e !in peel' then Zero else destinations[e]
    ensures ModesConsistent(idle, pursue, peel, destinations) ==> ModesConsistent(idle', pursue', peel', destinations')
  {
    var lost, far;
    turnSpeeds', lost, far := SteerPeels(m, peel, targets, positions, headings, maxTurnSpeeds, turnSpeeds);
    // The deferred commands take effect once the loop is over.
    peel' := peel - lost - far;
    idle' := idle + lost;
    pursue' := pursue + far;
    destinations' := map e | e in destinations.Keys + lost + far :: if e in lost || e in far then Zero else destinations[e];
  }

  /** The loop of `peel_manoeuvre`: the new turn speeds, and the peeling agents
      whose target is lost (`lost`) or out of range (`far`), for which commands
      are queued. */
  method SteerPeels(m: Maths, peel: set<EntityId>, targets: map<EntityId, Target>, positions: map<EntityId, Vec3>,
                    headings: map<EntityId, real>, maxTurnSpeeds: map<EntityId, real>, turnSpeeds: map<EntityId, real>)
    returns (turnSpeeds': map<EntityId, real>, lost: set<EntityId>, far: set<EntityId>)
    ensures turnSpeeds'.Keys == turnSpeeds.Keys
    ensures forall e :: e in turnSpeeds ==>
      turnSpeeds'[e] ==
        if e in peel && e in positions && e in headings && e in maxTurnSpeeds && Resolves(e, targets, positions)
        then PeelRate(m, positions[targets[e].value], positions[e], headings[e], maxTurnSpeeds[e])
        else turnSpeeds[e]
    ensures forall e :: e in lost <==>
      e in peel && e in positions && e in headings && e in maxTurnSpeeds && e in turnSpeeds && Lost(e, targets, positions)
    ensures forall e :: e in far <==>
      e in peel && e in headings && e in maxTurnSpeeds && e in turnSpeeds && OutOfRange(e, targets, positions)
  {
    var query := peel * targets.Keys * positions.Keys * headings.Keys * maxTurnSpeeds.Keys * turnSpeeds.Keys;
    turnSpeeds' := turnSpeeds;
    lost, far := {}, {};
    var todo := query;
    while todo != {}
      invariant todo <= query
      invariant turnSpeeds'.Keys == turnSpeeds.Keys
      invariant forall e :: e in lost <==> e in query && e !in todo && Lost(e, targets, positions)
      invariant forall e :: e in far <==> e in query && e !in todo && OutOfRange(e, targets, positions)
      invariant forall e :: e in turnSpeeds ==>
        turnSpeeds'[e] ==
          if e in query && e !in todo && Resolves(e, targets, positions)
          then PeelRate(m, positions[targets[e].value], positions[e], headings[e], maxTurnSpeeds[e])
          else turnSpeeds[e]
      decreases todo
    {
      var e :| e in todo;
      todo := todo - {e};
      var target := targets[e];
      if target.None? {
        continue;
      }
      if target.value !in positions {
        lost := lost + {e};
        continue;
      }
      turnSpeeds' := turnSpeeds'[e := PeelRate(m, positions[target.value], positions[e], headings[e], maxTurnSpeeds[e])];
      var delta := Flat(positions[target.value].Sub(positions[e]));
      if delta.LengthSquared() > ENGAGEMENT_RADIUS * ENGAGEMENT_RADIUS {
        far := far + {e};
      }
    }
  }
}
