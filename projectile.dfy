/** Projectiles: homing guidance, the impact test against the target's circular
    hit box, triggering the payload, despawning on impact, and initialising a
    freshly launched projectile from its launcher. */
module Projectile {
  import opened Ecs
  import opened Combat

  datatype Projectile = Projectile(reachedTarget: bool)

  /** `Projectile::new` (also its default): launched, not yet at its target. */
  function NewProjectile(): (p: Projectile)
    ensures !p.reachedTarget
  {
    Projectile(false)
  }

  /** The target of `e` resolves to an entity with a position. */
  predicate TargetResolves(e: EntityId, targets: map<EntityId, Target>, positions: map<EntityId, Vec3>)
  {
    e in targets && targets[e].Some? && targets[e].value in positions
  }

  /** `update_homing_projectile_position_target` over the homing projectiles with a
      turn-to-destination behaviour (`destinations`), a target and a turn speed. A
      projectile whose target resolves steers for the target's position; any other
      loses its turn-to-destination behaviour (a deferred removal) and stops
      turning. */
  method UpdateHomingProjectilePositionTarget(homing: set<EntityId>, projectiles: map<EntityId, Projectile>,
                                              destinations: map<EntityId, Vec3>, targets: map<EntityId, Target>,
                                              turnSpeeds: map<EntityId, real>, positions: map<EntityId, Vec3>)
    returns (destinations': map<EntityId, Vec3>, turnSpeeds': map<EntityId, real>)
    ensures turnSpeeds'.Keys == turnSpeeds.Keys
    ensures forall e :: e in destinations' <==>
      e in destinations &&
      !(e in homing && e in projectiles && e in targets && e in turnSpeeds && !TargetResolves(e, targets, positions))
    ensures forall e :: e in homing && e in projectiles && e in destinations && e in targets && e in turnSpeeds ==>
      if TargetResolves(e, targets, positions)
      then destinations'[e] == positions[targets[e].value] && turnSpeeds'[e] == turnSpeeds[e]
      else turnSpeeds'[e] == 0.0
    ensures forall e :: e in destinations && !(e in homing && e in projectiles && e in targets && e in turnSpeeds) ==>
      destinations'[e] == destinations[e]
    ensures forall e :: e in turnSpeeds && !(e in homing && e in projectiles && e in destinations && e in targets) ==>
      turnSpeeds'[e] == turnSpeeds[e]
  {
    var query := homing * projectiles.Keys * destinations.Keys * targets.Keys * turnSpeeds.Keys;
    destinations', turnSpeeds' := destinations, turnSpeeds;
    var removals: set<EntityId> := {};
    var todo := query;
    while todo != {}
      invariant todo <= query
      invariant destinations'.Keys == destinations.Keys && turnSpeeds'.Keys == turnSpeeds.Keys
      invariant forall e :: e in removals <==> e in query && e !in todo && !TargetResolves(e, targets, positions)
      invariant forall e :: e in query && e !in todo ==>
        if TargetResolves(e, targets, positions)
        then destinations'[e] == positions[targets[e].value] && turnSpeeds'[e] == turnSpeeds[e]
        else turnSpeeds'[e] == 0.0
      invariant forall e :: e in destinations && (e !in query || e in todo) ==> destinations'[e] == destinations[e]
      invariant forall e :: e in turnSpeeds && (e !in query || e in todo) ==> turnSpeeds'[e] == turnSpeeds[e]
      decreases todo
    {
      var e :| e in todo;
      todo := todo - {e};
      var target := targets[e];
      if target.Some? && target.value in positions {
        destinations' := destinations'[e := positions[target.value]];
      } else {
        removals := removals + {e};
        turnSpeeds' := turnSpeeds'[e := 0.0];
      }
    }
    // The deferred removals take effect once the loop is over.
    destinations' := map e | e in destinations' && e !in removals :: destinations'[e];
  }

  /** The projectile `e` is strictly inside its target's hit box: its target
      resolves to an entity with a position and a hit-box radius, and the squared
      distance is below the radius squared. */
  predicate Inside(e: EntityId, targets: map<EntityId, Target>, positions: map<EntityId, Vec3>,
                   hitBoxes: map<EntityId, real>)
  {
    e in targets && e in positions && targets[e].Some? &&
    var t := targets[e].value;
    t in positions && t in hitBoxes &&
    positions[t].Sub(positions[e]).LengthSquared() < hitBoxes[t] * hitBoxes[t]
  }

  /** `check_projectiles_reached_target` over the projectiles with a target and a
      position: a projectile reaches its target once it is inside the target's hit
      box, and stays at its target from then on. */
  method CheckProjectilesReachedTarget(projectiles: map<EntityId, Projectile>, targets: map<EntityId, Target>,
                                       positions: map<EntityId, Vec3>, hitBoxes: map<EntityId, real>)
    returns (projectiles': map<EntityId, Projectile>)
    ensures projectiles'.Keys == projectiles.Keys
    ensures forall e :: e in projectiles ==>
      (projectiles'[e].reachedTarget <==> projectiles[e].reachedTarget || Inside(e, targets, positions, hitBoxes))
  {
    projectiles' := projectiles;
    var todo := projectiles.Keys * targets.Keys * positions.Keys;
    while todo != {}
      invariant todo <= projectiles.Keys * targets.Keys * positions.Keys
      invariant projectiles'.Keys == projectiles.Keys
      invariant forall e :: e in projectiles && e !in todo ==>
        (projectiles'[e].reachedTarget <==> projectiles[e].reachedTarget || Inside(e, targets, positions, hitBoxes))
      invariant forall e :: e in todo ==> projectiles'[e] == projectiles[e]
      decreases todo
    {
      var e :| e in todo;
      todo := todo - {e};
      if projectiles'[e].reachedTarget {
        continue;
      }
      var target := targets[e];
      if target.None? {
        continue;
      }
      if !(target.value in positions && target.value in hitBoxes) {
        continue;
      }
      var r2 := positions[target.value].Sub(positions[e]).LengthSquared();
      if r2 < hitBoxes[target.value] * hitBoxes[target.value] {
        projectiles' := projectiles'[e := projectiles'[e].(reachedTarget := true)];
      }
    }
  }

  /** Grazing the hit box is not an impact: at exactly the radius the projectile
      has not reached its target. */
  lemma GrazingIsNotImpact(e: EntityId, targets: map<EntityId, Target>, positions: map<EntityId, Vec3>,
                           hitBoxes: map<EntityId, real>, t: EntityId)
    requires e in targets && targets[e] == Some(t) && e in positions && t in positions && t in hitBoxes
    requires positions[t].Sub(positions[e]).LengthSquared() == hitBoxes[t] * hitBoxes[t]
    ensures !Inside(e, targets, positions, hitBoxes)
  {}

  /** `projectiles_apply_effects`: a projectile at its target arms its effector
      to apply its effect once; other effectors are left alone. */
  method ProjectilesApplyEffects(numberToApply: map<EntityId, int>, projectiles: map<EntityId, Projectile>)
    returns (numberToApply': map<EntityId, int>)
    ensures numberToApply'.Keys == numberToApply.Keys
    ensures forall e :: e in numberToApply ==>
      numberToApply'[e] == if e in projectiles && projectiles[e].reachedTarget then 1 else numberToApply[e]
  {
    numberToApply' := numberToApply;
    var todo := numberToApply.Keys * projectiles.Keys;
    while todo != {}
      invariant todo <= numberToApply.Keys * projectiles.Keys
      invariant numberToApply'.Keys == numberToApply.Keys
      invariant forall e :: e in numberToApply ==>
        numberToApply'[e] == if e in projectiles && projectiles[e].reachedTarget && e !in todo then 1 else numberToApply[e]
      decreases todo
    {
      var e :| e in todo;
      if projectiles[e].reachedTarget {
        numberToApply' := numberToApply'[e := 1];
      }
      todo := todo - {e};
    }
  }

  /** `despawn_projectiles`: exactly the projectiles at their target are despawned. */
  method DespawnProjectiles(projectiles: map<EntityId, Projectile>) returns (despawned: set<EntityId>)
    ensures forall e :: e in despawned <==> e in projectiles && projectiles[e].reachedTarget
  {
    despawned := {};
    var todo := projectiles.Keys;
    while todo != {}
      invariant todo <= projectiles.Keys
      invariant forall e :: e in despawned <==> e in projectiles && e !in todo && projectiles[e].reachedTarget
      decreases todo
    {
      var e :| e in todo;
      if projectiles[e].reachedTarget {
        despawned := despawned + {e};
      }
      todo := todo - {e};
    }
  }

  /** A projectile added this tick whose instigator is a launcher (an entity with a
      target). */
  predicate Launched(e: EntityId, added: set<EntityId>, instigators: map<EntityId, EntityId>,
                     targets: map<EntityId, Target>)
  {
    e in added && e in instigators && instigators[e] in targets
  }

  /** `initialise_projectiles`: every projectile added this tick takes its
      launcher's target, and its launcher's team when the launcher has one. The
      inserts are deferred, so every launcher is read as it was before the call,
      whatever the iteration order. */
  method InitialiseProjectiles(added: set<EntityId>, instigators: map<EntityId, EntityId>,
                               teams: map<EntityId, Team>, targets: map<EntityId, Target>)
    returns (teams': map<EntityId, Team>, targets': map<EntityId, Target>)
    ensures forall e :: e in targets' <==> e in targets || Launched(e, added, instigators, targets)
    ensures forall e :: e in teams' <==> e in teams || (Launched(e, added, instigators, targets) && instigators[e] in teams)
    ensures forall e :: Launched(e, added, instigators, targets) ==>
      targets'[e] == targets[instigators[e]] &&
      (instigators[e] in teams ==> teams'[e] == teams[instigators[e]])
    ensures forall e :: e in targets && !Launched(e, added, instigators, targets) ==> targets'[e] == targets[e]
    ensures forall e :: e in teams && !(Launched(e, added, instigators, targets) && instigators[e] in teams) ==>
      teams'[e] == teams[e]
  {
    var newTargets: map<EntityId, Target> := map[];
    var newTeams: map<EntityId, Team> := map[];
    var todo := added * instigators.Keys;
    while todo != {}
      invariant todo <= added * instigators.Keys
      invariant forall e :: e in newTargets <==> Launched(e, added, instigators, targets) && e !in todo
      invariant forall e :: e in newTeams <==>
        Launched(e, added, instigators, targets) && e !in todo && instigators[e] in teams
      invariant forall e :: e in newTargets ==> newTargets[e] == targets[instigators[e]]
      invariant forall e :: e in newTeams ==> newTeams[e] == teams[instigators[e]]
      decreases todo
    {
      var e :| e in todo;
      todo := todo - {e};
      var launcher := instigators[e];
      if launcher !in targets {
        continue;
      }
      if launcher in teams {
        newTeams := newTeams[e := teams[launcher]];
      }
      newTargets := newTargets[e := targets[launcher]];
    }
    // The deferred inserts take effect once the loop is over.
    targets' := targets + newTargets;
    teams' := teams + newTeams;
  }
}
