/** Targeted tools (weapons and the like): cooldown countdown and the gated
    decision to fire at the current target. */
module Tools {
  import opened Ecs
  import opened Combat

  datatype Cooldown = Cooldown(remaining: real, duration: real) {
    /** `Cooldown::reset`: a full cooldown. */
    function Reset(): (c: Cooldown)
      ensures c.remaining == duration && c.duration == duration
      ensures duration > 0.0 ==> !c.IsReady()
    {
      this.(remaining := duration)
    }

    /** `Cooldown::is_ready`: the countdown has run out. */
    predicate IsReady() { remaining <= 0.0 }
  }

  datatype TargettedTool = TargettedTool(cone: real, range: real, armed: bool, firing: bool)

  /** The angular gate of a tool: true when the displacement to the target lies
      within half the cone of the shooter's forward axis. The normalisations and
      the cosine are left uninterpreted, so the test is supplied per shooter. */
  type ConeTest = (EntityId, Vec3, real) -> bool

  /** Whether the tool on `e` fires this tick, checked in the source's order: a
      target, armed, cooldown ready, target position known, within range (squared
      distance at most range squared), within the cone. */
  predicate Fires(e: EntityId, tool: TargettedTool, cooldown: Cooldown, target: Target,
                  shooterPos: Vec3, positions: map<EntityId, Vec3>, inCone: ConeTest)
  {
    target.Some? && tool.armed && cooldown.IsReady() && target.value in positions &&
    var delta := positions[target.value].Sub(shooterPos);
    delta.LengthSquared() <= tool.range * tool.range &&
    inCone(e, delta, tool.cone)
  }

  /** `update_cooldowns`: every cooldown runs down by `dt`, without a floor. */
  method UpdateCooldowns(dt: real, cooldowns: map<EntityId, Cooldown>)
    returns (cooldowns': map<EntityId, Cooldown>)
    ensures cooldowns'.Keys == cooldowns.Keys
    ensures forall e :: e in cooldowns ==>
      cooldowns'[e].remaining + dt == cooldowns[e].remaining &&
      cooldowns'[e].duration == cooldowns[e].duration
  {
    cooldowns' := cooldowns;
    var todo := cooldowns.Keys;
    while todo != {}
      invariant todo <= cooldowns.Keys
      invariant cooldowns'.Keys == cooldowns.Keys
      invariant forall e :: e in cooldowns && e !in todo ==>
        cooldowns'[e].remaining + dt == cooldowns[e].remaining &&
        cooldowns'[e].duration == cooldowns[e].duration
      invariant forall e :: e in todo ==> cooldowns'[e] == cooldowns[e]
      decreases todo
    {
      var e :| e in todo;
      var c := cooldowns'[e];
      cooldowns' := cooldowns'[e := c.(remaining := c.remaining - dt)];
      todo := todo - {e};
    }
  }

  /** `fire_targetted_tools` over the entities holding a cooldown, a tool, a target
      and a position. A tool that fires is flagged firing and its cooldown is reset;
      any other tool and cooldown keep their values. Targets are only read. */
  method FireTargettedTools(cooldowns: map<EntityId, Cooldown>, tools: map<EntityId, TargettedTool>,
                            targets: map<EntityId, Target>, positions: map<EntityId, Vec3>,
                            inCone: ConeTest)
    returns (cooldowns': map<EntityId, Cooldown>, tools': map<EntityId, TargettedTool>)
    ensures cooldowns'.Keys == cooldowns.Keys && tools'.Keys == tools.Keys
    ensures forall e :: e in cooldowns && e in tools && e in targets && e in positions ==>
      if Fires(e, tools[e], cooldowns[e], targets[e], positions[e], positions, inCone)
      then tools'[e] == tools[e].(firing := true) && cooldowns'[e] == cooldowns[e].Reset()
      else tools'[e] == tools[e] && cooldowns'[e] == cooldowns[e]
    ensures forall e :: e in cooldowns && !(e in tools && e in targets && e in positions) ==>
      cooldowns'[e] == cooldowns[e]
    ensures forall e :: e in tools && !(e in cooldowns && e in targets && e in positions) ==>
      tools'[e] == tools[e]
    ensures forall e :: e in tools ==>
      (tools[e].firing ==> tools'[e].firing) && tools'[e].armed == tools[e].armed &&
      tools'[e].range == tools[e].range && tools'[e].cone == tools[e].cone
  {
    cooldowns', tools' := cooldowns, tools;
    var todo := cooldowns.Keys * tools.Keys * targets.Keys * positions.Keys;
    while todo != {}
      invariant todo <= cooldowns.Keys * tools.Keys * targets.Keys * positions.Keys
      invariant cooldowns'.Keys == cooldowns.Keys && tools'.Keys == tools.Keys
      invariant forall e :: e in cooldowns && e in tools && e in targets && e in positions && e !in todo ==>
        if Fires(e, tools[e], cooldowns[e], targets[e], positions[e], positions, inCone)
        then tools'[e] == tools[e].(firing := true) && cooldowns'[e] == cooldowns[e].Reset()
        else tools'[e] == tools[e] && cooldowns'[e] == cooldowns[e]
      invariant forall e :: e in cooldowns && (e in todo || !(e in tools && e in targets && e in positions)) ==>
        cooldowns'[e] == cooldowns[e]
      invariant forall e :: e in tools && (e in todo || !(e in cooldowns && e in targets && e in positions)) ==>
        tools'[e] == tools[e]
      decreases todo
    {
      var e :| e in todo;
      todo := todo - {e};
      var target := targets[e];
      if target.None? {
        continue;
      }
      if !tools'[e].armed {
        continue;
      }
      if !cooldowns'[e].IsReady() {
        continue;
      }
      if target.value !in positions {
        continue;
      }
      var delta := positions[target.value].Sub(positions[e]);
      if delta.LengthSquared() > tools'[e].range * tools'[e].range {
        continue;
      }
      if !inCone(e, delta, tools'[e].cone) {
        continue;
      }
      tools' := tools'[e := tools'[e].(firing := true)];
      cooldowns' := cooldowns'[e := cooldowns'[e].Reset()];
    }
  }

  /** A target at exactly the tool's range is within range: the gate is `>`, not
      `>=`, so only a strictly greater distance blocks the shot. */
  lemma RangeBoundaryFires(e: EntityId, tool: TargettedTool, cooldown: Cooldown, t: EntityId,
                           shooterPos: Vec3, positions: map<EntityId, Vec3>, inCone: ConeTest)
    requires tool.armed && cooldown.IsReady() && t in positions
    requires positions[t].Sub(shooterPos).LengthSquared() == tool.range * tool.range
    requires inCone(e, positions[t].Sub(shooterPos), tool.cone)
    ensures Fires(e, tool, cooldown, Some(t), shooterPos, positions, inCone)
  {}

  /** A tool whose target has no position does not fire. */
  lemma UnresolvedTargetHoldsFire(e: EntityId, tool: TargettedTool, cooldown: Cooldown, t: EntityId,
                                  shooterPos: Vec3, positions: map<EntityId, Vec3>, inCone: ConeTest)
    requires t !in positions
    ensures !Fires(e, tool, cooldown, Some(t), shooterPos, positions, inCone)
  {}
}
