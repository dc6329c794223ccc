# bevy_combat: a verified model of the per-tick combat and behaviour systems

bevy_combat is a space-combat simulation built on the Bevy entity-component
system. Every tick a fixed set of systems runs over the entities. Each system
reads some components and updates others. Together they do these things:

- weapons cool down and fire;
- attacks hit, miss or are blocked by shields;
- damaged ships go through death throes and are disposed of;
- projectiles home in on their targets and despawn on impact;
- the AI steers between roaming, pursuit and peeling away;
- visual effects are requested.

This project models those systems in Dafny and proves properties about them.

## How the model is built

- **Entity store.** An entity is a `nat`. A component is a `map<EntityId, T>`. A tag component (`Mortal`, `IdleBehavior`, `Expired`, ...) is a `set<EntityId>`. `f32` is modelled as `real`.
- **Systems.** Each system is a `method` over the component maps its query touches. It returns the new maps as out-parameters. It loops over the query's entities, one at a time, with loop invariants.
- **Iteration order.** A system whose result can depend on the iteration order takes that order as an input, as `order: seq<EntityId>` listing the query's entities. This covers shield absorption, target inheritance and damage flashes. Each such system is specified by a fold over the prefix of the order.
- **Deferred commands.** Bevy `Commands` take effect when the system call ends, so every insert, removal and despawn is collected during the loop and applied after it. This is what makes a lifetime that expires in one call despawn in a later call.
- **Randomness.** Random draws (`rng.gen_range`) are inputs. Each is a function from the entity to a draw record, and a `requires` clause keeps it inside the source's range.
- **Maths.** `atan2`, `sqrt`, `cos`, `sin`, `exp` and `normalize` are fields of a `Maths` record of functions passed in. Lemmas that need one of their properties state it as a precondition, such as `cos² + sin² = 1`, `exp` monotone, or `atan2` giving the polar angle.
- **Fixed time step.** `FIXED_TIME_STEP` is a parameter.
- **`f32::signum`.** It returns `1.0` for zero (`Ecs.Signum`).

The modules follow the source files:

| module | file(s) |
|---|---|
| `Ecs` | shared entity ids, `Option`, vectors, transforms, `signum`/`abs`/`min` |
| `Combat` | `Target`, `Team`, `Attack`, effect requests |
| `MathUtil` | `src/math_util.rs` |
| `Movement` | `src/movement.rs` |
| `Game` | `src/game/mod.rs` |
| `Mortal` | `src/combat/mortal.rs` |
| `Tools` | `src/combat/tools.rs` |
| `Shields` | `src/combat/shields.rs` |
| `Evasion` | `src/combat/evasion.rs` |
| `Projectile` | `src/combat/projectile.rs` |
| `Lifetime` | `src/combat/lifetime.rs` |
| `Targets` | `src/combat/targets.rs` |
| `Spawn` | `src/templates/ships/spawn.rs` |
| `AiMovement` | `src/ai/movement.rs` |
| `Idle` | `src/ai/idle.rs` |
| `DeathFx` | `src/fx/death.rs` |
| `HitFx` | `src/fx/mod.rs` |
| `Beams` | `src/fx/beams.rs` |
| `DamageFlash` | `src/fx/damage_flash.rs` |

### Behaviours worth knowing

- **`determine_missed_attacks`.** It overwrites the result of every attack aimed at an evading target, Blocked attacks included. It does not skip attacks that are not a Hit (`Evasion.DetermineMissedAttacks`).
- **Lifetime reaching exactly zero.** A lifetime that reaches exactly zero has not expired: the test is `< 0.0`. In the model's exact arithmetic, a two-second lifetime at 0.1 s per call is therefore tagged Expired on call 21 and despawned on call 22 (`Lifetime.TwoSecondLifetime`). The program computes in `f32`, where 0.1 is slightly more than a tenth, so twenty subtractions already go below zero. There it expires on call 20 and is despawned on call 21. The floating-point line under "## Left out" covers this difference.
- **Headings in the AI model.** `turn_to_destination` and `peel_manoeuvre` steer by `get_heading_to_point` as written, `atan2(delta.x, delta.z)` (`MathUtil.HeadingToPoint`). The heading the rest of the game uses, `atan2(delta.y, delta.x)` (`MathUtil.HeadingTo`), appears only as the corrected half of the row under "## Findings".

## Model

| member | source | states |
|---|---|---|
| MathUtil.HeadingToPointIgnoresY | src/math_util.rs:10-12 | The heading as written reads only x and z. Two targets in the plane of play at (1, 100, 0) and (1, -100, 0) get the same heading, whatever `atan2` is. |
| MathUtil.HeadingToPointsAtTarget | src/math_util.rs:5-12 | With `atan2` giving the polar angle, facing along the corrected heading of `delta` faces `delta`: cos·len(delta) = x and sin·len(delta) = y. |
| MathUtil.HeadingToSeparatesTargets | src/math_util.rs:5-12 | The corrected heading tells apart the two targets that the as-written heading confuses. |
| MathUtil.FloorMod | src/math_util.rs:22-25 | The custom modulus `a - floor(a/n)*n` lies in [0, n) for n > 0. |
| MathUtil.AngleDifference | src/math_util.rs:21-26 | The angle difference lies in [-pi, pi). |
| MathUtil.AngleDifferenceSameAngle | src/math_util.rs:22-25 | The result differs from `target - initial` by a whole number of turns. |
| MathUtil.AngleDifferenceOfEqual | src/math_util.rs:23-25 | Equal angles give a difference of 0. |
| MathUtil.AngleDifferenceMinimal | src/math_util.rs:14-26 | The result has the smallest magnitude among all values naming the same rotation. |
| MathUtil.AngleDifferenceUnique | src/math_util.rs:21-26 | It is the only value in [-pi, pi) naming that rotation. |
| Movement.NewMaxTurnSpeed | src/movement.rs:30-36 | `MaxTurnSpeed::new(r)` stores exactly r. |
| Movement.WrapHeading | src/movement.rs:82-89 | Both wrap loops terminate. The result lies in [0, 2pi] and names the same angle as the input. It is unchanged when the input is already in [0, 2pi]. |
| Movement.UpdateHeading | src/movement.rs:80-91 | Every heading with a turn speed becomes `old + turn*dt` wrapped into [0, 2pi] (same angle). Other headings are kept. |
| Movement.CalculateMaxSpeed | src/movement.rs:68-72 | max_speed · mass = thrust for every entity with mass, thrust and max speed. It requires a non-zero mass (see "## Left out"). Other entities are kept. |
| Movement.CalculateSpeed | src/movement.rs:74-78 | speed = max_speed for every entity with both. Others are kept. |
| Movement.UpdateTranslation | src/movement.rs:56-60 | The translation moves by exactly velocity·dt, component by component. Rotation and scale are kept, as are entities without a velocity. |
| Game.ClampSpeed | src/game/mod.rs:49 | The speed ends in [0, 3], unchanged if already in range and clamped to the nearer bound otherwise. |
| Game.NextSpeed | src/game/mod.rs:43-49 | The result lies in [0, 3]. Equals alone gives the clamp of speed + 1, Minus alone the clamp of speed - 1, and both keys or neither the clamp of the speed. Pressing both keys, or neither, keeps a valid speed. The speed moves by at most one per frame. |
| Game.TimeDelta | src/game/mod.rs:50 | dt is the fixed step at speed 2 and zero at speed 0. |
| Game.TimeDeltaBounds | src/game/mod.rs:49-50 | For a non-negative fixed step and a clamped speed, 0 ≤ dt ≤ 1.5 · fixed step. |
| Game.GameClock.Startup | src/game/mod.rs:31-36 | `startup` gives dt = 1/60 at speed 2. |
| Game.GameClock.ControlGameSpeed | src/game/mod.rs:38-52 | The speed becomes the clamped result of the key presses. dt is derived from it and bounded. The speed invariant [0, 3] is kept. |
| Mortal.ThroesDelay | src/combat/mortal.rs:42-47 | The death-throes delay is exactly 0 (iff the chance draw is below 0.3) or lies in [1, 4). |
| Mortal.CheckForDieingEntities | src/combat/mortal.rs:34-51 | Exactly the mortal, not-yet-dieing entities with health ≤ 0 gain `Dieing` with dead = dispose = false and the delay `ThroesDelay` of their own draw: 0 (instant death) when the chance is below 0.3, otherwise the drawn delay in [1, 4). Everything else is untouched. |
| Mortal.DieingStep | src/combat/mortal.rs:62-72 | The countdown drops by exactly dt. No flag changes while the countdown is ≥ 0. Neither flag is cleared. Below zero, a living entity becomes dead, and an entity that was already dead is marked for disposal. Dispose is set only when already dead, never together with dead. |
| Mortal.UpdateDieing | src/combat/mortal.rs:58-74 | Every `Dieing` advances by one `DieingStep`. No entity gains or loses the component. |
| Mortal.DisposeDieing | src/combat/mortal.rs:76-85 | Exactly the entities marked dispose are despawned. |
| Mortal.RunKeepsDisposeImpliesDead | src/combat/mortal.rs:53-74 | dispose ⇒ dead holds after every run of ticks from a consistent start. |
| Mortal.RunFlagsMonotone | src/combat/mortal.rs:58-74 | Neither dead nor dispose is ever reset over a run of ticks. |
| Mortal.DisposeAfterDeath | src/combat/mortal.rs:53-57 | A run that ends disposed was already dead one tick earlier: disposal is at least one tick after death. |
| Mortal.ThroesCountDown | src/combat/mortal.rs:62-72 | While the countdown has not crossed zero, n ticks of dt take exactly n·dt off fresh death throes, and the entity stays alive. |
| Mortal.DieingEnds | src/combat/mortal.rs:53-74 | With dt > 0, death throes of t ≥ 0 seconds are alive after floor(t/dt) ticks, dead but not disposable after the next tick, and marked for disposal after the one after. So every doomed entity is disposed of, as the doc comment promises. |
| Mortal.InstantDeathScenario | src/combat/mortal.rs:42-74 | With a zero delay, the entity is dead after one tick and marked for disposal after the second. |
| Tools.Cooldown.Reset | src/combat/tools.rs:28-32 | A reset puts `remaining` at `duration`, so with a positive duration the tool is not ready. |
| Tools.UpdateCooldowns | src/combat/tools.rs:36-43 | Every cooldown drops by exactly dt with no floor. The duration is kept. |
| Tools.FireTargettedTools | src/combat/tools.rs:45-92 | A tool fires iff it has a target, is armed, its cooldown is ready, the target has a position, it is within range and it is within the cone. If it fires, `firing` is set and the cooldown is reset. Otherwise tool and cooldown are unchanged. `firing` is never cleared, other tool fields are kept, and targets are only read. |
| Tools.RangeBoundaryFires | src/combat/tools.rs:74-76 | A target at exactly the range is still eligible to fire. |
| Tools.UnresolvedTargetHoldsFire | src/combat/tools.rs:68-69 | A tool whose target has no position does not fire. |
| Shields.AbsorbOne | src/combat/shields.rs:39-79 | Nothing changes, and no request is made, in these cases: no target, not a Hit, the target has no shield, the attack comes from inside the radius, or min(health, damage) ≤ 0 (a drained shield lets the hit through). Otherwise absorbed = min(health, damage). Shield health and damage both drop by it, so their sum is conserved. Health stays ≥ 0. The result moves Hit→Blocked exactly when a request is made. Then the hit location moves by the shield radius along the normalised direction to the source. The request is the Shield effect at the shield's position, rotated to `atan2(delta.y, delta.x) - pi/2`, scaled by radius/32, with no parent. |
| Shields.ShieldAbsorbDamage | src/combat/shields.rs:28-81 | The call equals folding `AbsorbOne` over the attacks in iteration order against the shared shield table. No attack or shield entity is added or lost. |
| Shields.AbsorbAllKeepsHealthNonNegative | src/combat/shields.rs:60-63 | Shield health never drops below zero over a whole call when it starts non-negative. |
| Shields.RequestsCountBlocked | src/combat/shields.rs:62-77 | The call makes exactly one shield-effect request per attack turned from Hit to Blocked, and no other. |
| Shields.AttacksUntouched | src/combat/shields.rs:39 | An attack not yet visited still holds its initial components. |
| Shields.FullAbsorption | src/combat/shields.rs:60-66 | A hit from outside a shield holding at least its damage loses all of its damage and is Blocked. The shield loses exactly that damage. |
| Shields.PartialAbsorption | src/combat/shields.rs:60-66 | A hit on a non-empty shield weaker than it empties the shield and keeps the rest of its damage. |
| Shields.PartialAbsorptionScenario | src/combat/shields.rs:60-66 | Example: a 30-point shield against a 50-point hit ends at 0, and the attack keeps 20 and is Blocked. |
| Shields.SequentialDepletionScenario | src/combat/shields.rs:39-66 | Example: two 20-point hits on one 30-point shield in a single call deplete it in sequence (0 and 10 damage left, two requests). |
| Evasion.NewEvasion | src/combat/evasion.rs:24-30 | `Evasion::new(b)` has base b, no movement bonus and total 0. |
| Evasion.MovementBonus | src/combat/evasion.rs:41-44 | The bonus is zero when standing still or not turning at all. |
| Evasion.MovementBonusMonotone | src/combat/evasion.rs:41-44 | The bonus is non-negative for a non-negative speed and grows with speed. |
| Evasion.CalculateEvasionRatings | src/combat/evasion.rs:37-47 | Each rating gets bonus = (abs(turn)+abs(max turn))/2 · speed/(2·200) and total = base + bonus, so total ≥ base for a non-negative speed. Entities outside the query are kept. |
| Evasion.DetermineMissedAttacks | src/combat/evasion.rs:50-68 | An attack aimed at an evading target becomes a Miss iff its draw exceeds exp(-total/accuracy). Attacks with no target or a target without evasion are kept. The only change ever made is to Miss. A hit chance ≥ 1 never misses. |
| Evasion.ZeroEvasionNeverMisses | src/combat/evasion.rs:62-63 | A target with zero total evasion is never missed (exp(0) = 1 beats every draw in [0, 1)). |
| Evasion.MissesMonotone | src/combat/evasion.rs:62-63 | For a non-negative accuracy and the same draw, an attack that misses a target also misses every target with more evasion. |
| Evasion.MissesMonotoneInAccuracy | src/combat/evasion.rs:62-63 | Against non-negative evasion and for the same draw, an attack that misses with a positive accuracy also misses with any lower positive accuracy. |
| Projectile.NewProjectile | src/combat/projectile.rs:21-25 | A new projectile has not reached its target. |
| Projectile.UpdateHomingProjectilePositionTarget | src/combat/projectile.rs:46-76 | A homing projectile whose target resolves steers for the target's position. Any other projectile loses its turn-to-destination behaviour (deferred) and its turn speed becomes 0. Entities outside the query are kept. |
| Projectile.CheckProjectilesReachedTarget | src/combat/projectile.rs:78-97 | `reached_target` becomes true iff it was already true or the projectile is strictly inside its resolved target's hit box. It is never reset. |
| Projectile.GrazingIsNotImpact | src/combat/projectile.rs:92-95 | At exactly the hit-box radius the projectile has not reached its target. |
| Projectile.ProjectilesApplyEffects | src/combat/projectile.rs:99-105 | `number_to_apply` becomes 1 exactly for projectiles at their target. Other effectors are kept. |
| Projectile.DespawnProjectiles | src/combat/projectile.rs:107-113 | Exactly the projectiles at their target are despawned. |
| Projectile.InitialiseProjectiles | src/combat/projectile.rs:115-130 | A projectile added this tick whose instigator has a Target copies that Target, and also the instigator's Team if it has one. Otherwise nothing is inserted. Launchers are read as they were before the call. |
| Lifetime.StepLife | src/combat/lifetime.rs:21-30 | A living entity counts down by dt and is never despawned in the same call. It is tagged Expired exactly when the new value is below zero. Exactly the entities already Expired are despawned. Untracked entities stay untracked. |
| Lifetime.UpdateLifetimes | src/combat/lifetime.rs:15-31 | The call moves every entity one `StepLife` step. A lifetime going strictly below 0 is replaced by Expired. Exactly the entities Expired at the start are despawned. |
| Lifetime.CountsDown | src/combat/lifetime.rs:22 | While it has not crossed zero, a lifetime has exactly n·dt taken off after n calls. |
| Lifetime.LifetimeEnds | src/combat/lifetime.rs:21-30 | With dt > 0, a lifetime of r ≥ 0 is alive after floor(r/dt) calls, Expired after the next call and despawned after the one after that. |
| Lifetime.TwoSecondLifetime | src/combat/lifetime.rs:22-30 | Example in exact arithmetic: 2 s at 0.1 s per call leaves exactly 0 after 20 calls, which does not expire. It is Expired at call 21 and despawned at call 22. In `f32` the program expires one call earlier (see "## Left out"). |
| Targets.CopyOne | src/combat/targets.rs:16-22 | The child takes its parent's Target, or None if the parent has no Target. A child without a Target component is unchanged, as are all other entities. |
| Targets.CopyTargetsFromParents | src/combat/targets.rs:11-24 | The call equals applying `CopyOne` to the inheriting children in iteration order. No Target component is added or removed. |
| Targets.UnvisitedKeepTargets | src/combat/targets.rs:11-24 | Entities that do not inherit keep their targets. |
| Targets.CopyAllClosedForm | src/combat/targets.rs:11-24 | When no parent itself inherits, every inheriting child ends with its parent's target from before the call, whatever the order. |
| Targets.ChainDependsOnOrder | src/combat/targets.rs:15-22 | With a chain grandparent→parent→child, the child's result depends on the iteration order. |
| Spawn.SpawnTransform | src/templates/ships/spawn.rs:52-57 | The spawned ship keeps the command's translation and rotation, at scale 0.5. |
| Spawn.SpawnedTeam | src/templates/ships/spawn.rs:59-71 | The command's own Team wins. Failing that, the instigator's Team is used. With neither, the new entity keeps the Team its template gave it (none if the template gives none), since the system's inserts are queued after the template's. |
| Spawn.SpawnShipsAndDespawnSpawnCommands | src/templates/ships/spawn.rs:42-75 | Every command is despawned. `spawned` maps each new entity to its command, one entity per command. Each new entity gets the spawn transform, the team rule (which falls back to the template's own Team) and the command's instigator. Every other entity keeps its components. |
| Spawn.QueueSpawns | src/templates/ships/spawn.rs:51-74 | After the loop every command is queued for despawn. There is one new entity per command. `Queued` holds for all commands: each new entity has its transform, team and instigator inserts queued. |
| Spawn.QueueCommand | src/templates/ships/spawn.rs:52-73 | One pass of the loop adds exactly one spawned entity and extends `Queued` by that command. |
| Spawn.QueueOne | src/templates/ships/spawn.rs:52-73 | Queueing a further command's inserts preserves `Queued`. |
| Spawn.FreshSpawn | src/templates/ships/spawn.rs:59 | A command not yet handled spawns an entity that is not already spawned. |
| AiMovement.TurnRateBounds | src/ai/movement.rs:36-40 | With max ≥ 0 and rate = signum(diff)·min(max, abs(diff)/step): abs(rate) ≤ max, the rate turns toward diff, and it never overshoots in one step. It is the full rate when diff is out of reach and lands exactly on it otherwise. |
| AiMovement.TurnToDestination | src/ai/movement.rs:21-44 | Every agent with a destination turns at the rate for the angle difference between its heading and `get_heading_to_point` of the displacement, bounded by its maximum turn speed. Other agents are kept. |
| AiMovement.Pursue | src/ai/movement.rs:47-89 | No target: skipped. Lost target: Pursue→Idle. Resolved target: the destination becomes the target's position. Strictly within 64: Pursue and turn-to-destination are dropped and Peel is added. The behaviour invariant is kept: one mode each, and a destination exactly when not peeling. |
| AiMovement.PeelTurn | src/ai/movement.rs:133-138 | Inside the 0.3·pi cone the peel turns at full rate away from the target. Outside it the peel does not turn. Straight at the target (angle 0) it turns by -max, since Rust's `signum(0.0)` is 1. |
| AiMovement.PeelOpposesPursuit | src/ai/movement.rs:133-138 | Inside the cone, the peel turn is opposite in sign to the pursuit turn for the same angle. |
| AiMovement.PeelManoeuvre | src/ai/movement.rs:98-152 | No target: skipped. Lost target: Peel→Idle with a default destination. Otherwise the agent turns by `PeelTurn` of the angle between its heading and `get_heading_to_point` of the flattened displacement, and beyond 128 in the plane of play it goes Peel→Pursue with a default destination. The behaviour invariant is kept. |
| AiMovement.SteerPeels | src/ai/movement.rs:111-150 | The loop sets the peel turn rates and collects exactly the lost and the out-of-range peeling agents. |
| Idle.RoamPoint | src/ai/idle.rs:29 | A roaming destination stays at the centre's height. |
| Idle.RoamPointDistance | src/ai/idle.rs:27-29 | With cos²+sin² = 1, a roaming destination lies exactly the drawn distance from the centre. |
| Idle.RoamPointInCircle | src/ai/idle.rs:27-29 | With draws in range, the new destination lies strictly inside the roaming circle. |
| Idle.DoRoaming | src/ai/idle.rs:15-33 | An idle agent farther than 10 from its destination gets the roaming point for its draws. Every other destination is unchanged. |
| Idle.IdleToCombat | src/ai/idle.rs:35-48 | Exactly the idle, non-pursuing agents whose Target changed to Some start pursuing and stop idling. Everyone else is unchanged. The behaviour invariant is kept. |
| DeathFx.DeathStep | src/fx/death.rs:34-65 | Both countdowns drop by dt, or, below zero, take their own drawn delay in [0.05, 0.2) / [0, 0.05), and never end negative. A spent explosion countdown requests a dying explosion at the drawn offset and z +0.1, first. A spent smoke countdown then requests a Smoke1 puff at its drawn offset and z -0.05. A dead entity adds a death explosion at its position, last. That makes at most three requests, all without a parent. |
| DeathFx.DoDeathEffects | src/fx/death.rs:27-67 | Every entity with a death effect, a position and death throes takes one `DeathStep`, and its requests are queued. Others are kept. |
| DeathFx.DeathEffectsOf | src/fx/death.rs:34-65 | The loop body for one entity computes `DeathStep`. |
| DeathFx.ExplosionWithin | src/fx/death.rs:34-46 | With dt > 0, an entity whose explosion countdown is below n·dt requests a dying explosion within its next n calls. |
| HitFx.CreateHitEffects | src/fx/mod.rs:40-59 | Exactly one request per non-Miss attack and none per Miss. It carries the hit effect, offsets x, y in [-6, 6) and z +0.1, and no parent. |
| Beams.BeamCentred | src/fx/beams.rs:24-35 | The sprite sits at the midpoint (twice it is start+end, equidistant from both ends). Its x scale is `width` and its z scale is 1. It is turned a quarter turn past the beam direction. |
| Beams.BeamLength | src/fx/beams.rs:27 | With a true square root, the sprite's height is a quarter of the beam's length. |
| Beams.SpawnBeams | src/fx/beams.rs:37-65 | One beam per query entity, from the source to the impact point, with the style's width and animation. It tracks its target iff the attack is a Hit. A set target is required, as the source's `expect` demands. |
| Beams.Track | src/fx/beams.rs:71-79 | `start` follows the source while it resolves. `end` moves to the target's position for a tracking beam whose target resolves, and otherwise stays where it was. The other fields are kept. |
| Beams.TrackIdempotent | src/fx/beams.rs:71-79 | Following twice with the same positions is following once. |
| Beams.UntrackedEndFixed | src/fx/beams.rs:75-79 | A non-tracking beam keeps its end over any number of ticks. |
| Beams.BeamsTrackTarget | src/fx/beams.rs:67-82 | Every beam with a pose is followed for one tick, and its pose is recomputed from the new ends. Everything else is kept. |
| Beams.TrackBeam | src/fx/beams.rs:72-80 | The loop body follows one beam and recomputes its pose. |
| DamageFlash.FlashAll | src/fx/damage_flash.rs:11-16 | Writing timers into materials never creates or deletes a material. |
| DamageFlash.UpdateDamageFlashes | src/fx/damage_flash.rs:5-20 | Every timer of a ship with a material handle advances by exactly dt, even when the material is missing. The materials equal the in-order writes of the timers' values from before the increment. |
| DamageFlash.UnreferencedMaterialKept | src/fx/damage_flash.rs:11-14 | A material no ship refers to keeps its value. |
| DamageFlash.LastWriterWins | src/fx/damage_flash.rs:10-16 | A shared material shows the timer of the last ship in iteration order that refers to it. |
| DamageFlash.UniqueMaterialsShowOwnTimer | src/fx/damage_flash.rs:10-16 | With one material per ship, every material shows its own ship's timer, whatever the order. |

## Left out

- Floating point is not modelled. `f32` rounding, NaN, infinities and -0.0 are absent and `real` is exact, except that `signum` follows Rust (1.0 at zero). The one place where the model spells out a floating-point outcome is a zero accuracy in `Evasion.Misses`. So counts of calls, such as those in `Lifetime.TwoSecondLifetime`, are exact-arithmetic counts: accumulated `f32` rounding can shift them by one call.
- Transcendentals stay uninterpreted: `atan2`, `sqrt`, `cos`, `sin`, `exp` and vector `normalize` are fields of `Ecs.Maths`. Lemmas that need a property of one take it as a precondition.
- The firing cone test (the normalised dot product against `cos(cone/2)`, src/combat/tools.rs:79-82) is an abstract predicate `Tools.ConeTest` supplied per shooter.
- `update_velocity` and `update_rotation` (src/movement.rs:50-54, 62-66) are not modelled: they build quaternions, and the model has no quaternion arithmetic. `Ecs.Quat` is opaque data carried through transforms.
- Random draws are inputs within the source's ranges, not an RNG. The model proves the properties for every draw in range.
- A panic of `gen_range` on an empty range, such as a roaming radius ≤ 0, is turned into a precondition on the draws.
- `Movement.CalculateMaxSpeed` requires a non-zero mass. In `f32`, `thrust / 0.0` gives an infinity or NaN and does not fail, but the model has no infinities, so that case is excluded rather than modelled.
- `Idle.DoRoaming`: the requirement that draws lie in range stands in for the panic of `gen_range(0.0..radius)` when radius ≤ 0.
- `Beams.SpawnBeams` requires a set target because the source's `expect` panics otherwise.
- `GlobalTransform` and `Transform` are one position per entity. Parent/child transform propagation is Bevy's and is left out.
- `despawn_recursive` despawns the entity only. Children are not modelled.
- The template's `spawn` (src/templates/ships/spawn.rs:28-33) is a function `created` from command to new entity id, required to hand out fresh, distinct ids, plus the input `templateTeams`: the Team the template puts on the new entity (the frigate template gives team 1). Its other components (health, shields, weapons, materials, children) are not modelled. The Transform it gives is always replaced by the system's insert.
- The `println!` in `spawn_ships_and_despawn_spawn_commands` is dropped.
- `Effector` is modelled only by its `number_to_apply` count. Effect application, damage application and `Instigator` handling beyond copying are not modelled: their code is not among the modelled files.
- Target selection and aggression (src/ai/aggression.rs) are stubs in the source and are not modelled.
- Rendering, sprite animation, asset loading and shader bindings are not modelled. Effect requests are records (`Combat.EffectRequest`) rather than spawned sprites, and materials are `real` values keyed by handle.
- Plugin wiring and system ordering are not modelled. Each system is a single call, and `FIXED_TIME_STEP` is a parameter.
- Bevy's `Changed<Target>` filter is an input set `changed` in `Idle.IdleToCombat`.
- Query iteration order is an input only where the result depends on it (`Shields`, `Targets`, `DamageFlash`). Elsewhere the loops visit the query in any order, and the contracts hold for every order.
- `Beams.BeamTransform` gives the pose only. The rotation is the angle about z, not a quaternion.
- `AiMovement.TurnRateBounds` states its bounds only for a non-negative maximum turn speed. With a negative one the source's `min` gives rates that the model does not bound.
- `Evasion.MissesMonotone` is stated only for a non-negative accuracy, and `Evasion.MissesMonotoneInAccuracy` only for positive accuracies and non-negative evasion. For a negative accuracy the hit chance falls as evasion falls.

## Findings

| source | as written | input that shows it | evidently intended | confidence | as-written member | corrected member |
|---|---|---|---|---|---|---|
| src/math_util.rs:10-12 | `get_heading_to_point` returns `delta.x.atan2(delta.z)`, built from x and z. Play happens in the x-y plane, and the peel manoeuvre even zeroes z first. | delta = (1, 100, 0) and delta = (1, -100, 0), targets on opposite sides, get the same heading `atan2(1, 0)`. | `delta.y.atan2(delta.x)`: the polar angle in the plane of play, the convention `get_transform` and the shield effect use for the same kind of displacement. | medium, not executed | MathUtil.HeadingToPointIgnoresY | MathUtil.HeadingToSeparatesTargets |
