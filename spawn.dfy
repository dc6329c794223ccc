/** Ship spawning: every spawn-command entity produces one new entity from its
    template, placed at the command's transform at half scale, given a team and an
    instigator, and the command entity is despawned. */
module Spawn {
  import opened Ecs
  import opened Combat

  /** The transform a spawned ship receives: the command's translation and
      rotation, scale one half on every axis. */
  function SpawnTransform(t: Transform): (s: Transform)
    ensures s.translation == t.translation && s.rotation == t.rotation
    ensures s.scale == Vec3(0.5, 0.5, 0.5)
  {
    Transform(t.translation, t.rotation, Vec3(0.5, 0.5, 0.5))
  }

  /** The team a spawned ship ends with. The template's own spawn may give the new
      entity a team (`templateTeam`); the system's insert, queued after it,
      replaces it: the command's own team when it has one, otherwise the team of
      its instigator, when there is an instigator and it has a team. With neither,
      the template's team stays. */
  function SpawnedTeam(templateTeam: Option<Team>, commandTeam: Option<Team>, instigator: Option<EntityId>,
                       teams: map<EntityId, Team>): (r: Option<Team>)
    ensures commandTeam.Some? ==> r == commandTeam
    ensures commandTeam.None? && instigator.Some? && instigator.value in teams ==> r == Some(teams[instigator.value])
    ensures commandTeam.None? && (instigator.None? || instigator.value !in teams) ==> r == templateTeam
  {
    if commandTeam.Some? then commandTeam
    else if instigator.Some? && instigator.value in teams then Some(teams[instigator.value])
    else templateTeam
  }

  function Lookup<T>(m: map<EntityId, T>, e: EntityId): Option<T>
  {
    if e in m then Some(m[e]) else None
  }

  /** One component map after the queued commands: the inserts land, then the
      despawned entities lose the component. */
  function ApplyCommands<T>(m: map<EntityId, T>, inserts: map<EntityId, T>, despawned: set<EntityId>)
    : (m': map<EntityId, T>)
    ensures forall e :: e in despawned ==> e !in m'
    ensures forall e :: e !in despawned ==> Lookup(m', e) == (if e in inserts then Some(inserts[e]) else Lookup(m, e))
  {
    map e | e in m.Keys + inserts.Keys && e !in despawned :: if e in inserts then inserts[e] else m[e]
  }

  /** `m` with `e` set to the value `v` holds, if any. */
  function Put<T>(m: map<EntityId, T>, e: EntityId, v: Option<T>): (m': map<EntityId, T>)
    ensures m'.Keys <= m.Keys + {e}
    ensures forall x :: x != e ==> Lookup(m', x) == Lookup(m, x)
    ensures e !in m ==> Lookup(m', e) == v
  {
    if v.Some? then m[e := v.value] else m
  }

  /** Inserts queued only for new entities, then the despawns: a new entity ends
      with exactly its queued component, any other survivor keeps its own. */
  lemma ApplyToSpawned<T>(m: map<EntityId, T>, inserts: map<EntityId, T>, despawned: set<EntityId>,
                          spawned: set<EntityId>)
    requires inserts.Keys <= spawned && spawned !! despawned && spawned !! m.Keys
    ensures forall s :: s in spawned ==> Lookup(ApplyCommands(m, inserts, despawned), s) == Lookup(inserts, s)
    ensures forall e :: e !in despawned && e !in spawned ==> Lookup(ApplyCommands(m, inserts, despawned), e) == Lookup(m, e)
  {
  }

  /** The ids the template hands out are new: one per command, all different, and
      none of them already in use. */
  ghost predicate FreshIds(created: EntityId -> EntityId, spawners: map<EntityId, Transform>,
                           transforms: map<EntityId, Transform>, teams: map<EntityId, Team>,
                           instigators: map<EntityId, EntityId>)
  {
    (forall c1, c2 :: c1 in spawners && c2 in spawners && c1 != c2 ==> created(c1) != created(c2)) &&
    (forall c :: c in spawners ==>
      created(c) !in spawners && created(c) !in transforms && created(c) !in teams && created(c) !in instigators)
  }

  /** `spawn_ships_and_despawn_spawn_commands`. `spawners` holds the command
      entities' transforms, `created` the entity each command's template spawns,
      `templateTeams` the team that template gives it, if any (a frigate's is
      team 1). The returned maps are the Transform, Team and Instigator components once the
      deferred commands have run; `spawned` maps every new entity to the command
      that produced it. */
  method SpawnShipsAndDespawnSpawnCommands(spawners: map<EntityId, Transform>, transforms: map<EntityId, Transform>,
                                           teams: map<EntityId, Team>, instigators: map<EntityId, EntityId>,
                                           created: EntityId -> EntityId, templateTeams: map<EntityId, Team>)
    returns (transforms': map<EntityId, Transform>, teams': map<EntityId, Team>,
             instigators': map<EntityId, EntityId>, spawned: map<EntityId, EntityId>, despawned: set<EntityId>)
    requires FreshIds(created, spawners, transforms, teams, instigators)
    ensures despawned == spawners.Keys
    // One new entity per command.
    ensures |spawned| == |spawners|
    ensures forall c :: c in spawners ==> created(c) in spawned && spawned[created(c)] == c
    ensures forall s :: s in spawned ==> spawned[s] in spawners && created(spawned[s]) == s
    ensures forall s :: s in spawned ==>
      var c := spawned[s];
      s in transforms' && transforms'[s] == SpawnTransform(spawners[c]) &&
      Lookup(teams', s) == SpawnedTeam(Lookup(templateTeams, c), Lookup(teams, c), Lookup(instigators, c), teams) &&
      Lookup(instigators', s) == Lookup(instigators, c)
    ensures forall e :: e in despawned ==> e !in transforms' && e !in teams' && e !in instigators'
    ensures forall e :: e !in despawned && e !in spawned ==>
      Lookup(transforms', e) == Lookup(transforms, e) && Lookup(teams', e) == Lookup(teams, e) &&
      Lookup(instigators', e) == Lookup(instigators, e)
  {
    var newTransforms, newTeams, newInstigators;
    newTransforms, newTeams, newInstigators, spawned, despawned := QueueSpawns(spawners, teams, instigators, created, templateTeams);
    forall s | s in spawned
      ensures s !in spawners && s !in transforms && s !in teams && s !in instigators
    {
      assert created(spawned[s]) == s;
    }
    ApplyToSpawned(transforms, newTransforms, despawned, spawned.Keys);
    ApplyToSpawned(teams, newTeams, despawned, spawned.Keys);
    ApplyToSpawned(instigators, newInstigators, despawned, spawned.Keys);
    // The deferred inserts run first, then the despawns.
    transforms' := ApplyCommands(transforms, newTransforms, despawned);
    teams' := ApplyCommands(teams, newTeams, despawned);
    instigators' := ApplyCommands(instigators, newInstigators, despawned);
  }

  /** What the loop has queued once the commands in `done` are handled: each of
      them has its own new entity (`spawned` maps it back to its command), and
      each new entity has its transform, team and instigator inserts queued. */
  ghost predicate Queued(spawners: map<EntityId, Transform>, teams: map<EntityId, Team>,
                         instigators: map<EntityId, EntityId>, created: EntityId -> EntityId, templateTeams: map<EntityId, Team>, done: set<EntityId>,
                         newTransforms: map<EntityId, Transform>, newTeams: map<EntityId, Team>,
                         newInstigators: map<EntityId, EntityId>, spawned: map<EntityId, EntityId>)
  {
    done <= spawners.Keys &&
    (forall c :: c in done ==> created(c) in spawned && spawned[created(c)] == c) &&
    (forall s :: s in spawned ==> spawned[s] in done && created(spawned[s]) == s) &&
    newTransforms.Keys == spawned.Keys && newTeams.Keys <= spawned.Keys && newInstigators.Keys <= spawned.Keys &&
    (forall s :: s in spawned ==>
      var c := spawned[s];
      newTransforms[s] == SpawnTransform(spawners[c]) &&
      Lookup(newTeams, s) == SpawnedTeam(Lookup(templateTeams, c), Lookup(teams, c), Lookup(instigators, c), teams) &&
      Lookup(newInstigators, s) == Lookup(instigators, c))
  }

  /** The entity a not-yet-handled command spawns is not among those already
      spawned, since different commands get different entities. */
  lemma FreshSpawn(spawners: map<EntityId, Transform>, teams: map<EntityId, Team>,
                   instigators: map<EntityId, EntityId>, created: EntityId -> EntityId, templateTeams: map<EntityId, Team>, done: set<EntityId>,
                   newTransforms: map<EntityId, Transform>, newTeams: map<EntityId, Team>,
                   newInstigators: map<EntityId, EntityId>, spawned: map<EntityId, EntityId>, c: EntityId)
    requires forall c1, c2 :: c1 in spawners && c2 in spawners && c1 != c2 ==> created(c1) != created(c2)
    requires Queued(spawners, teams, instigators, created, templateTeams, done, newTransforms, newTeams, newInstigators, spawned)
    requires c in spawners && c !in done
    ensures created(c) !in spawned
  {
    forall s | s in spawned
      ensures s != created(c)
    {
      assert spawned[s] in done && spawned[s] != c;
      assert created(spawned[s]) == s;
    }
  }

  /** Queueing one more command keeps `Queued`, with that command added. */
  lemma QueueOne(spawners: map<EntityId, Transform>, teams: map<EntityId, Team>,
                 instigators: map<EntityId, EntityId>, created: EntityId -> EntityId, templateTeams: map<EntityId, Team>, done: set<EntityId>,
                 newTransforms: map<EntityId, Transform>, newTeams: map<EntityId, Team>,
                 newInstigators: map<EntityId, EntityId>, spawned: map<EntityId, EntityId>, c: EntityId)
    requires forall c1, c2 :: c1 in spawners && c2 in spawners && c1 != c2 ==> created(c1) != created(c2)
    requires Queued(spawners, teams, instigators, created, templateTeams, done, newTransforms, newTeams, newInstigators, spawned)
    requires c in spawners && c !in done
    ensures Queued(spawners, teams, instigators, created, templateTeams, done + {c},
                   newTransforms[created(c) := SpawnTransform(spawners[c])],
                   Put(newTeams, created(c), SpawnedTeam(Lookup(templateTeams, c), Lookup(teams, c), Lookup(instigators, c), teams)),
                   Put(newInstigators, created(c), Lookup(instigators, c)),
                   spawned[created(c) := c])
  {
    FreshSpawn(spawners, teams, instigators, created, templateTeams, done, newTransforms, newTeams, newInstigators, spawned, c);
  }

  /** One pass of the loop: queue command `c`'s new entity with its transform,
      its team (the command's, else its instigator's) and its instigator; the
      new entity is one more spawned entity. */
  method QueueCommand(spawners: map<EntityId, Transform>, teams: map<EntityId, Team>,
                      instigators: map<EntityId, EntityId>, created: EntityId -> EntityId, templateTeams: map<EntityId, Team>, done: set<EntityId>,
                      newTransforms: map<EntityId, Transform>, newTeams: map<EntityId, Team>,
                      newInstigators: map<EntityId, EntityId>, spawned: map<EntityId, EntityId>, c: EntityId)
    returns (newTransforms': map<EntityId, Transform>, newTeams': map<EntityId, Team>,
             newInstigators': map<EntityId, EntityId>, spawned': map<EntityId, EntityId>)
    requires forall c1, c2 :: c1 in spawners && c2 in spawners && c1 != c2 ==> created(c1) != created(c2)
    requires Queued(spawners, teams, instigators, created, templateTeams, done, newTransforms, newTeams, newInstigators, spawned)
    requires c in spawners && c !in done
    ensures |spawned'| == |spawned| + 1
    ensures Queued(spawners, teams, instigators, created, templateTeams, done + {c}, newTransforms', newTeams', newInstigators', spawned')
  {
    var s := created(c);
    FreshSpawn(spawners, teams, instigators, created, templateTeams, done, newTransforms, newTeams, newInstigators, spawned, c);
    QueueOne(spawners, teams, instigators, created, templateTeams, done, newTransforms, newTeams, newInstigators, spawned, c);
    newTransforms' := newTransforms[s := SpawnTransform(spawners[c])];
    newTeams' := Put(newTeams, s, SpawnedTeam(Lookup(templateTeams, c), Lookup(teams, c), Lookup(instigators, c), teams));
    newInstigators' := Put(newInstigators, s, Lookup(instigators, c));
    spawned' := spawned[s := c];
  }

  /** The loop of `spawn_ships_and_despawn_spawn_commands`: the components queued
      for insertion on each spawned entity, the command behind each spawned entity,
      and the queued despawns. */
  method QueueSpawns(spawners: map<EntityId, Transform>, teams: map<EntityId, Team>,
                     instigators: map<EntityId, EntityId>, created: EntityId -> EntityId, templateTeams: map<EntityId, Team>)
    returns (newTransforms: map<EntityId, Transform>, newTeams: map<EntityId, Team>,
             newInstigators: map<EntityId, EntityId>, spawned: map<EntityId, EntityId>, despawned: set<EntityId>)
    requires forall c1, c2 :: c1 in spawners && c2 in spawners && c1 != c2 ==> created(c1) != created(c2)
    ensures despawned == spawners.Keys
    ensures |spawned| == |spawners|
    ensures Queued(spawners, teams, instigators, created, templateTeams, spawners.Keys, newTransforms, newTeams, newInstigators, spawned)
  {
    newTransforms, newTeams, newInstigators := map[], map[], map[];
    spawned, despawned := map[], {};
    var todo := spawners.Keys;
    while todo != {}
      invariant todo <= spawners.Keys
      invariant despawned == spawners.Keys - todo
      invariant |spawned| + |todo| == |spawners|
      invariant Queued(spawners, teams, instigators, created, templateTeams, despawned, newTransforms, newTeams, newInstigators, spawned)
      decreases todo
    {
      var c :| c in todo;
      newTransforms, newTeams, newInstigators, spawned :=
        QueueCommand(spawners, teams, instigators, created, templateTeams, despawned, newTransforms, newTeams, newInstigators, spawned, c);
      despawned := despawned + {c};
      todo := todo - {c};
    }
  }
}
