/** Laser beams: a beam effect stretched from the shooter to the point of impact,
    which keeps following the shooter and, for a beam that hit, the target. */
module Beams {
  import opened Ecs
  import opened Combat
  import MathUtil

  /** Where a beam sprite is drawn: translation, rotation about z and scale. */
  datatype BeamPose = BeamPose(translation: Vec3, rotationZ: real, scale: Vec3)

  datatype BeamTracking = BeamTracking(target: EntityId, source: EntityId, start: Vec3, end: Vec3,
                                       width: real, trackTarget: bool)

  /** `sqrt` is a square root on the non-negative reals. */
  ghost predicate RootOfSquares(m: Maths)
  {
    forall x {:trigger m.sqrt(x)} :: x >= 0.0 ==> m.sqrt(x) >= 0.0 && m.sqrt(x) * m.sqrt(x) == x
  }

  /** `get_transform`: the sprite sits at the midpoint of the beam, turned a
      quarter turn past the beam's direction, `width` wide and a quarter of the
      beam's length tall. */
  function BeamTransform(m: Maths, start: Vec3, end: Vec3, width: real): BeamPose
  {
    var delta := end.Sub(start);
    BeamPose(end.Add(start).Scale(0.5), m.atan2(delta.y, delta.x) + MathUtil.PI / 2.0,
             Vec3(width, m.sqrt(delta.LengthSquared()) / 4.0, 1.0))
  }

  /** The sprite is centred on the beam: twice its position is the sum of the
      ends, so it is as far from the start as from the end. It is `width` wide,
      flat in z, and turned a quarter turn past the direction from start to end. */
  lemma BeamCentred(m: Maths, start: Vec3, end: Vec3, width: real)
    ensures var p := BeamTransform(m, start, end, width);
      p.translation.Scale(2.0) == start.Add(end) &&
      p.translation.Sub(start) == end.Sub(p.translation) &&
      p.scale.x == width && p.scale.z == 1.0 &&
      p.rotationZ == m.atan2(end.y - start.y, end.x - start.x) + MathUtil.PI / 2.0
  {
  }

  /** With a true square root, the sprite's height is a quarter of the beam's
      length: four times it, squared, is the squared length. */
  lemma BeamLength(m: Maths, start: Vec3, end: Vec3, width: real)
    requires RootOfSquares(m)
    ensures var h := BeamTransform(m, start, end, width).scale.y;
      h >= 0.0 && (4.0 * h) * (4.0 * h) == end.Sub(start).LengthSquared()
  {
    var l := end.Sub(start).LengthSquared();
    assert m.sqrt(l) >= 0.0 && m.sqrt(l) * m.sqrt(l) == l;
  }

  /** A beam as spawned: its animation, its pose and its tracking state. */
  datatype SpawnedBeam = SpawnedBeam(effect: AnimatedEffect, pose: BeamPose, tracking: BeamTracking)

  /** `spawn_beams` over the effect instances with a beam style, a source
      transform, an effect location, a target, an instigator and an attack.
      `beams[e]` is the beam queued for `e`: from the source to the point of
      impact, tracking its target exactly when the attack hit. The source's
      `expect` demands a set target. */
  method SpawnBeams(m: Maths, styles: map<EntityId, (AnimatedEffect, real)>, sources: map<EntityId, Vec3>,
                    locations: map<EntityId, Vec3>, targets: map<EntityId, Target>,
                    instigators: map<EntityId, EntityId>, attacks: map<EntityId, Attack>)
    returns (beams: map<EntityId, SpawnedBeam>)
    requires forall e :: (e in styles && e in sources && e in locations && e in targets && e in instigators &&
                          e in attacks) ==> targets[e].Some?
    ensures beams.Keys == styles.Keys * sources.Keys * locations.Keys * targets.Keys * instigators.Keys * attacks.Keys
    ensures forall e :: e in beams ==>
      var b := beams[e].tracking;
      b == BeamTracking(targets[e].value, instigators[e], sources[e], locations[e], styles[e].1,
                        attacks[e].result == Hit) &&
      beams[e].effect == styles[e].0 &&
      beams[e].pose == BeamTransform(m, sources[e], locations[e], styles[e].1)
    ensures forall e :: e in beams ==> (beams[e].tracking.trackTarget <==> attacks[e].result == Hit)
  {
    var query := styles.Keys * sources.Keys * locations.Keys * targets.Keys * instigators.Keys * attacks.Keys;
    beams := map[];
    var todo := query;
    while todo != {}
      invariant todo <= query
      invariant beams.Keys == query - todo
      invariant forall e :: e in beams ==>
        beams[e] == SpawnedBeam(styles[e].0, BeamTransform(m, sources[e], locations[e], styles[e].1),
                                BeamTracking(targets[e].value, instigators[e], sources[e], locations[e], styles[e].1,
                                             attacks[e].result == Hit))
      decreases todo
    {
      var e :| e in todo;
      todo := todo - {e};
      var (effect, width) := styles[e];
      var pose := BeamTransform(m, sources[e], locations[e], width);
      var tracking := BeamTracking(targets[e].value, instigators[e], sources[e], locations[e], width,
                                   attacks[e].result == Hit);
      beams := beams[e := SpawnedBeam(effect, pose, tracking)];
    }
  }

  /** One beam followed for one tick: the start moves to the source while the
      source has a position; the end moves to the target only for a tracking
      beam whose target has a position. */
  function Track(b: BeamTracking, positions: map<EntityId, Vec3>): (b': BeamTracking)
    ensures b'.target == b.target && b'.source == b.source && b'.width == b.width && b'.trackTarget == b.trackTarget
    ensures b'.start == if b.source in positions then positions[b.source] else b.start
    ensures b.trackTarget && b.target in positions ==> b'.end == positions[b.target]
    ensures !(b.trackTarget && b.target in positions) ==> b'.end == b.end
  {
    var start := if b.source in positions then positions[b.source] else b.start;
    var end := if b.trackTarget && b.target in positions then positions[b.target] else b.end;
    b.(start := start, end := end)
  }

  /** Following twice with the same positions is following once. */
  lemma TrackIdempotent(b: BeamTracking, positions: map<EntityId, Vec3>)
    ensures Track(Track(b, positions), positions) == Track(b, positions)
  {
  }

  /** A beam that does not track its target keeps its end through any sequence of
      ticks. */
  function TrackAll(b: BeamTracking, worlds: seq<map<EntityId, Vec3>>): BeamTracking
    decreases |worlds|
  {
    if worlds == [] then b else TrackAll(Track(b, worlds[0]), worlds[1..])
  }

  lemma {:induction false} UntrackedEndFixed(b: BeamTracking, worlds: seq<map<EntityId, Vec3>>)
    requires !b.trackTarget
    ensures TrackAll(b, worlds).end == b.end && !TrackAll(b, worlds).trackTarget
    decreases |worlds|
  {
    if worlds != [] {
      UntrackedEndFixed(Track(b, worlds[0]), worlds[1..]);
    }
  }

  /** `beams_track_target` over the beams with tracking state and a pose: every
      beam is followed for one tick and its pose recomputed from the new ends. */
  method BeamsTrackTarget(m: Maths, beams: map<EntityId, BeamTracking>, poses: map<EntityId, BeamPose>,
                          positions: map<EntityId, Vec3>)
    returns (beams': map<EntityId, BeamTracking>, poses': map<EntityId, BeamPose>)
    ensures beams'.Keys == beams.Keys && poses'.Keys == poses.Keys
    ensures forall e :: e in beams && e in poses ==>
      beams'[e] == Track(beams[e], positions) &&
      poses'[e] == BeamTransform(m, beams'[e].start, beams'[e].end, beams'[e].width)
    ensures forall e :: e in beams && e !in poses ==> beams'[e] == beams[e]
    ensures forall e :: e in poses && e !in beams ==> poses'[e] == poses[e]
  {
    beams', poses' := beams, poses;
    var todo := beams.Keys * poses.Keys;
    while todo != {}
      invariant todo <= beams.Keys * poses.Keys
      invariant beams'.Keys == beams.Keys && poses'.Keys == poses.Keys
      invariant forall e :: e in beams && e in poses && e !in todo ==>
        beams'[e] == Track(beams[e], positions) &&
        poses'[e] == BeamTransform(m, beams'[e].start, beams'[e].end, beams'[e].width)
      invariant forall e :: e in beams && (e !in poses || e in todo) ==> beams'[e] == beams[e]
      invariant forall e :: e in poses && (e !in beams || e in todo) ==> poses'[e] == poses[e]
      decreases todo
    {
      var e :| e in todo;
      todo := todo - {e};
      var tracking, pose := TrackBeam(m, beams'[e], positions);
      beams' := beams'[e := tracking];
      poses' := poses'[e := pose];
    }
  }

  /** The body of the loop of `beams_track_target` for one beam. */
  method TrackBeam(m: Maths, b: BeamTracking, positions: map<EntityId, Vec3>) returns (b': BeamTracking, pose: BeamPose)
    ensures b' == Track(b, positions)
    ensures pose == BeamTransform(m, b'.start, b'.end, b'.width)
  {
    b' := b;
    if b'.source in positions {
      b' := b'.(start := positions[b'.source]);
    }
    if b'.trackTarget {
      if b'.target in positions {
        b' := b'.(end := positions[b'.target]);
      }
    }
    pose := BeamTransform(m, b'.start, b'.end, b'.width);
  }
}
