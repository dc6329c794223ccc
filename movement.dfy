/** Kinematics: heading integration with wrap-around, speed from thrust and mass,
    and translation from velocity. Each system is a method over the component maps
    its query touches; entities lacking one of the queried components keep their
    values. */
module Movement {
  import opened Ecs
  import opened MathUtil

  datatype MaxTurnSpeed = MaxTurnSpeed(radiansPerSecond: real)

  /** `MaxTurnSpeed::new`: a maximum turn rate holding exactly the given rate. */
  function NewMaxTurnSpeed(rps: real): (m: MaxTurnSpeed)
    ensures m.radiansPerSecond == rps
  {
    MaxTurnSpeed(rps)
  }

  /** Brings a heading into [0, 2*pi] with the source's two loops: subtract a turn
      while above 2*pi, then add a turn while below 0. */
  method WrapHeading(h: real) returns (w: real)
    ensures 0.0 <= w <= TWO_PI
    ensures SameAngle(w, h)
    ensures 0.0 <= h <= TWO_PI ==> w == h
  {
    w := h;
    ghost var turns: int := 0;
    while w > TWO_PI
      invariant w == h + turns as real * TWO_PI
      invariant h <= TWO_PI ==> turns == 0
      decreases (w / TWO_PI).Floor
    {
      w := w - TWO_PI;
      turns := turns - 1;
    }
    while w < 0.0
      invariant w <= TWO_PI
      invariant w == h + turns as real * TWO_PI
      invariant 0.0 <= h <= TWO_PI ==> turns == 0
      decreases (-w / TWO_PI).Floor + 1
    {
      w := w + TWO_PI;
      turns := turns + 1;
    }
    WholeTurns(w - h, turns);
    assert w - h - 0.0 == w - h;
  }

  /** `h'` is the heading `h` advanced at `turn` radians per second for `dt`
      seconds and wrapped into [0, 2*pi]. */
  ghost predicate AdvancedHeading(h: real, turn: real, dt: real, h': real)
  {
    0.0 <= h' <= TWO_PI && SameAngle(h', h + turn * dt)
  }

  /** `update_heading`: every entity with a turn speed and a heading advances its
      heading by `turn * dt` and wraps it into [0, 2*pi]. */
  method UpdateHeading(dt: real, turnSpeeds: map<EntityId, real>, headings: map<EntityId, real>)
    returns (headings': map<EntityId, real>)
    ensures headings'.Keys == headings.Keys
    ensures forall e :: e in headings && e in turnSpeeds ==>
      AdvancedHeading(headings[e], turnSpeeds[e], dt, headings'[e])
    ensures forall e :: e in headings && e !in turnSpeeds ==> headings'[e] == headings[e]
  {
    headings' := headings;
    var todo := headings.Keys * turnSpeeds.Keys;
    while todo != {}
      invariant todo <= headings.Keys * turnSpeeds.Keys
      invariant headings'.Keys == headings.Keys
      invariant forall e :: e in headings && e in turnSpeeds && e !in todo ==>
        AdvancedHeading(headings[e], turnSpeeds[e], dt, headings'[e])
      invariant forall e :: e in headings && (e !in turnSpeeds || e in todo) ==> headings'[e] == headings[e]
      decreases todo
    {
      var e :| e in todo;
      var w := WrapHeading(headings[e] + turnSpeeds[e] * dt);
      assert AdvancedHeading(headings[e], turnSpeeds[e], dt, w);
      headings' := headings'[e := w];
      todo := todo - {e};
    }
  }

  /** `calculate_max_speed`: maximum speed is thrust divided by mass, for every
      entity with mass, thrust and a maximum speed. The division needs a non-zero
      mass. */
  method CalculateMaxSpeed(masses: map<EntityId, real>, thrusts: map<EntityId, real>,
                           maxSpeeds: map<EntityId, real>)
    returns (maxSpeeds': map<EntityId, real>)
    requires forall e :: e in maxSpeeds && e in masses && e in thrusts ==> masses[e] != 0.0
    ensures maxSpeeds'.Keys == maxSpeeds.Keys
    ensures forall e :: e in maxSpeeds && e in masses && e in thrusts ==>
      maxSpeeds'[e] * masses[e] == thrusts[e]
    ensures forall e :: e in maxSpeeds && !(e in masses && e in thrusts) ==> maxSpeeds'[e] == maxSpeeds[e]
  {
    maxSpeeds' := maxSpeeds;
    var todo := maxSpeeds.Keys * masses.Keys * thrusts.Keys;
    while todo != {}
      invariant todo <= maxSpeeds.Keys * masses.Keys * thrusts.Keys
      invariant maxSpeeds'.Keys == maxSpeeds.Keys
      invariant forall e :: e in maxSpeeds && e in masses && e in thrusts && e !in todo ==>
        maxSpeeds'[e] * masses[e] == thrusts[e]
      invariant forall e :: e in maxSpeeds && (!(e in masses && e in thrusts) || e in todo) ==>
        maxSpeeds'[e] == maxSpeeds[e]
      decreases todo
    {
      var e :| e in todo;
      maxSpeeds' := maxSpeeds'[e := thrusts[e] / masses[e]];
      todo := todo - {e};
    }
  }

  /** `calculate_speed`: every entity with a maximum speed and a speed moves at its
      maximum speed. */
  method CalculateSpeed(maxSpeeds: map<EntityId, real>, speeds: map<EntityId, real>)
    returns (speeds': map<EntityId, real>)
    ensures speeds'.Keys == speeds.Keys
    ensures forall e :: e in speeds && e in maxSpeeds ==> speeds'[e] == maxSpeeds[e]
    ensures forall e :: e in speeds && e !in maxSpeeds ==> speeds'[e] == speeds[e]
  {
    speeds' := speeds;
    var todo := speeds.Keys * maxSpeeds.Keys;
    while todo != {}
      invariant todo <= speeds.Keys * maxSpeeds.Keys
      invariant speeds'.Keys == speeds.Keys
      invariant forall e :: e in speeds && e in maxSpeeds && e !in todo ==> speeds'[e] == maxSpeeds[e]
      invariant forall e :: e in speeds && (e !in maxSpeeds || e in todo) ==> speeds'[e] == speeds[e]
      decreases todo
    {
      var e :| e in todo;
      speeds' := speeds'[e := maxSpeeds[e]];
      todo := todo - {e};
    }
  }

  /** `update_translation`: every entity with a velocity and a transform moves by
      `velocity * dt`, component by component; rotation and scale are kept. */
  method UpdateTranslation(dt: real, velocities: map<EntityId, Vec3>, transforms: map<EntityId, Transform>)
    returns (transforms': map<EntityId, Transform>)
    ensures transforms'.Keys == transforms.Keys
    ensures forall e :: e in transforms && e in velocities ==>
      var t, t', v := transforms[e], transforms'[e], velocities[e];
      t'.translation.Sub(t.translation) == v.Scale(dt) &&
      t'.rotation == t.rotation && t'.scale == t.scale
    ensures forall e :: e in transforms && e !in velocities ==> transforms'[e] == transforms[e]
  {
    transforms' := transforms;
    var todo := transforms.Keys * velocities.Keys;
    while todo != {}
      invariant todo <= transforms.Keys * velocities.Keys
      invariant transforms'.Keys == transforms.Keys
      invariant forall e :: e in transforms && e in velocities && e !in todo ==>
        var t, t', v := transforms[e], transforms'[e], velocities[e];
        t'.translation.Sub(t.translation) == v.Scale(dt) &&
        t'.rotation == t.rotation && t'.scale == t.scale
      invariant forall e :: e in transforms && (e !in velocities || e in todo) ==> transforms'[e] == transforms[e]
      decreases todo
    {
      var e :| e in todo;
      var t := transforms[e];
      transforms' := transforms'[e := t.(translation := t.translation.Add(velocities[e].Scale(dt)))];
      todo := todo - {e};
    }
  }
}
