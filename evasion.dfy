/** Evasion: fast-moving, fast-turning targets are harder to hit. Each tick every
    evading entity's rating is recomputed from its motion, then every attack aimed
    at an evading entity is turned into a miss by a random draw. */
module Evasion {
  import opened Ecs
  import opened Combat
  import MathUtil

  const TURN_EVASION_FACTOR: real := 2.0
  const SPEED_EVASION_FACTOR: real := 200.0

  datatype Evasion = Evasion(base: real, movementBonus: real, total: real)

  /** `Evasion::new`: the base rating, with no movement bonus and a zero total until
      the ratings are first computed. */
  function NewEvasion(base: real): (ev: Evasion)
    ensures ev.base == base && ev.movementBonus == 0.0 && ev.total == 0.0
  {
    Evasion(base, 0.0, 0.0)
  }

  /** The evasion bonus from motion: the mean of the absolute turn rate and the
      absolute maximum turn rate, times the speed, over the two factors. */
  function MovementBonus(turn: real, maxTurn: real, speed: real): (b: real)
    ensures speed == 0.0 || (turn == 0.0 && maxTurn == 0.0) ==> b == 0.0
  {
    (Abs(turn) + Abs(maxTurn)) / 2.0 * speed / (TURN_EVASION_FACTOR * SPEED_EVASION_FACTOR)
  }

  /** Moving never makes an entity easier to hit: the bonus is non-negative for a
      non-negative speed, and grows with the speed. */
  lemma MovementBonusMonotone(turn: real, maxTurn: real, s1: real, s2: real)
    requires 0.0 <= s1 <= s2
    ensures 0.0 <= MovementBonus(turn, maxTurn, s1) <= MovementBonus(turn, maxTurn, s2)
  {
    var k := (Abs(turn) + Abs(maxTurn)) / 2.0;
    assert k >= 0.0;
    assert k * s2 - k * s1 == k * (s2 - s1);
    assert 0.0 <= k * s1 <= k * s2;
  }

  /** `calculate_evasion_ratings` over the entities with an evasion, a turn speed,
      a maximum turn speed and a speed. */
  method CalculateEvasionRatings(evasions: map<EntityId, Evasion>, turnSpeeds: map<EntityId, real>,
                                 maxTurnSpeeds: map<EntityId, real>, speeds: map<EntityId, real>)
    returns (evasions': map<EntityId, Evasion>)
    ensures evasions'.Keys == evasions.Keys
    ensures forall e :: e in evasions && e in turnSpeeds && e in maxTurnSpeeds && e in speeds ==>
      var b := MovementBonus(turnSpeeds[e], maxTurnSpeeds[e], speeds[e]);
      evasions'[e] == Evasion(evasions[e].base, b, evasions[e].base + b)
    ensures forall e :: e in evasions && !(e in turnSpeeds && e in maxTurnSpeeds && e in speeds) ==>
      evasions'[e] == evasions[e]
    ensures forall e :: e in evasions && e in speeds && e in turnSpeeds && e in maxTurnSpeeds && speeds[e] >= 0.0 ==>
      evasions'[e].total >= evasions'[e].base
  {
    evasions' := evasions;
    var todo := evasions.Keys * turnSpeeds.Keys * maxTurnSpeeds.Keys * speeds.Keys;
    while todo != {}
      invariant todo <= evasions.Keys * turnSpeeds.Keys * maxTurnSpeeds.Keys * speeds.Keys
      invariant evasions'.Keys == evasions.Keys
      invariant forall e :: e in evasions && e in turnSpeeds && e in maxTurnSpeeds && e in speeds && e !in todo ==>
        var b := MovementBonus(turnSpeeds[e], maxTurnSpeeds[e], speeds[e]);
        evasions'[e] == Evasion(evasions[e].base, b, evasions[e].base + b)
      invariant forall e :: e in evasions && (e in todo || !(e in turnSpeeds && e in maxTurnSpeeds && e in speeds)) ==>
        evasions'[e] == evasions[e]
      invariant forall e :: e in evasions && e in speeds && e in turnSpeeds && e in maxTurnSpeeds && speeds[e] >= 0.0 && e !in todo ==>
        evasions'[e].total >= evasions'[e].base
      decreases todo
    {
      var e :| e in todo;
      var ev := evasions'[e];
      var b := MovementBonus(turnSpeeds[e], maxTurnSpeeds[e], speeds[e]);
      if speeds[e] >= 0.0 {
        MovementBonusMonotone(turnSpeeds[e], maxTurnSpeeds[e], speeds[e], speeds[e]);
      }
      evasions' := evasions'[e := ev.(movementBonus := b, total := ev.base + b)];
      todo := todo - {e};
    }
  }

  /** Whether an attack misses, given the target's total evasion, the attack's
      accuracy and a draw in [0, 1): the draw must exceed the hit chance
      `exp(-total / accuracy)`. A zero accuracy follows the floating-point quotient:
      a positive total gives -infinity and a hit chance of zero, a negative total
      gives +infinity, and a zero total gives NaN, which no draw exceeds. */
  predicate Misses(m: Maths, total: real, accuracy: real, draw: real)
  {
    if accuracy != 0.0 then draw > m.exp(-total / accuracy)
    else total > 0.0 && draw > 0.0
  }

  /** The attack `e` has a target, and that target can evade. */
  predicate AimsAtEvader(e: EntityId, targets: map<EntityId, Target>, evasions: map<EntityId, Evasion>)
  {
    e in targets && targets[e].Some? && targets[e].value in evasions
  }

  /** `determine_missed_attacks`: every attack aimed at an evading entity draws once
      and becomes a miss when the draw beats its hit chance; every other attack is
      left alone. The result is overwritten whatever it was, Blocked included. */
  method DetermineMissedAttacks(attacks: map<EntityId, Attack>, targets: map<EntityId, Target>,
                                evasions: map<EntityId, Evasion>, m: Maths, draw: EntityId -> real)
    returns (attacks': map<EntityId, Attack>)
    requires forall e :: 0.0 <= draw(e) < 1.0
    ensures attacks'.Keys == attacks.Keys
    ensures forall e :: e in attacks ==>
      if AimsAtEvader(e, targets, evasions) && Misses(m, evasions[targets[e].value].total, attacks[e].accuracy, draw(e))
      then attacks'[e] == attacks[e].(result := Miss)
      else attacks'[e] == attacks[e]
    // Only ever a miss: the accuracy is kept and no result other than Miss is written.
    ensures forall e :: e in attacks ==>
      attacks'[e].accuracy == attacks[e].accuracy &&
      (attacks'[e].result != attacks[e].result ==> attacks'[e].result == Miss)
    // A hit chance of at least one is never beaten.
    ensures forall e :: (e in attacks && AimsAtEvader(e, targets, evasions) && attacks[e].accuracy != 0.0 &&
                         m.exp(-evasions[targets[e].value].total / attacks[e].accuracy) >= 1.0) ==>
      attacks'[e] == attacks[e]
  {
    attacks' := attacks;
    var todo := attacks.Keys * targets.Keys;
    while todo != {}
      invariant todo <= attacks.Keys * targets.Keys
      invariant attacks'.Keys == attacks.Keys
      invariant forall e :: e in attacks && e !in todo ==>
        if AimsAtEvader(e, targets, evasions) && Misses(m, evasions[targets[e].value].total, attacks[e].accuracy, draw(e))
        then attacks'[e] == attacks[e].(result := Miss)
        else attacks'[e] == attacks[e]
      invariant forall e :: e in todo ==> attacks'[e] == attacks[e]
      decreases todo
    {
      var e :| e in todo;
      todo := todo - {e};
      var target := targets[e];
      if target.None? {
        continue;
      }
      if target.value in evasions {
        if Misses(m, evasions[target.value].total, attacks'[e].accuracy, draw(e)) {
          attacks' := attacks'[e := attacks'[e].(result := Miss)];
        }
      }
    }
  }

  /** The one fact about `exp` the lemmas below rely on besides monotonicity. */
  ghost predicate ExpAtZeroIsOne(m: Maths)
  {
    m.exp(0.0) == 1.0
  }

  ghost predicate ExpMonotone(m: Maths)
  {
    forall x, y :: x <= y ==> m.exp(x) <= m.exp(y)
  }

  /** A target with no evasion at all is never missed. */
  lemma ZeroEvasionNeverMisses(m: Maths, accuracy: real, draw: real)
    requires ExpAtZeroIsOne(m) && 0.0 <= draw < 1.0
    ensures !Misses(m, 0.0, accuracy, draw)
  {
    if accuracy != 0.0 {
      assert -0.0 / accuracy == 0.0;
    }
  }

  /** Evasion pays: against a non-negative accuracy, an attack that misses a target
      also misses any target with a higher total evasion, for the same draw. */
  lemma {:induction false} MissesMonotone(m: Maths, t1: real, t2: real, accuracy: real, draw: real)
    requires ExpMonotone(m) && accuracy >= 0.0 && t1 <= t2
    requires Misses(m, t1, accuracy, draw)
    ensures Misses(m, t2, accuracy, draw)
  {
    if accuracy != 0.0 {
      NegatedQuotientAntitone(t1, t2, accuracy);
      assert m.exp(-t2 / accuracy) <= m.exp(-t1 / accuracy);
    }
  }

  /** Accuracy pays: against a target with non-negative evasion, an attack that
      misses with a positive accuracy also misses with any lower positive accuracy,
      for the same draw. */
  lemma {:induction false} MissesMonotoneInAccuracy(m: Maths, total: real, a1: real, a2: real, draw: real)
    requires ExpMonotone(m) && total >= 0.0 && 0.0 < a1 <= a2
    requires Misses(m, total, a2, draw)
    ensures Misses(m, total, a1, draw)
  {
    QuotientAntitone(total, a1, a2);
    assert m.exp(-total / a1) <= m.exp(-total / a2);
  }

  /** A non-negative total divided by a larger positive accuracy is no larger,
      so its negation is no smaller. */
  lemma QuotientAntitone(t: real, a1: real, a2: real)
    requires t >= 0.0 && 0.0 < a1 <= a2
    ensures -t / a1 <= -t / a2
  {
    var q1, q2 := t / a1, t / a2;
    assert q1 * a1 == t && q2 * a2 == t;
    if t > 0.0 {
      assert q1 > 0.0;
      assert q2 <= q1 by {
        if q2 > q1 {
          MathUtil.MulStrict(q1, q2, a2);
          MathUtil.MulMonotone(a1, a2, q1);
        }
      }
    }
  }

  /** Dividing the negated totals by a positive accuracy reverses their order. */
  lemma NegatedQuotientAntitone(t1: real, t2: real, a: real)
    requires a > 0.0 && t1 <= t2
    ensures -t2 / a <= -t1 / a
  {
    var q1, q2 := -t1 / a, -t2 / a;
    assert q1 * a == -t1 && q2 * a == -t2;
    assert q2 <= q1 by {
      if q2 > q1 {
        MathUtil.MulStrict(q1, q2, a);
      }
    }
  }
}
