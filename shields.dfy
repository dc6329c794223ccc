/** Shield absorption: attacks still hitting a shielded target lose damage to the
    shield, which loses the same amount of health. Several attacks on one shield
    in the same tick drain it one after another, in the query's iteration order. */
module Shields {
  import opened Ecs
  import opened Combat
  import MathUtil

  datatype Shield = Shield(health: real, radius: real)

  /** The components of an attack entity that the system reads and writes: its
      damage, target, source position, recorded hit location and attack payload. */
  datatype AttackEntity = AttackEntity(damage: real, target: Target, source: Vec3, hitLoc: Vec3, attack: Attack)

  /** What one attack leaves behind: the attack, the shield table and the shield
      effect request, if any. */
  datatype Outcome = Outcome(attack: AttackEntity, shields: map<EntityId, Shield>, request: Option<EffectRequest>)

  /** An attack a shield may absorb: it still hits, and its target has a shield
      and a position. */
  predicate Shielded(a: AttackEntity, shields: map<EntityId, Shield>, positions: map<EntityId, Vec3>)
  {
    a.target.Some? && a.attack.result == Hit && a.target.value in shields && a.target.value in positions
  }

  /** An attack launched from strictly within the shield's radius of the hit
      location bypasses the shield. */
  predicate FromInside(a: AttackEntity, s: Shield)
  {
    a.source.Sub(a.hitLoc).LengthSquared() < s.radius * s.radius
  }

  /** The shield-impact effect: at the shield's position, turned to face the
      attack, scaled to the shield's radius. */
  function ShieldEffect(at: Vec3, delta: Vec3, radius: real, m: Maths): EffectRequest
  {
    var k := radius / 32.0;
    EffectRequest(Combat.Shield, at, m.atan2(delta.y, delta.x) - MathUtil.PI / 2.0, Vec3(k, k, k), None)
  }

  /** One iteration of `shield_absorb_damage`. */
  function AbsorbOne(a: AttackEntity, shields: map<EntityId, Shield>, positions: map<EntityId, Vec3>, m: Maths)
    : (o: Outcome)
    ensures o.shields.Keys == shields.Keys
    ensures forall s :: s in shields && a.target != Some(s) ==> o.shields[s] == shields[s]
    // Nothing changes unless the attack is shielded and comes from outside the shield.
    ensures !Shielded(a, shields, positions) || FromInside(a, shields[a.target.value]) ==>
      o == Outcome(a, shields, None)
    // Absorbed damage is min(shield health, damage): both drop by it, so the health
    // the shield loses is exactly the damage the attack loses.
    ensures Shielded(a, shields, positions) ==>
      var t := a.target.value;
      var absorbed := Min(shields[t].health, a.damage);
      o.shields[t].radius == shields[t].radius &&
      shields[t].health - o.shields[t].health == a.damage - o.attack.damage &&
      (absorbed > 0.0 && !FromInside(a, shields[t]) ==>
        o.shields[t].health == shields[t].health - absorbed && o.attack.damage == a.damage - absorbed) &&
      (shields[t].health >= 0.0 ==> o.shields[t].health >= 0.0)
    // The result only ever moves from Hit to Blocked, and exactly then a request is made.
    ensures o.attack.attack.accuracy == a.attack.accuracy && o.attack.target == a.target && o.attack.source == a.source
    ensures o.attack.attack.result != a.attack.result ==> a.attack.result == Hit && o.attack.attack.result == Blocked
    ensures o.request.Some? <==> o.attack.attack.result != a.attack.result
    ensures o.attack.attack.result == a.attack.result ==> o == Outcome(a, shields, None)
    // A drained shield (nothing to absorb) lets the attack through untouched.
    ensures Shielded(a, shields, positions) && Min(shields[a.target.value].health, a.damage) <= 0.0 ==>
      o == Outcome(a, shields, None)
    // A block moves the hit location out to the shield's surface, toward the source.
    ensures o.request.Some? ==>
      var t := a.target.value;
      var delta := a.source.Sub(a.hitLoc);
      o.attack.hitLoc == a.hitLoc.Add(m.normalize(delta).Scale(shields[t].radius)) &&
      o.request.value.effect == Combat.Shield && o.request.value.parent == None &&
      o.request.value.translation == positions[t] &&
      o.request.value.rotationZ == m.atan2(delta.y, delta.x) - MathUtil.PI / 2.0 &&
      o.request.value.scale == Vec3(shields[t].radius / 32.0, shields[t].radius / 32.0, shields[t].radius / 32.0)
  {
    if !Shielded(a, shields, positions) then Outcome(a, shields, None)
    else
      var t := a.target.value;
      var s := shields[t];
      var delta := a.source.Sub(a.hitLoc);
      if delta.LengthSquared() < s.radius * s.radius then Outcome(a, shields, None)
      else
        var absorbed := Min(s.health, a.damage);
        if absorbed > 0.0 then
          var a' := a.(damage := a.damage - absorbed,
                       hitLoc := a.hitLoc.Add(m.normalize(delta).Scale(s.radius)),
                       attack := a.attack.(result := Blocked));
          Outcome(a', shields[t := s.(health := s.health - absorbed)], Some(ShieldEffect(positions[t], delta, s.radius, m)))
        else
          Outcome(a, shields, None)
  }

  /** The state threaded through the loop: attacks, shields and the requests so far. */
  datatype Absorption = Absorption(attacks: map<EntityId, AttackEntity>, shields: map<EntityId, Shield>,
                                   requests: seq<EffectRequest>)

  function Step(st: Absorption, e: EntityId, positions: map<EntityId, Vec3>, m: Maths): (st': Absorption)
    requires e in st.attacks
    ensures st'.attacks.Keys == st.attacks.Keys && st'.shields.Keys == st.shields.Keys
    ensures forall x :: x in st.attacks && x != e ==> st'.attacks[x] == st.attacks[x]
  {
    var o := AbsorbOne(st.attacks[e], st.shields, positions, m);
    Absorption(st.attacks[e := o.attack], o.shields,
               if o.request.Some? then st.requests + [o.request.value] else st.requests)
  }

  /** The attacks of `order` processed one after another from `st`. */
  function AbsorbAll(order: seq<EntityId>, st: Absorption, positions: map<EntityId, Vec3>, m: Maths)
    : (st': Absorption)
    requires forall e :: e in order ==> e in st.attacks
    ensures st'.attacks.Keys == st.attacks.Keys && st'.shields.Keys == st.shields.Keys
    decreases |order|
  {
    if order == [] then st
    else Step(AbsorbAll(order[..|order| - 1], st, positions, m), order[|order| - 1], positions, m)
  }

  /** `shield_absorb_damage` over the attack query, visited in `order`. */
  method ShieldAbsorbDamage(order: seq<EntityId>, attacks: map<EntityId, AttackEntity>,
                            shields: map<EntityId, Shield>, positions: map<EntityId, Vec3>, m: Maths)
    returns (attacks': map<EntityId, AttackEntity>, shields': map<EntityId, Shield>, requests: seq<EffectRequest>)
    requires IsOrderOf(order, attacks.Keys)
    ensures Absorption(attacks', shields', requests) == AbsorbAll(order, Absorption(attacks, shields, []), positions, m)
    ensures attacks'.Keys == attacks.Keys && shields'.Keys == shields.Keys
  {
    var st := Absorption(attacks, shields, []);
    var i := 0;
    while i < |order|
      invariant 0 <= i <= |order|
      invariant st == AbsorbAll(order[..i], Absorption(attacks, shields, []), positions, m)
    {
      assert order[..i + 1][..i] == order[..i];
      st := Step(st, order[i], positions, m);
      i := i + 1;
    }
    assert order[..|order|] == order;
    attacks', shields', requests := st.attacks, st.shields, st.requests;
  }

  ghost predicate HealthsNonNegative(shields: map<EntityId, Shield>)
  {
    forall s :: s in shields ==> shields[s].health >= 0.0
  }

  /** Shield health never drops below zero over a whole tick. */
  lemma {:induction false} AbsorbAllKeepsHealthNonNegative(order: seq<EntityId>, st: Absorption,
                                                           positions: map<EntityId, Vec3>, m: Maths)
    requires forall e :: e in order ==> e in st.attacks
    requires HealthsNonNegative(st.shields)
    ensures HealthsNonNegative(AbsorbAll(order, st, positions, m).shields)
    decreases |order|
  {
    if order != [] {
      var prefix := order[..|order| - 1];
      AbsorbAllKeepsHealthNonNegative(prefix, st, positions, m);
    }
  }

  /** The number of attacks of `order` that went from Hit to Blocked. */
  function NewlyBlocked(order: seq<EntityId>, before: map<EntityId, AttackEntity>,
                        after: map<EntityId, AttackEntity>): nat
    requires forall e :: e in order ==> e in before && e in after
    decreases |order|
  {
    if order == [] then 0
    else
      var e := order[|order| - 1];
      NewlyBlocked(order[..|order| - 1], before, after) +
      (if before[e].attack.result == Hit && after[e].attack.result == Blocked then 1 else 0)
  }

  lemma {:induction false} NewlyBlockedFrame(order: seq<EntityId>, before: map<EntityId, AttackEntity>,
                                             after: map<EntityId, AttackEntity>, after': map<EntityId, AttackEntity>)
    requires forall e :: e in order ==> e in before && e in after && e in after'
    requires forall e :: e in order ==> after[e] == after'[e]
    ensures NewlyBlocked(order, before, after) == NewlyBlocked(order, before, after')
    decreases |order|
  {
    if order != [] {
      NewlyBlockedFrame(order[..|order| - 1], before, after, after');
    }
  }

  /** Exactly one shield-effect request is made per attack the shields block, and
      none for any other attack. */
  lemma {:induction false} RequestsCountBlocked(order: seq<EntityId>, attacks: map<EntityId, AttackEntity>,
                                                shields: map<EntityId, Shield>, positions: map<EntityId, Vec3>, m: Maths)
    requires IsOrderOf(order, attacks.Keys)
    ensures var st := AbsorbAll(order, Absorption(attacks, shields, []), positions, m);
      |st.requests| == NewlyBlocked(order, attacks, st.attacks)
    decreases |order|
  {
    RequestsCountBlockedPrefix(order, Absorption(attacks, shields, []), positions, m);
  }

  /** The prefix form of the count, over any starting attack table. */
  lemma {:induction false} RequestsCountBlockedPrefix(order: seq<EntityId>, init: Absorption,
                                                      positions: map<EntityId, Vec3>, m: Maths)
    requires forall e :: e in order ==> e in init.attacks
    requires forall i, j :: 0 <= i < j < |order| ==> order[i] != order[j]
    requires init.requests == []
    ensures var st := AbsorbAll(order, init, positions, m);
      |st.requests| == NewlyBlocked(order, init.attacks, st.attacks)
    decreases |order|
  {
    if order != [] {
      var n := |order| - 1;
      var prefix := order[..n];
      var e := order[n];
      RequestsCountBlockedPrefix(prefix, init, positions, m);
      var st0 := AbsorbAll(prefix, init, positions, m);
      var st1 := AbsorbAll(order, init, positions, m);
      assert e !in prefix;
      AttacksUntouched(prefix, init, e, positions, m);
      assert st0.attacks[e] == init.attacks[e];
      NewlyBlockedFrame(prefix, init.attacks, st0.attacks, st1.attacks);
    }
  }

  /** An attack not yet visited still holds its initial components. */
  lemma {:induction false} AttacksUntouched(order: seq<EntityId>, init: Absorption, e: EntityId,
                                            positions: map<EntityId, Vec3>, m: Maths)
    requires forall x :: x in order ==> x in init.attacks
    requires e in init.attacks && e !in order
    ensures AbsorbAll(order, init, positions, m).attacks[e] == init.attacks[e]
    decreases |order|
  {
    if order != [] {
      AttacksUntouched(order[..|order| - 1], init, e, positions, m);
    }
  }

  /** The worked example: a 30-point shield against a 50-point hit from outside the
      shield ends empty, the attack keeps 20 points of damage and is Blocked. */
  lemma PartialAbsorptionScenario(m: Maths)
    ensures var a := AttackEntity(50.0, Some(1), Vec3(100.0, 0.0, 0.0), Zero, NewAttack(1.0));
      var o := AbsorbOne(a, map[1 := Shield.Shield(30.0, 10.0)], map[1 := Zero], m);
      o.shields[1].health == 0.0 && o.attack.damage == 20.0 && o.attack.attack.result == Blocked &&
      o.request.Some?
  {}

  /** A hit from outside a shield with at least its damage in health is stopped
      entirely: the attack keeps no damage and is Blocked. */
  lemma FullAbsorption(a: AttackEntity, shields: map<EntityId, Shield>, positions: map<EntityId, Vec3>, m: Maths)
    requires Shielded(a, shields, positions) && !FromInside(a, shields[a.target.value])
    requires 0.0 < a.damage <= shields[a.target.value].health
    ensures var o := AbsorbOne(a, shields, positions, m);
      o.attack.damage == 0.0 && o.attack.attack.result == Blocked &&
      o.shields[a.target.value].health == shields[a.target.value].health - a.damage
  {
    assert Min(shields[a.target.value].health, a.damage) == a.damage;
  }

  /** A hit from outside a non-empty shield weaker than its damage empties the
      shield and keeps the rest of its damage. */
  lemma PartialAbsorption(a: AttackEntity, shields: map<EntityId, Shield>, positions: map<EntityId, Vec3>, m: Maths)
    requires Shielded(a, shields, positions) && !FromInside(a, shields[a.target.value])
    requires 0.0 < shields[a.target.value].health < a.damage
    ensures var o := AbsorbOne(a, shields, positions, m);
      o.attack.damage == a.damage - shields[a.target.value].health && o.attack.attack.result == Blocked &&
      o.shields[a.target.value].health == 0.0
  {
    assert Min(shields[a.target.value].health, a.damage) == shields[a.target.value].health;
  }

  /** Two attacks in a row are two steps. */
  lemma AbsorbAllTwo(e1: EntityId, e2: EntityId, init: Absorption, positions: map<EntityId, Vec3>, m: Maths)
    requires e1 in init.attacks && e2 in init.attacks
    ensures AbsorbAll([e1, e2], init, positions, m) == Step(Step(init, e1, positions, m), e2, positions, m)
  {
    assert [e1, e2][..1] == [e1];
    assert [e1][..0] == [];
    assert AbsorbAll([e1], init, positions, m) == Step(init, e1, positions, m);
  }

  /** Two 20-point hits on one 30-point shield in a single tick: the first is fully
      absorbed, the second only by the 10 points left. */
  lemma SequentialDepletionScenario(m: Maths)
    ensures var a := AttackEntity(20.0, Some(1), Vec3(100.0, 0.0, 0.0), Zero, NewAttack(1.0));
      var st := AbsorbAll([2, 3], Absorption(map[2 := a, 3 := a], map[1 := Shield.Shield(30.0, 10.0)], []), map[1 := Zero], m);
      st.shields[1].health == 0.0 && st.attacks[2].damage == 0.0 && st.attacks[3].damage == 10.0 &&
      |st.requests| == 2
  {
    var a := AttackEntity(20.0, Some(1), Vec3(100.0, 0.0, 0.0), Zero, NewAttack(1.0));
    var init := Absorption(map[2 := a, 3 := a], map[1 := Shield.Shield(30.0, 10.0)], []);
    var positions := map[1 := Zero];
    AbsorbAllTwo(2, 3, init, positions, m);
    assert a.source.Sub(a.hitLoc).LengthSquared() == 10000.0;
    FullAbsorption(a, init.shields, positions, m);
    var st1 := Step(init, 2, positions, m);
    assert st1.attacks[3] == a && st1.shields[1].health == 10.0 && |st1.requests| == 1;
    PartialAbsorption(a, st1.shields, positions, m);
    var st2 := Step(st1, 3, positions, m);
    assert st2.attacks[2] == st1.attacks[2] && |st2.requests| == 2;
  }
}
