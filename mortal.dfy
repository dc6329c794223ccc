/** Mortality: health-driven death with a randomised death-throes delay, then
    disposal one tick after death at the earliest.

    States: Alive -> Dieing(not dead) -> Dieing(dead) -> Dieing(dispose) -> despawned. */
module Mortal {
  import opened Ecs
  import MathUtil

  /** The death throes of a doomed entity. */
  datatype Dieing = Dieing(remainingTime: real, dead: bool, dispose: bool)

  /** The two random draws made for an entity entering its death throes: a chance
      in [0, 1) of dying instantly and a delay in [1, 4). */
  datatype DeathRoll = DeathRoll(chance: real, throes: real)

  ghost predicate RollInRange(r: DeathRoll)
  {
    0.0 <= r.chance < 1.0 && 1.0 <= r.throes < 4.0
  }

  /** The death-throes delay: with chance below 0.3 death is instant, otherwise the
      drawn delay. */
  function ThroesDelay(r: DeathRoll): (t: real)
    requires RollInRange(r)
    ensures t == 0.0 || 1.0 <= t < 4.0
    ensures r.chance < 0.3 <==> t == 0.0
  {
    if r.chance < 0.3 then 0.0 else r.throes
  }

  /** An entity is found dieing when it is mortal, not yet dieing, and its health
      has dropped to zero or below. */
  ghost predicate FoundDieing(e: EntityId, health: map<EntityId, real>, mortal: set<EntityId>,
                              dieing: map<EntityId, Dieing>)
  {
    e in health && e in mortal && e !in dieing && health[e] <= 0.0
  }

  /** `check_for_dieing_entities`: inserts fresh death throes on every mortal entity
      without them whose health is at most zero; every other entity keeps what it
      had. */
  method CheckForDieingEntities(health: map<EntityId, real>, mortal: set<EntityId>,
                                dieing: map<EntityId, Dieing>, roll: EntityId -> DeathRoll)
    returns (dieing': map<EntityId, Dieing>)
    requires forall e :: RollInRange(roll(e))
    ensures forall e :: e in dieing' <==> e in dieing || FoundDieing(e, health, mortal, dieing)
    ensures forall e :: e in dieing ==> dieing'[e] == dieing[e]
    // The fresh throes last the delay drawn for the entity: none (instant death) or
    // between one and four seconds.
    ensures forall e :: FoundDieing(e, health, mortal, dieing) ==>
      dieing'[e] == Dieing(ThroesDelay(roll(e)), false, false) &&
      (dieing'[e].remainingTime == 0.0 || 1.0 <= dieing'[e].remainingTime < 4.0)
  {
    dieing' := dieing;
    var todo := health.Keys * mortal - dieing.Keys;
    while todo != {}
      invariant todo <= health.Keys * mortal - dieing.Keys
      invariant forall e :: e in dieing' <==>
        e in dieing || (FoundDieing(e, health, mortal, dieing) && e !in todo)
      invariant forall e :: e in dieing ==> dieing'[e] == dieing[e]
      invariant forall e :: FoundDieing(e, health, mortal, dieing) && e !in todo ==>
        dieing'[e] == Dieing(ThroesDelay(roll(e)), false, false)
      decreases todo
    {
      var e :| e in todo;
      if health[e] <= 0.0 {
        dieing' := dieing'[e := Dieing(ThroesDelay(roll(e)), false, false)];
      }
      todo := todo - {e};
    }
  }

  /** One tick of the death throes: the countdown drops by `dt`; once it is below
      zero, a living entity becomes dead, and a dead one is marked for disposal. */
  function DieingStep(d: Dieing, dt: real): (r: Dieing)
    ensures r.remainingTime == d.remainingTime - dt
    ensures r.remainingTime >= 0.0 ==> r.dead == d.dead && r.dispose == d.dispose
    ensures d.dead ==> r.dead
    ensures d.dispose ==> r.dispose
    ensures r.dispose && !d.dispose ==> d.dead
    ensures !(r.dead && !d.dead && r.dispose && !d.dispose)
    ensures r.remainingTime < 0.0 ==> r.dead
    // Already dead and past the countdown: marked for disposal.
    ensures d.dead && r.remainingTime < 0.0 ==> r.dispose
  {
    var t := d.remainingTime - dt;
    if t < 0.0 then
      if !d.dead then d.(remainingTime := t, dead := true) else d.(remainingTime := t, dispose := true)
    else
      d.(remainingTime := t)
  }

  /** `update_dieing`: every entity's death throes advance one tick. */
  method UpdateDieing(dt: real, dieing: map<EntityId, Dieing>) returns (dieing': map<EntityId, Dieing>)
    ensures dieing'.Keys == dieing.Keys
    ensures forall e :: e in dieing ==> dieing'[e] == DieingStep(dieing[e], dt)
  {
    dieing' := dieing;
    var todo := dieing.Keys;
    while todo != {}
      invariant todo <= dieing.Keys
      invariant dieing'.Keys == dieing.Keys
      invariant forall e :: e in dieing && e !in todo ==> dieing'[e] == DieingStep(dieing[e], dt)
      invariant forall e :: e in todo ==> dieing'[e] == dieing[e]
      decreases todo
    {
      var e :| e in todo;
      var d := dieing'[e];
      d := d.(remainingTime := d.remainingTime - dt);
      if d.remainingTime < 0.0 {
        if !d.dead {
          d := d.(dead := true);
        } else {
          d := d.(dispose := true);
        }
      }
      dieing' := dieing'[e := d];
      todo := todo - {e};
    }
  }

  /** `dispose_dieing`: the entities despawned are exactly those marked for disposal. */
  method DisposeDieing(dieing: map<EntityId, Dieing>) returns (despawned: set<EntityId>)
    ensures forall e :: e in despawned <==> e in dieing && dieing[e].dispose
  {
    despawned := {};
    var todo := dieing.Keys;
    while todo != {}
      invariant todo <= dieing.Keys
      invariant forall e :: e in despawned <==> e in dieing && e !in todo && dieing[e].dispose
      decreases todo
    {
      var e :| e in todo;
      if dieing[e].dispose {
        despawned := despawned + {e};
      }
      todo := todo - {e};
    }
  }

  /** The death throes after a run of ticks with the given deltas. */
  function Run(d: Dieing, dts: seq<real>): Dieing
    decreases |dts|
  {
    if dts == [] then d else Run(DieingStep(d, dts[0]), dts[1..])
  }

  /** Disposal implies death at every tick of every run that starts consistent, in
      particular from the fresh death throes `check_for_dieing_entities` inserts. */
  lemma {:induction false} RunKeepsDisposeImpliesDead(d: Dieing, dts: seq<real>)
    requires d.dispose ==> d.dead
    ensures Run(d, dts).dispose ==> Run(d, dts).dead
    decreases |dts|
  {
    if dts != [] {
      RunKeepsDisposeImpliesDead(DieingStep(d, dts[0]), dts[1..]);
    }
  }

  /** Neither flag is ever cleared over a run. */
  lemma {:induction false} RunFlagsMonotone(d: Dieing, dts: seq<real>)
    ensures d.dead ==> Run(d, dts).dead
    ensures d.dispose ==> Run(d, dts).dispose
    decreases |dts|
  {
    if dts != [] {
      RunFlagsMonotone(DieingStep(d, dts[0]), dts[1..]);
    }
  }

  /** Disposal comes strictly after death: a run of `n` ticks that ends disposed
      was already dead after its first `n - 1` ticks. */
  lemma {:induction false} DisposeAfterDeath(d: Dieing, dts: seq<real>)
    requires |dts| > 0 && !d.dispose && Run(d, dts).dispose
    ensures Run(d, dts[..|dts| - 1]).dead
    decreases |dts|
  {
    if |dts| == 1 {
      assert dts[..0] == [];
      assert Run(d, dts) == DieingStep(d, dts[0]);
    } else {
      var d1 := DieingStep(d, dts[0]);
      assert dts[1..][..|dts| - 2] == dts[..|dts| - 1][1..];
      if d1.dispose {
        assert d.dead;
        RunFlagsMonotone(d, dts[..|dts| - 1]);
      } else {
        DisposeAfterDeath(d1, dts[1..]);
      }
    }
  }

  /** `n` ticks of the same delta `dt`. */
  function Ticks(dt: real, n: nat): (s: seq<real>)
    ensures |s| == n && forall i :: 0 <= i < n ==> s[i] == dt
  {
    seq(n, _ => dt)
  }

  /** A run followed by one more tick is that tick applied to the run's result. */
  lemma {:induction false} RunThenTick(d: Dieing, dts: seq<real>, dt: real)
    ensures Run(d, dts + [dt]) == DieingStep(Run(d, dts), dt)
    decreases |dts|
  {
    if dts == [] {
      assert [dt][1..] == [];
    } else {
      assert (dts + [dt])[1..] == dts[1..] + [dt];
      RunThenTick(DieingStep(d, dts[0]), dts[1..], dt);
    }
  }

  /** Fresh death throes that have not crossed zero count down by exactly `n * dt`
      and stay alive. */
  lemma {:induction false} ThroesCountDown(t: real, dt: real, n: nat)
    requires t - n as real * dt >= 0.0 && dt >= 0.0
    ensures Run(Dieing(t, false, false), Ticks(dt, n)) == Dieing(t - n as real * dt, false, false)
    decreases n
  {
    if n > 0 {
      var k := (n - 1) as real;
      assert n as real == k + 1.0;
      MathUtil.OneMoreStep(k, dt);
      assert Ticks(dt, n)[1..] == Ticks(dt, n - 1);
      ThroesCountDown(t - dt, dt, n - 1);
    }
  }

  /** Every doomed entity is disposed of: with a positive `dt`, fresh death throes
      of `t >= 0` seconds are still alive after `floor(t / dt)` ticks, dead but not
      yet disposable after the next, and marked for disposal after the one after,
      as the source's doc comment promises ("the next update, the entity is
      despawned"). */
  lemma {:induction false} DieingEnds(t: real, dt: real)
    requires t >= 0.0 && dt > 0.0
    ensures var n := (t / dt).Floor;
      var start := Dieing(t, false, false);
      n >= 0 &&
      !Run(start, Ticks(dt, n)).dead &&
      Run(start, Ticks(dt, n + 1)).dead && !Run(start, Ticks(dt, n + 1)).dispose &&
      Run(start, Ticks(dt, n + 2)).dispose
  {
    var q := t / dt;
    var n := q.Floor;
    var k := n as real;
    var start := Dieing(t, false, false);
    assert q >= 0.0 && n >= 0;
    assert q * dt == t;
    assert k <= q < k + 1.0;
    MathUtil.MulMonotone(k, q, dt);
    ThroesCountDown(t, dt, n);
    MathUtil.BelowNextMultiple(t, dt, k);
    assert Ticks(dt, n + 1) == Ticks(dt, n) + [dt];
    RunThenTick(start, Ticks(dt, n), dt);
    assert Ticks(dt, n + 2) == Ticks(dt, n + 1) + [dt];
    RunThenTick(start, Ticks(dt, n + 1), dt);
  }

  /** An entity that dies instantly (zero delay) with a positive delta is dead after
      its first tick and disposed only after its second. */
  lemma InstantDeathScenario(dt: real)
    requires dt > 0.0
    ensures Run(Dieing(0.0, false, false), [dt]) == Dieing(-dt, true, false)
    ensures Run(Dieing(0.0, false, false), [dt, dt]) == Dieing(-2.0 * dt, true, true)
  {
    var start := Dieing(0.0, false, false);
    assert [dt][1..] == [];
    assert Run(start, [dt]) == DieingStep(start, dt);
    assert [dt, dt][1..] == [dt];
    assert Run(start, [dt, dt]) == Run(DieingStep(start, dt), [dt]);
    assert Run(DieingStep(start, dt), [dt]) == DieingStep(DieingStep(start, dt), dt);
  }
}
