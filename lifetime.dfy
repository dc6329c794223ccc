/** Finite lifetimes: a countdown per entity; an entity whose countdown drops below
    zero is tagged Expired, and an entity already tagged Expired when the system
    runs is despawned. Tagging and despawning are deferred commands, so expiry and
    despawning always fall in two different calls. */
module Lifetime {
  import opened Ecs
  import MathUtil

  /** Where an entity stands with respect to its lifetime. */
  datatype Life =
    | Living(secondsRemaining: real)  // holds a Lifetime, not Expired
    | Expiring                        // tagged Expired
    | Gone                            // despawned
    | Untracked                       // neither a Lifetime nor Expired

  /** The state of `e` read off the Lifetime components and the Expired tags. */
  function LifeOf(e: EntityId, lifetimes: map<EntityId, real>, expired: set<EntityId>): Life
  {
    if e in expired then Expiring
    else if e in lifetimes then Living(lifetimes[e])
    else Untracked
  }

  /** One call of the system, for one entity: a living entity counts down and
      expires strictly below zero; an expired one is despawned. */
  function StepLife(l: Life, dt: real): (l': Life)
    ensures l.Living? ==> l' != Gone
    ensures l.Living? && l.secondsRemaining - dt >= 0.0 ==> l' == Living(l.secondsRemaining - dt)
    ensures l.Living? && l.secondsRemaining - dt < 0.0 ==> l' == Expiring
    ensures l == Expiring || l == Gone <==> l' == Gone
    ensures l == Untracked <==> l' == Untracked
  {
    match l
    case Living(r) => if r - dt < 0.0 then Expiring else Living(r - dt)
    case Expiring => Gone
    case Gone => Gone
    case Untracked => Untracked
  }

  /** `update_lifetimes`. Every lifetime counts down by `dt`; one that drops below
      zero is replaced by the Expired tag; every entity tagged Expired when the call
      starts is despawned, with all its components. */
  method UpdateLifetimes(dt: real, lifetimes: map<EntityId, real>, expired: set<EntityId>)
    returns (lifetimes': map<EntityId, real>, expired': set<EntityId>, despawned: set<EntityId>)
    ensures despawned == expired
    ensures forall e ::
      StepLife(LifeOf(e, lifetimes, expired), dt) == (if e in despawned then Gone else LifeOf(e, lifetimes', expired'))
    ensures forall e :: e in despawned ==> e !in lifetimes' && e !in expired'
  {
    // First loop: count down in place and queue the expiry commands.
    var counted := lifetimes;
    var expiring: set<EntityId> := {};
    var todo := lifetimes.Keys;
    while todo != {}
      invariant todo <= lifetimes.Keys
      invariant counted.Keys == lifetimes.Keys
      invariant forall e :: e in lifetimes && e !in todo ==> counted[e] == lifetimes[e] - dt
      invariant forall e :: e in todo ==> counted[e] == lifetimes[e]
      invariant forall e :: e in expiring <==> e in lifetimes && e !in todo && lifetimes[e] - dt < 0.0
      decreases todo
    {
      var e :| e in todo;
      counted := counted[e := counted[e] - dt];
      if counted[e] < 0.0 {
        expiring := expiring + {e};
      }
      todo := todo - {e};
    }
    // Second loop: queue a despawn for every entity Expired at the start.
    despawned := {};
    var rest := expired;
    while rest != {}
      invariant rest <= expired
      invariant despawned == expired - rest
      decreases rest
    {
      var e :| e in rest;
      despawned := despawned + {e};
      rest := rest - {e};
    }
    // The commands take effect in the order they were queued.
    expired' := expired + expiring;
    lifetimes' := map e | e in counted && e !in expiring :: counted[e];
    expired' := expired' - despawned;
    lifetimes' := map e | e in lifetimes' && e !in despawned :: lifetimes'[e];
  }

  /** The state after `n` calls with the same `dt`. */
  function RunLife(l: Life, dt: real, n: nat): Life
  {
    if n == 0 then l else StepLife(RunLife(l, dt, n - 1), dt)
  }

  /** While the countdown has not crossed zero the entity lives, with exactly
      `n * dt` taken off its lifetime. */
  lemma {:induction false} CountsDown(r: real, dt: real, n: nat)
    requires r - n as real * dt >= 0.0 && dt >= 0.0
    ensures RunLife(Living(r), dt, n) == Living(r - n as real * dt)
  {
    if n > 0 {
      var k := (n - 1) as real;
      assert n as real == k + 1.0;
      MathUtil.OneMoreStep(k, dt);
      CountsDown(r, dt, n - 1);
    }
  }

  /** Every lifetime ends: with a positive `dt`, a living entity with `r >= 0`
      seconds left is still alive after `floor(r / dt)` calls, is tagged Expired by
      the next call and is despawned by the one after. */
  lemma {:induction false} LifetimeEnds(r: real, dt: real)
    requires r >= 0.0 && dt > 0.0
    ensures var n := (r / dt).Floor;
      n >= 0 &&
      RunLife(Living(r), dt, n).Living? &&
      RunLife(Living(r), dt, n + 1) == Expiring &&
      RunLife(Living(r), dt, n + 2) == Gone
  {
    var q := r / dt;
    var n := q.Floor;
    var k := n as real;
    assert q >= 0.0;
    assert n >= 0;
    assert q * dt == r;
    assert k <= q < k + 1.0;
    MathUtil.MulMonotone(k, q, dt);
    CountsDown(r, dt, n);
    MathUtil.BelowNextMultiple(r, dt, k);
    assert RunLife(Living(r), dt, n + 1) == StepLife(Living(r - k * dt), dt);
  }

  /** A two-second lifetime at a tenth of a second per call: after 20 calls exactly
      zero is left, which does not expire; call 21 tags it Expired; call 22
      despawns it. */
  lemma TwoSecondLifetime()
    ensures RunLife(Living(2.0), 0.1, 20) == Living(0.0)
    ensures RunLife(Living(2.0), 0.1, 21) == Expiring
    ensures RunLife(Living(2.0), 0.1, 22) == Gone
  {
    CountsDown(2.0, 0.1, 20);
  }
}
