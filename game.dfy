/** The simulation clock: the game-speed multiplier and the per-tick time delta,
    two process-wide resources the systems read. */
module Game {

  const MIN_SPEED: int := 0
  const MAX_SPEED: int := 3

  /** The speed setting kept within [0, 3] (`max(0).min(3)`). */
  function ClampSpeed(s: int): (r: int)
    ensures MIN_SPEED <= r <= MAX_SPEED
    ensures MIN_SPEED <= s <= MAX_SPEED ==> r == s
    ensures s < MIN_SPEED ==> r == MIN_SPEED
    ensures s > MAX_SPEED ==> r == MAX_SPEED
  {
    if s < MIN_SPEED then MIN_SPEED else if s > MAX_SPEED then MAX_SPEED else s
  }

  /** The speed after one frame of key presses: Equals adds one, Minus takes one
      away, and the sum is clamped. */
  function NextSpeed(speed: int, equalsPressed: bool, minusPressed: bool): (r: int)
    ensures MIN_SPEED <= r <= MAX_SPEED
    ensures equalsPressed && !minusPressed ==> r == ClampSpeed(speed + 1)
    ensures !equalsPressed && minusPressed ==> r == ClampSpeed(speed - 1)
    ensures equalsPressed == minusPressed ==> r == ClampSpeed(speed)
    ensures equalsPressed && minusPressed && MIN_SPEED <= speed <= MAX_SPEED ==> r == speed
    ensures !equalsPressed && !minusPressed && MIN_SPEED <= speed <= MAX_SPEED ==> r == speed
    ensures MIN_SPEED <= speed <= MAX_SPEED ==> speed - 1 <= r <= speed + 1
  {
    var up := if equalsPressed then speed + 1 else speed;
    var down := if minusPressed then up - 1 else up;
    ClampSpeed(down)
  }

  /** The time delta for a speed setting: a fixed step scaled by `speed / 2`. */
  function TimeDelta(fixedTimeStep: real, speed: int): (dt: real)
    ensures speed == 2 ==> dt == fixedTimeStep
    ensures speed == 0 ==> dt == 0.0
  {
    fixedTimeStep * speed as real / 2.0
  }

  /** With a non-negative fixed step, every clamped speed gives a delta between
      zero and one and a half fixed steps. */
  lemma TimeDeltaBounds(fixedTimeStep: real, speed: int)
    requires fixedTimeStep >= 0.0 && MIN_SPEED <= speed <= MAX_SPEED
    ensures 0.0 <= TimeDelta(fixedTimeStep, speed) <= 1.5 * fixedTimeStep
  {
    assert speed == 0 || speed == 1 || speed == 2 || speed == 3;
  }

  /** The two resources `GameTimeDelta` and `GameSpeed`. */
  class GameClock {
    var dt: real
    var speed: int

    ghost predicate Valid()
      reads this
    {
      MIN_SPEED <= speed <= MAX_SPEED
    }

    /** `startup`: a 1/60 s delta at speed 2. */
    constructor Startup()
      ensures Valid()
      ensures dt == 1.0 / 60.0 && speed == 2
    {
      dt := 1.0 / 60.0;
      speed := 2;
    }

    /** `control_game_speed`: applies this frame's key presses to the speed, clamps
        it, and derives the delta from the fixed step. `fixedTimeStep` is the
        engine's fixed-update period. */
    method ControlGameSpeed(equalsPressed: bool, minusPressed: bool, fixedTimeStep: real)
      requires Valid()
      modifies this
      ensures Valid()
      ensures speed == NextSpeed(old(speed), equalsPressed, minusPressed)
      ensures dt == TimeDelta(fixedTimeStep, speed)
      ensures fixedTimeStep >= 0.0 ==> 0.0 <= dt <= 1.5 * fixedTimeStep
    {
      if equalsPressed {
        speed := speed + 1;
      }
      if minusPressed {
        speed := speed - 1;
      }
      speed := ClampSpeed(speed);
      dt := fixedTimeStep * speed as real / 2.0;
      if fixedTimeStep >= 0.0 {
        TimeDeltaBounds(fixedTimeStep, speed);
      }
    }
  }
}
