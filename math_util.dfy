/** Angle arithmetic: headings and the signed difference between two headings. */
module MathUtil {
  import opened Ecs

  /** The model's value of pi: a rational constant, as the source's `f32` PI is one too. */
  const PI: real := 3.14159265358979
  const TWO_PI: real := 6.28318530717958

  /** `x` and `y` name the same direction: they differ by a whole number of turns. */
  ghost predicate SameAngle(x: real, y: real)
  {
    ((x - y) / TWO_PI).Floor as real == (x - y) / TWO_PI
  }

  /** The heading of a displacement as `get_heading_to_point` computes it:
      `delta.x.atan2(delta.z)`, from the x and z components. Play happens in the
      x-y plane, so this ignores the y component. */
  function HeadingToPoint(m: Maths, delta: Vec3): real
  {
    m.atan2(delta.x, delta.z)
  }

  /** Two targets in the plane of play, one far to the left of the x axis and one
      far to the right, get the same heading from `HeadingToPoint`, whatever
      `atan2` is. */
  lemma HeadingToPointIgnoresY(m: Maths)
    ensures HeadingToPoint(m, Vec3(1.0, 100.0, 0.0)) == HeadingToPoint(m, Vec3(1.0, -100.0, 0.0))
  {}

  /** The heading toward a displacement in the plane of play, measured from the
      x axis as the rotation and velocity systems use headings: `atan2(y, x)`. */
  function HeadingTo(m: Maths, delta: Vec3): real
  {
    m.atan2(delta.y, delta.x)
  }

  /** `atan2` gives the polar angle: the unit vector at angle `atan2(y, x)`, scaled
      by the length of `(x, y)`, is `(x, y)`. */
  ghost predicate PolarAtan2(m: Maths)
  {
    forall y, x {:trigger m.atan2(y, x)} :: x * x + y * y > 0.0 ==>
      m.cos(m.atan2(y, x)) * m.sqrt(x * x + y * y) == x &&
      m.sin(m.atan2(y, x)) * m.sqrt(x * x + y * y) == y
  }

  /** Facing along `HeadingTo(delta)` faces the point `delta`. */
  lemma HeadingToPointsAtTarget(m: Maths, delta: Vec3)
    requires PolarAtan2(m) && delta.x * delta.x + delta.y * delta.y > 0.0
    ensures m.cos(HeadingTo(m, delta)) * m.sqrt(delta.x * delta.x + delta.y * delta.y) == delta.x
    ensures m.sin(HeadingTo(m, delta)) * m.sqrt(delta.x * delta.x + delta.y * delta.y) == delta.y
  {
    assert HeadingTo(m, delta) == m.atan2(delta.y, delta.x);
  }

  /** Unlike `HeadingToPoint`, `HeadingTo` tells the two targets of
      `HeadingToPointIgnoresY` apart. */
  lemma {:induction false} HeadingToSeparatesTargets(m: Maths)
    requires PolarAtan2(m)
    ensures HeadingTo(m, Vec3(1.0, 100.0, 0.0)) != HeadingTo(m, Vec3(1.0, -100.0, 0.0))
  {
    HeadingToPointsAtTarget(m, Vec3(1.0, 100.0, 0.0));
    HeadingToPointsAtTarget(m, Vec3(1.0, -100.0, 0.0));
  }

  /** Floor-modulus of `a` by `n` for a positive `n`: `a - floor(a / n) * n`. */
  function FloorMod(a: real, n: real): (r: real)
    requires n > 0.0
    ensures 0.0 <= r < n
  {
    FloorModBounds(a, n);
    a - (a / n).Floor as real * n
  }

  lemma FloorModBounds(a: real, n: real)
    requires n > 0.0
    ensures 0.0 <= a - (a / n).Floor as real * n < n
  {
    var q := a / n;
    var k := q.Floor as real;
    assert q * n == a;
    assert k <= q < k + 1.0;
    MulMonotone(k, q, n);
    MulStrict(q, k + 1.0, n);
    assert k * n <= a;
    assert (k + 1.0) * n == k * n + n;
    assert a < k * n + n;
  }

  /** A whole number of turns, divided by a turn, is that whole number. */
  lemma WholeTurns(x: real, k: int)
    requires x == k as real * TWO_PI
    ensures SameAngle(x, 0.0)
  {
    assert x / TWO_PI == k as real;
  }

  lemma MulMonotone(a: real, b: real, n: real)
    requires a <= b && n > 0.0
    ensures a * n <= b * n
  {
    assert b * n - a * n == (b - a) * n;
  }

  lemma MulStrict(a: real, b: real, n: real)
    requires a < b && n > 0.0
    ensures a * n < b * n
  {
    assert b * n - a * n == (b - a) * n;
  }

  /** `k + 1` steps of `dt` are `k` steps and one more. */
  lemma OneMoreStep(k: real, dt: real)
    ensures (k + 1.0) * dt == k * dt + dt
  {
  }

  /** A value below `k + 1` turns of `dt` lies below `k * dt + dt`. */
  lemma BelowNextMultiple(r: real, dt: real, k: real)
    requires dt > 0.0 && r / dt < k + 1.0
    ensures r < k * dt + dt
  {
    MulStrict(r / dt, k + 1.0, dt);
    assert (k + 1.0) * dt == k * dt + dt;
  }

  /** The difference `target - initial` brought into [-pi, pi). */
  function AngleDifference(target: real, initial: real): (r: real)
    ensures -PI <= r < PI
  {
    FloorMod((target - initial) + PI, TWO_PI) - PI
  }

  /** The result names the same rotation as `target - initial`. */
  lemma AngleDifferenceSameAngle(target: real, initial: real)
    ensures SameAngle(AngleDifference(target, initial), target - initial)
  {
    var d := target - initial;
    var k := ((d + PI) / TWO_PI).Floor;
    var r := AngleDifference(target, initial);
    assert r == (d + PI) - k as real * TWO_PI - PI;
    WholeTurns(r - d, -k);
    assert r - d - 0.0 == r - d;
  }

  /** A heading compared with itself gives no difference. */
  lemma AngleDifferenceOfEqual(theta: real)
    ensures AngleDifference(theta, theta) == 0.0
  {
    assert (PI / TWO_PI).Floor == 0;
  }

  /** Any value `other` naming the same rotation as `target - initial` is at least
      as large in magnitude as the result: it is the smallest difference. */
  lemma AngleDifferenceMinimal(target: real, initial: real, other: real)
    requires SameAngle(other, target - initial)
    ensures Abs(AngleDifference(target, initial)) <= Abs(other)
  {
    var r := AngleDifference(target, initial);
    AngleDifferenceSameAngle(target, initial);
    var j := ((other - (target - initial)) / TWO_PI).Floor;
    var i := ((r - (target - initial)) / TWO_PI).Floor;
    assert other - (target - initial) == j as real * TWO_PI;
    assert r - (target - initial) == i as real * TWO_PI;
    var m := j - i;
    assert other == r + m as real * TWO_PI;
    if m > 0 {
      assert m as real * TWO_PI >= TWO_PI;
    } else if m < 0 {
      assert m as real * TWO_PI <= -TWO_PI;
    }
  }

  /** Two values in [-pi, pi) that name the same rotation are equal. */
  lemma AngleDifferenceUnique(target: real, initial: real, other: real)
    requires SameAngle(other, target - initial) && -PI <= other < PI
    ensures AngleDifference(target, initial) == other
  {
    var r := AngleDifference(target, initial);
    AngleDifferenceSameAngle(target, initial);
    var j := ((other - (target - initial)) / TWO_PI).Floor;
    var i := ((r - (target - initial)) / TWO_PI).Floor;
    assert other - (target - initial) == j as real * TWO_PI;
    assert r - (target - initial) == i as real * TWO_PI;
    var m := j - i;
    assert other == r + m as real * TWO_PI;
    assert m == 0;
  }
}
