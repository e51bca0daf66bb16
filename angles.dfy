/**
 * Angle arithmetic of the clock script's shortest-path hand update.
 *
 * Every angle the script computes is a multiple of half a degree (hour targets
 * move by 0.5 degree a minute, all other targets by 6 degrees), so angles are
 * modelled exactly as whole numbers of HALF-DEGREES: 360 degrees is 720 units.
 */
module Angles {

  /** A full turn (360 degrees) in half-degrees. */
  const FullTurn: int := 720

  /** Half a turn (180 degrees) in half-degrees. */
  const HalfTurn: int := 360

  /** Two angles that point the same way on the dial. */
  predicate Congruent(a: int, b: int) {
    (a - b) % FullTurn == 0
  }

  function Abs(x: int): nat {
    if x < 0 then -x else x
  }

  /**
   * `a % 360` as JavaScript computes it: the remainder of division truncated
   * toward zero, which takes the sign of the dividend (unlike Dafny's
   * Euclidean `%`). The script only ever divides by a full turn.
   */
  function TruncRem(a: int): (r: int)
    ensures Congruent(a, r)
    ensures a >= 0 ==> 0 <= r < FullTurn
    ensures a < 0 ==> -FullTurn < r <= 0
  {
    if a >= 0 then a % FullTurn else -((-a) % FullTurn)
  }

  /**
   * The correction `angleDiff` that moves a hand from its cumulative angle
   * `current` to the dial position `target`: the target minus the
   * truncated remainder of the current angle, folded back by a full turn
   * when it leaves half a turn in either direction.
   *
   * Whatever the prior angle, the hand ends up on the target. When the prior
   * angle is not below -180 degrees (in particular when it is non-negative)
   * and the target lies on the dial, the correction is at most half a turn
   * in either direction; otherwise it can reach almost a full turn forward.
   */
  function ShortestDelta(current: int, target: int): (d: int)
    ensures Congruent(current + d, target)
    ensures 0 <= target < FullTurn ==> -HalfTurn <= d < FullTurn
    ensures -HalfTurn <= current && 0 <= target < FullTurn ==> -HalfTurn <= d <= HalfTurn
  {
    var diff := target - TruncRem(current);
    var folded := if diff > HalfTurn then diff - FullTurn else diff;
    if folded < -HalfTurn then folded + FullTurn else folded
  }

  /** The cumulative angle stored after one update toward `target`. */
  function NextAngle(current: int, target: int): (next: int)
    ensures Congruent(next, target)
    ensures -HalfTurn <= current && 0 <= target < FullTurn ==> Abs(next - current) <= HalfTurn
  {
    current + ShortestDelta(current, target)
  }

  /**
   * The correction is the shortest one: no other rotation that lands on the
   * target is smaller, provided the prior angle is not below -180 degrees.
   */
  lemma ShortestDeltaIsMinimal(current: int, target: int, other: int)
    requires -HalfTurn <= current && 0 <= target < FullTurn
    requires Congruent(current + other, target)
    ensures Abs(ShortestDelta(current, target)) <= Abs(other)
  {
    var d := ShortestDelta(current, target);
    var k := (other - d) / FullTurn;
    assert (other - d) % FullTurn == 0 by {
      assert (current + other - target) % FullTurn == 0;
      assert (current + d - target) % FullTurn == 0;
      CongruentDifference(current + other - target, current + d - target);
    }
    assert other == d + k * FullTurn;
    if k > 0 {
      assert k * FullTurn >= FullTurn;
    } else if k < 0 {
      assert k * FullTurn <= -FullTurn;
    }
  }

  /** The difference of two multiples of a full turn is one. */
  lemma CongruentDifference(a: int, b: int)
    requires a % FullTurn == 0 && b % FullTurn == 0
    ensures (a - b) % FullTurn == 0
  {
    var p, q := a / FullTurn, b / FullTurn;
    assert a == p * FullTurn && b == q * FullTurn;
    assert a - b == (p - q) * FullTurn;
  }

  /**
   * A real movement of the hand of less than half a turn is reproduced
   * exactly: the stored angle moves by that amount, forward or backward,
   * instead of snapping back at 12 o'clock. Holds for every prior angle not
   * below -180 degrees.
   */
  lemma SmallMoveIsExact(current: int, target: int, delta: int)
    requires -HalfTurn <= current && 0 <= target < FullTurn
    requires -HalfTurn < delta < HalfTurn
    requires Congruent(current + delta, target)
    ensures ShortestDelta(current, target) == delta
  {
  }

  /** Both ends of the half-turn bound are reached: the fold keeps +180 and -180. */
  lemma HalfTurnTies()
    ensures ShortestDelta(HalfTurn, 0) == -HalfTurn
    ensures ShortestDelta(0, HalfTurn) == HalfTurn
  {
  }

  /** Second hand at 354 degrees, target 0: the hand moves +6 degrees to 360, not back to 0. */
  lemma SecondHandWraps()
    ensures ShortestDelta(708, 0) == 12
    ensures NextAngle(708, 0) == FullTurn
  {
  }
}
