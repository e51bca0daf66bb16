/**
 * The dial positions the clock script aims each hand at, computed from the
 * wall-clock reading of one tick. Angles are in half-degrees (see Angles).
 */
module Clock {
  import opened Angles

  /** The three hand elements `hourHand`, `minuteHand` and `secondHand`. */
  datatype Hand = Hour | Minute | Second

  /** One reading of the local wall clock: hours, minutes and seconds. */
  datatype WallTime = WallTime(hours: nat, minutes: nat, seconds: nat)

  /** The ranges the clock reports: hours 0..23, minutes and seconds 0..59. */
  predicate ValidTime(t: WallTime) {
    t.hours < 24 && t.minutes < 60 && t.seconds < 60
  }

  /**
   * `(hours % 12) * 30 + minutes * 0.5` degrees. On the dial, and it encodes
   * the hour of the 12-hour dial and the minute without loss.
   */
  function HourTarget(hours: nat, minutes: nat): (a: int)
    ensures minutes < 60 ==> 0 <= a < FullTurn && a / 60 == hours % 12 && a % 60 == minutes
  {
    (hours % 12) * 60 + minutes
  }

  /**
   * `minutes * 6` or `seconds * 6` degrees: a multiple of 6 degrees that
   * encodes the count, on the dial at most 354 degrees.
   */
  function SixtiethTarget(k: nat): (a: int)
    ensures a % 12 == 0 && a / 12 == k
    ensures k < 60 ==> 0 <= a <= FullTurn - 12
  {
    k * 12
  }

  /** The target angle of hand `h` at time `now`. */
  function Target(now: WallTime, h: Hand): (a: int)
    ensures ValidTime(now) ==> 0 <= a < FullTurn
    ensures h != Hour ==> a % 12 == 0
  {
    match h
    case Hour => HourTarget(now.hours, now.minutes)
    case Minute => SixtiethTarget(now.minutes)
    case Second => SixtiethTarget(now.seconds)
  }

  /** 10:09:30 aims the hands at 304.5, 54 and 180 degrees; 22:09:30 gives the same. */
  lemma TenNineThirty()
    ensures Target(WallTime(10, 9, 30), Hour) == 609
    ensures Target(WallTime(10, 9, 30), Minute) == 108
    ensures Target(WallTime(10, 9, 30), Second) == 360
    ensures Target(WallTime(22, 9, 30), Hour) == 609
  {
  }
}
