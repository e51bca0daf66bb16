/**
 * One hand over many ticks: the cumulative angles the table stores when the
 * same hand is updated toward a sequence of targets, one update per tick of
 * the one-second interval.
 */
module Motion {
  import opened Angles
  import opened Clock
  import opened ClockScript

  /**
   * The stored angles after each update, starting from `start`; entry i
   * always points at target i.
   */
  function Replay(start: int, targets: seq<int>): (trail: seq<int>)
    ensures |trail| == |targets|
    ensures forall i :: 0 <= i < |targets| ==> Congruent(trail[i], targets[i])
    decreases |targets|
  {
    if targets == [] then []
    else
      var next := NextAngle(start, targets[0]);
      [next] + Replay(next, targets[1..])
  }

  /** The second-hand targets of `n` consecutive seconds, from second `from` on. */
  function SecondTargets(from: nat, n: nat): (ts: seq<int>)
    ensures |ts| == n
    ensures forall i :: 0 <= i < n ==> ts[i] == SixtiethTarget((from + i) % 60)
    decreases n
  {
    if n == 0 then [] else [SixtiethTarget(from % 60)] + SecondTargets(from + 1, n - 1)
  }

  /** The targets of hand `h` at the readings `times`, one per tick. */
  function HandTargets(times: seq<WallTime>, h: Hand): (ts: seq<int>)
    ensures |ts| == |times|
    ensures forall i :: 0 <= i < |times| ==> ts[i] == Target(times[i], h)
    decreases |times|
  {
    if times == [] then [] else [Target(times[0], h)] + HandTargets(times[1..], h)
  }

  /**
   * The angle the table stores for hand `h` after each of a run of ticks at
   * the readings `times`, starting from `angles`, with the hand elements
   * `found` present throughout.
   */
  function TickTrail(angles: map<Hand, int>, times: seq<WallTime>, found: set<Hand>, h: Hand): (trail: seq<int>)
    ensures |trail| == |times|
    decreases |times|
  {
    if times == [] then []
    else
      var next := Tick(angles, times[0], found);
      [Stored(next, h)] + TickTrail(next, times[1..], found, h)
  }

  /**
   * A run of ticks of the whole table moves each hand found exactly as a
   * run of `NextAngle` updates of that hand alone toward its own targets,
   * so every fact proved about `Replay` holds for the table.
   */
  lemma {:induction false} TicksReplayEachHand(angles: map<Hand, int>, times: seq<WallTime>, found: set<Hand>, h: Hand)
    requires h in found
    ensures TickTrail(angles, times, found, h) == Replay(Stored(angles, h), HandTargets(times, h))
    decreases |times|
  {
    if times != [] {
      var next := Tick(angles, times[0], found);
      TicksReplayEachHand(next, times[1..], found, h);
      ReplayUnfolds(Stored(angles, h), Target(times[0], h), HandTargets(times[1..], h));
    }
  }

  /** A hand whose element is missing keeps its stored angle through every tick. */
  lemma {:induction false} MissingHandStays(angles: map<Hand, int>, times: seq<WallTime>, found: set<Hand>, h: Hand)
    requires h !in found
    ensures forall i :: 0 <= i < |times| ==> TickTrail(angles, times, found, h)[i] == Stored(angles, h)
    decreases |times|
  {
    if times != [] {
      MissingHandStays(Tick(angles, times[0], found), times[1..], found, h);
    }
  }

  /** `n` angles climbing by 6 degrees from `first`. */
  function SixDegreeRamp(first: int, n: nat): (r: seq<int>)
    ensures |r| == n
    ensures forall i :: 0 <= i < n ==> r[i] == first + 12 * i
    decreases n
  {
    if n == 0 then [] else [first] + SixDegreeRamp(first + 12, n - 1)
  }

  /**
   * From 6j degrees, the target of the next second is exactly 6 degrees
   * ahead, for negative j as well: a first tick at second 31..59 stores
   * 6(s - 60) degrees, and the truncating remainder of that negative angle
   * still yields a 6-degree step.
   */
  lemma NextSecondIsSixAhead(j: int)
    ensures NextAngle(12 * j, SixtiethTarget((j + 1) % 60)) == 12 * (j + 1)
  {
    if j >= 0 {
      var q, k := j / 60, j % 60;
      TurnRemainder(q, 12 * k);
      assert TruncRem(12 * j) == 12 * k;
      if k == 59 {
        SixtyRemainder(q + 1, 0);
        assert SixtiethTarget((j + 1) % 60) == 0;
      } else {
        SixtyRemainder(q, k + 1);
        assert SixtiethTarget((j + 1) % 60) == 12 * k + 12;
      }
    } else {
      var q, k := (-j) / 60, (-j) % 60;
      TurnRemainder(q, 12 * k);
      assert TruncRem(12 * j) == -12 * k;
      if k == 0 {
        SixtyRemainder(-q, 1);
        assert SixtiethTarget((j + 1) % 60) == 12;
      } else if k == 1 {
        SixtyRemainder(-q, 0);
        assert SixtiethTarget((j + 1) % 60) == 0;
      } else {
        SixtyRemainder(-q - 1, 61 - k);
        assert SixtiethTarget((j + 1) % 60) == 12 * (61 - k);
      }
    }
  }

  /** Euclidean remainder of `720 * q + r` for a remainder `r` already in range. */
  lemma TurnRemainder(q: int, r: int)
    requires 0 <= r < 720
    ensures (720 * q + r) % 720 == r
  {
  }

  /** Euclidean remainder of `60 * q + r` for a remainder `r` already in range. */
  lemma SixtyRemainder(q: int, r: int)
    requires 0 <= r < 60
    ensures (60 * q + r) % 60 == r
  {
  }

  /**
   * Once the second hand stands at 6j degrees, for any whole j including
   * negative ones, every following second moves it forward by exactly 6
   * degrees, across any number of 12 o'clock crossings: the stored angle
   * keeps growing and never snaps back. The seconds counter `k` only has to
   * agree with j + 1 on the dial.
   */
  lemma {:induction false} SecondHandClimbs(j: int, k: nat, n: nat)
    requires k % 60 == (j + 1) % 60
    ensures Replay(12 * j, SecondTargets(k, n)) == SixDegreeRamp(12 * (j + 1), n)
    decreases n
  {
    if n > 0 {
      NextSecondIsSixAhead(j);
      NextOnTheDial(k, j + 1);
      SecondHandClimbs(j + 1, k + 1, n - 1);
    }
  }

  /** Counters that agree on the dial still agree one second later. */
  lemma NextOnTheDial(a: int, b: int)
    requires a % 60 == b % 60
    ensures (a + 1) % 60 == (b + 1) % 60
  {
    SixtyRemainder(a / 60, a % 60);
    SixtyRemainder(b / 60, b % 60);
    if a % 60 == 59 {
      SixtyRemainder(a / 60 + 1, 0);
      SixtyRemainder(b / 60 + 1, 0);
    } else {
      SixtyRemainder(a / 60, a % 60 + 1);
      SixtyRemainder(b / 60, b % 60 + 1);
    }
  }

  /**
   * The angle the first tick stores for second `s` from the initial 0: the
   * shorter way round, so seconds 31..59 give a negative angle.
   */
  function FirstSecondAngle(s: nat): int {
    if 12 * s <= HalfTurn then 12 * s else 12 * s - FullTurn
  }

  /**
   * Starting from the initial 0 and feeding the targets of seconds s, s + 1,
   * s + 2, ... stores the first tick's angle and then climbs by 6 degrees a
   * second, one update per second; from second 0 that is 0, 6, 12, ...
   */
  lemma SweepFromFirstTick(s: nat, n: nat)
    requires s < 60
    ensures Replay(0, SecondTargets(s, n + 1)) == SixDegreeRamp(FirstSecondAngle(s), n + 1)
  {
    var first := FirstSecondAngle(s);
    var rest := SecondTargets(s + 1, n);
    assert NextAngle(0, 12 * s) == first;
    calc {
      Replay(0, SecondTargets(s, n + 1));
      { assert SecondTargets(s, n + 1) == [12 * s] + rest; }
      Replay(0, [12 * s] + rest);
      { ReplayUnfolds(0, 12 * s, rest); }
      [first] + Replay(first, rest);
      { FirstTickOnTheDial(s);
        SecondHandClimbs(first / 12, s + 1, n); }
      [first] + SixDegreeRamp(first + 12, n);
      { RampUnfolds(first, n); }
      SixDegreeRamp(first, n + 1);
    }
  }

  /** The first tick's angle is 6j degrees for a j that agrees with s on the dial. */
  lemma FirstTickOnTheDial(s: nat)
    requires s < 60
    ensures FirstSecondAngle(s) == 12 * (FirstSecondAngle(s) / 12)
    ensures (s + 1) % 60 == (FirstSecondAngle(s) / 12 + 1) % 60
  {
    if 12 * s > HalfTurn {
      assert FirstSecondAngle(s) / 12 == s - 60;
      if s == 59 {
        SixtyRemainder(1, 0);
      } else {
        SixtyRemainder(-1, s + 1);
        SixtyRemainder(0, s + 1);
      }
    }
  }

  /** A ramp is its first angle followed by the ramp 6 degrees higher. */
  lemma RampUnfolds(first: int, n: nat)
    ensures SixDegreeRamp(first, n + 1) == [first] + SixDegreeRamp(first + 12, n)
  {
  }

  /** A run is its first update followed by the run from the angle it stores. */
  lemma ReplayUnfolds(start: int, target: int, rest: seq<int>)
    ensures Replay(start, [target] + rest) == [NextAngle(start, target)] + Replay(NextAngle(start, target), rest)
  {
    assert ([target] + rest)[1..] == rest;
  }

  /**
   * Seconds 0, 1, ..., 59 and 0 again, from 0, store 0, 6, ..., 354 and then
   * 360 degrees: the wrap to second 0 stores 360, not 0.
   */
  lemma MinuteOfSeconds()
    ensures Replay(0, SecondTargets(0, 61)) == SixDegreeRamp(0, 61)
    ensures SixDegreeRamp(0, 61)[60] == FullTurn
  {
    SweepFromFirstTick(0, 60);
  }

  /**
   * The half-turn bound needs a prior angle not below -180 degrees. Hour
   * targets of 6:02, 12:20 and 6:40 from the initial 0 (ticks after two long
   * pauses) store -179, -350 and -160 degrees: under the truncating
   * remainder the third step turns the hand 190 degrees forward, where 170
   * degrees back would reach the same position.
   */
  lemma NegativePriorOvershoots()
    ensures Replay(0, [HourTarget(6, 2), HourTarget(12, 20), HourTarget(18, 40)]) == [-358, -700, -320]
    ensures ShortestDelta(-700, HourTarget(18, 40)) == 380
  {
  }
}
