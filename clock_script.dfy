/**
 * The webview script's table of cumulative hand angles (`currentAngles`) and
 * the two functions that update it once per tick: `updateHand`, which moves
 * one hand by the shortest path, and `updateClock`, which aims all three.
 *
 * The document is reduced to which hand elements it contains; the
 * `rotate(...)` transform written to an element is reported as the angle it
 * carries.
 */
module ClockScript {
  import opened Angles
  import opened Clock

  datatype Option<T> = None | Some(value: T)

  /** A table entry, with an unset entry read as 0 (`currentAngles[id] || 0`). */
  function Stored(angles: map<Hand, int>, id: Hand): int {
    if id in angles then angles[id] else 0
  }

  /**
   * The table after moving hand `id` toward `target`: only that entry is
   * written, it lands on the target, and from a prior angle not below -180
   * degrees with a target on the dial it moves at most half a turn.
   */
  function Advance(angles: map<Hand, int>, id: Hand, target: int): (r: map<Hand, int>)
    ensures r.Keys == angles.Keys + {id}
    ensures Congruent(Stored(r, id), target)
    ensures forall h :: h != id ==> Stored(r, h) == Stored(angles, h)
    ensures -HalfTurn <= Stored(angles, id) && 0 <= target < FullTurn ==>
              Abs(Stored(r, id) - Stored(angles, id)) <= HalfTurn
  {
    angles[id := NextAngle(Stored(angles, id), target)]
  }

  /**
   * The table after one tick at `now` when the document holds the hand
   * elements `found`: each hand found moves by its own shortest-path
   * correction from its own prior angle and points at its target; from a
   * prior angle not below -180 degrees, and for a valid reading, that move
   * is at most half a turn. Each missing hand keeps its stored angle.
   */
  function Tick(angles: map<Hand, int>, now: WallTime, found: set<Hand>): (r: map<Hand, int>)
    ensures forall h :: h in found ==> Stored(r, h) == NextAngle(Stored(angles, h), Target(now, h))
    ensures forall h :: h in found ==> Congruent(Stored(r, h), Target(now, h))
    ensures forall h :: h in found && ValidTime(now) && -HalfTurn <= Stored(angles, h) ==>
              Abs(Stored(r, h) - Stored(angles, h)) <= HalfTurn
    ensures forall h :: h !in found ==> Stored(r, h) == Stored(angles, h)
  {
    var afterHour := Aim(angles, now, found, Hour);
    var afterMinute := Aim(afterHour, now, found, Minute);
    var r := Aim(afterMinute, now, found, Second);
    assert Stored(r, Hour) == Stored(afterHour, Hour);
    assert Stored(r, Minute) == Stored(afterMinute, Minute);
    r
  }

  /** One step of a tick: hand `h` is updated toward its target if its element was found. */
  function Aim(angles: map<Hand, int>, now: WallTime, found: set<Hand>, h: Hand): map<Hand, int> {
    if h in found then Advance(angles, h, Target(now, h)) else angles
  }

  /** The script's shared `currentAngles` table. */
  class AngleTable {
    var angles: map<Hand, int>

    /** All three hands start at 0. */
    constructor ()
      ensures angles == map[Hour := 0, Minute := 0, Second := 0]
    {
      angles := map[Hour := 0, Minute := 0, Second := 0];
    }

    /** The cumulative angle the script reads for hand `id`. */
    function Current(id: Hand): int
      reads this
    {
      Stored(angles, id)
    }

    /**
     * `updateHand(id, target)`. When the hand's element is missing nothing
     * changes and nothing is drawn. Otherwise the entry for `id` becomes its
     * prior angle plus the shortest-path correction, the element is rotated
     * to that angle, and the other hands are untouched.
     */
    method UpdateHand(id: Hand, target: int, found: bool) returns (rotation: Option<int>)
      modifies this
      ensures !found ==> angles == old(angles) && rotation == None
      ensures found ==> angles == Advance(old(angles), id, target)
      ensures found ==> rotation == Some(Current(id)) && Congruent(Current(id), target)
      ensures forall h :: h != id ==> Current(h) == old(Current(h))
    {
      if !found {
        return None;
      }
      var currentAngle := Current(id);
      var angleDiff := target - TruncRem(currentAngle);
      if angleDiff > HalfTurn {
        angleDiff := angleDiff - FullTurn;
      }
      if angleDiff < -HalfTurn {
        angleDiff := angleDiff + FullTurn;
      }
      var newAngle := currentAngle + angleDiff;
      angles := angles[id := newAngle];
      rotation := Some(newAngle);
    }

    /**
     * `updateClock()` for the reading `now`: the hour, minute and second
     * hands are updated in that order; `drawn` holds the rotation written to
     * each hand element found, which points at that hand's target.
     */
    method UpdateClock(now: WallTime, found: set<Hand>) returns (drawn: map<Hand, int>)
      modifies this
      ensures drawn.Keys == found
      ensures forall h :: h in drawn ==> drawn[h] == Current(h) && Congruent(drawn[h], Target(now, h))
      ensures angles == Tick(old(angles), now, found)
    {
      ghost var prior := angles;
      drawn := map[];
      var hour := UpdateHand(Hour, Target(now, Hour), Hour in found);
      if hour.Some? {
        drawn := drawn[Hour := hour.value];
      }
      ghost var afterHour := angles;
      assert afterHour == Aim(prior, now, found, Hour);
      var minute := UpdateHand(Minute, Target(now, Minute), Minute in found);
      if minute.Some? {
        drawn := drawn[Minute := minute.value];
      }
      ghost var afterMinute := angles;
      assert afterMinute == Aim(afterHour, now, found, Minute);
      var second := UpdateHand(Second, Target(now, Second), Second in found);
      if second.Some? {
        drawn := drawn[Second := second.value];
      }
      assert angles == Aim(afterMinute, now, found, Second);
      assert DrawnFor(drawn, angles, now, found, Hour);
      assert DrawnFor(drawn, angles, now, found, Minute);
      assert DrawnFor(drawn, angles, now, found, Second);
      DrawnForAll(drawn, angles, now, found);
    }
  }

  /**
   * The rotation of hand `h` was drawn exactly when its element was found,
   * and it is the hand's stored angle, which points at its target.
   */
  predicate DrawnFor(drawn: map<Hand, int>, angles: map<Hand, int>, now: WallTime, found: set<Hand>, h: Hand) {
    (h in drawn <==> h in found) &&
    (h in drawn ==> drawn[h] == Stored(angles, h) && Congruent(drawn[h], Target(now, h)))
  }

  /** What holds for each of the three hands holds for the whole table. */
  lemma DrawnForAll(drawn: map<Hand, int>, angles: map<Hand, int>, now: WallTime, found: set<Hand>)
    requires DrawnFor(drawn, angles, now, found, Hour)
    requires DrawnFor(drawn, angles, now, found, Minute)
    requires DrawnFor(drawn, angles, now, found, Second)
    ensures drawn.Keys == found
    ensures forall h :: h in drawn ==> drawn[h] == Stored(angles, h) && Congruent(drawn[h], Target(now, h))
  {
    forall h
      ensures h in drawn.Keys <==> h in found
      ensures h in drawn ==> drawn[h] == Stored(angles, h) && Congruent(drawn[h], Target(now, h))
    {
      assert DrawnFor(drawn, angles, now, found, h) by {
        match h
        case Hour =>
        case Minute =>
        case Second =>
      }
    }
  }

  /**
   * When all three hand elements exist, a tick is the three updates in order:
   * each hand's entry is overwritten with its new angle.
   */
  lemma TickWithAllHands(angles: map<Hand, int>, now: WallTime, hour: int, minute: int, second: int)
    requires NextAngle(Stored(angles, Hour), Target(now, Hour)) == hour
    requires NextAngle(Stored(angles, Minute), Target(now, Minute)) == minute
    requires NextAngle(Stored(angles, Second), Target(now, Second)) == second
    ensures Tick(angles, now, {Hour, Minute, Second}) == angles[Hour := hour][Minute := minute][Second := second]
  {
    var afterHour := Advance(angles, Hour, Target(now, Hour));
    assert afterHour == angles[Hour := hour];
    var afterMinute := Advance(afterHour, Minute, Target(now, Minute));
    assert afterMinute == afterHour[Minute := minute];
  }

  /**
   * With stored angles 300, 48 and 174 degrees, the tick at 10:09:30 stores
   * 304.5, 54 and 180: every hand moves forward by at most 6 degrees.
   */
  lemma TenNineThirtyTick()
    ensures Tick(map[Hour := 600, Minute := 96, Second := 348], WallTime(10, 9, 30), {Hour, Minute, Second})
         == map[Hour := 609, Minute := 108, Second := 360]
  {
    var now := WallTime(10, 9, 30);
    var prior := map[Hour := 600, Minute := 96, Second := 348];
    assert Target(now, Hour) == 609 && Target(now, Minute) == 108 && Target(now, Second) == 360;
    SmallForwardSteps();
    TickWithAllHands(prior, now, 609, 108, 360);
    OverwriteAll(600, 96, 348, 609, 108, 360);
  }

  /** The three corrections of the 10:09:30 tick are the real forward movements. */
  lemma SmallForwardSteps()
    ensures NextAngle(600, 609) == 609
    ensures NextAngle(96, 108) == 108
    ensures NextAngle(348, 360) == 360
  {
  }

  /** Overwriting all three entries of a full table gives the new table. */
  lemma OverwriteAll(hour: int, minute: int, second: int, hour': int, minute': int, second': int)
    ensures map[Hour := hour, Minute := minute, Second := second][Hour := hour'][Minute := minute'][Second := second']
         == map[Hour := hour', Minute := minute', Second := second']
  {
  }

  /**
   * The first tick at 11:40 from the initial table moves the hour hand back
   * by 10 degrees to -10 and the minute hand back by 120 degrees to -120:
   * stored angles can go negative.
   */
  lemma ElevenFortyFirstTick()
    ensures Stored(Tick(map[Hour := 0, Minute := 0, Second := 0], WallTime(11, 40, 0), {Hour, Minute, Second}), Hour) == -20
    ensures Stored(Tick(map[Hour := 0, Minute := 0, Second := 0], WallTime(11, 40, 0), {Hour, Minute, Second}), Minute) == -240
  {
    var now := WallTime(11, 40, 0);
    var prior := map[Hour := 0, Minute := 0, Second := 0];
    assert Target(now, Hour) == 700 && Target(now, Minute) == 480;
    assert NextAngle(0, 700) == -20;
    assert NextAngle(0, 480) == -240;
    assert Hour in {Hour, Minute, Second} && Minute in {Hour, Minute, Second};
  }
}
