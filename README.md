# Analogue clock: continuous hand rotation

The analogue-clock editor extension draws an SVG clock face in a webview
panel. The panel's script keeps a table, `currentAngles`, with one
cumulative angle for each hand. Once a second, `updateClock` reads the wall
clock, computes a target dial angle for the hour, minute and second hands,
and calls `updateHand` for each one. `updateHand` moves its hand to the
target by the shortest path, so the stored angle keeps growing past 360
degrees instead of snapping back to 0 at 12 o'clock.

This project models that script and proves what it guarantees.

- `Angles` (`angles.dfy`) holds the arithmetic. It has JavaScript's
  truncating `%` (`TruncRem`) and the shortest-path correction
  (`ShortestDelta`, `NextAngle`). Its lemmas show that the hand always lands
  on its target. When the prior angle is at least -180 degrees, they also
  show that the correction is the shortest one and that any real movement
  under half a turn is reproduced exactly.
- `Clock` (`clock.dfy`) holds the hands, the wall-clock reading and the three
  target formulas.
- `ClockScript` (`clock_script.dfy`) holds the `currentAngles` table. It is a
  class whose methods `UpdateHand` and `UpdateClock` follow the script
  statement by statement. They are proved against the map-level functions
  `Advance` and `Tick`.
- `Motion` (`motion.dfy`) covers one hand over many ticks (`Replay`). One
  lemma shows that the second hand climbs by exactly 6 degrees a second,
  forever, from whatever second the first tick falls on. Another shows that
  a minute of seconds ends at 360 degrees, not 0.

Units: every angle the script computes is a multiple of half a degree, so
angles are whole numbers of half-degrees. A full turn is 720 and half a turn
is 360. The README gives degrees; the Dafny gives half-degrees.

Facts about the correction that a reader might not expect:

- The correction can be exactly -180 or exactly +180 degrees. Prior 180 with
  target 0 gives -180; prior 0 with target 180 gives +180
  (`Angles.HalfTurnTies`).
- Stored angles go negative: the first tick at 11:40 stores -10 degrees for
  the hour hand (`ClockScript.ElevenFortyFirstTick`). The remainder is
  truncating, so the half-turn bound is guaranteed only for prior angles of
  at least -180 degrees. Below that it can still hold (prior -200 with
  target 0 gives -160), but three hour targets after long pauses give a
  190-degree step (`Motion.NegativePriorOvershoots`).
- The first tick goes through `updateHand` like every other tick. Only the
  CSS transitions are switched off around it (src/extension.ts:99-102), and
  they do not touch the angle table.

## Model

| member | source | states |
|---|---|---|
| Angles.TruncRem | src/extension.ts:130 | `current % 360` differs from `current` by whole turns; it lies in [0, 360) for non-negative angles and in (-360, 0] for negative ones |
| Angles.ShortestDelta | src/extension.ts:130-134 | for every prior angle the correction lands the hand on the target modulo 360; for a target on the dial it lies in [-180, 360); for a prior angle of at least -180 degrees it lies in [-180, 180] |
| Angles.NextAngle | src/extension.ts:137 | the new cumulative angle points at the target, and from a prior angle of at least -180 degrees it is within half a turn of the old one |
| Angles.ShortestDeltaIsMinimal | src/extension.ts:128-134 | no other rotation that reaches the target is shorter than the correction, for prior angles of at least -180 degrees |
| Angles.SmallMoveIsExact | src/extension.ts:130-137 | from a prior angle of at least -180 degrees, when the target is a real movement of less than 180 degrees either way, the correction equals that movement, so the hand never snaps back at 12 o'clock |
| Angles.HalfTurnTies | src/extension.ts:133-134 | both ends of the bound are reached: prior 180 and target 0 give -180, prior 0 and target 180 give +180 |
| Angles.SecondHandWraps | src/extension.ts:130-137 | second hand at 354 with target 0: the correction is +6 and the stored angle is 360, not 0 |
| Clock.HourTarget | src/extension.ts:114 | for minutes 0..59 the hour target lies in [0, 359.5] degrees, and it encodes the 12-hour hour and the minute without loss |
| Clock.SixtiethTarget | src/extension.ts:115-116 | the minute and second targets are multiples of 6 degrees that encode the count; for counts 0..59 they lie in [0, 354] |
| Clock.Target | src/extension.ts:114-116 | for a valid reading every hand's target lies in [0, 360); minute and second targets are multiples of 6 degrees |
| Clock.TenNineThirty | src/extension.ts:114-116 | 10:09:30 gives 304.5, 54 and 180 degrees; 22:09:30 gives the same hour target |
| ClockScript.Advance | src/extension.ts:129-138 | updating one hand writes only that entry, makes it point at the target, and moves it at most half a turn from a prior angle of at least -180 degrees; an unset entry counts as 0 |
| ClockScript.Tick | src/extension.ts:119-121 | after a tick every hand whose element exists has moved by its own shortest-path correction from its own prior angle and points at its target; for a valid reading and a prior angle of at least -180 degrees that move is at most half a turn; every hand whose element is missing keeps its stored angle |
| ClockScript.AngleTable.constructor | src/extension.ts:90-94 | the table starts with all three hands at 0 |
| ClockScript.AngleTable.UpdateHand | src/extension.ts:124-142 | a missing element leaves the table unchanged and draws nothing; otherwise the hand's entry moves by the shortest-path correction, points at the target and is the rotation drawn; the other hands are unchanged |
| ClockScript.AngleTable.UpdateClock | src/extension.ts:107-122 | the table advances by one tick for the hands found, in the order hour, minute, second; each drawn rotation is the stored angle and points at that hand's target |
| ClockScript.TenNineThirtyTick | src/extension.ts:114-121 | from stored angles 300, 48 and 174, the tick at 10:09:30 stores 304.5, 54 and 180 |
| ClockScript.ElevenFortyFirstTick | src/extension.ts:114-138 | the first tick at 11:40 from the initial table stores -10 for the hour hand and -120 for the minute hand |
| Motion.Replay | src/extension.ts:129-138 | after each of a sequence of updates of one hand, the stored angle points at that update's target |
| Motion.NextSecondIsSixAhead | src/extension.ts:116-137 | from any stored multiple 6j of 6 degrees, negative ones included, the next second's target moves the hand exactly 6 degrees forward, also across 12 o'clock |
| Motion.SecondHandClimbs | src/extension.ts:116-138 | from 6j degrees for any whole j, n consecutive seconds whose counter agrees with j + 1 on the dial store 6(j+1), ..., 6(j+n): the second hand climbs by exactly 6 degrees a second without ever going back |
| Motion.SecondTargets | src/extension.ts:116 | the second-hand targets of n consecutive seconds: entry i is the target of second from + i on the 60-second dial |
| Motion.TicksReplayEachHand | src/extension.ts:107-138 | over any run of ticks of the whole table, the angles stored for a hand whose element exists are exactly the run of single-hand updates toward that hand's own targets, so the `Replay` lemmas hold for the table |
| Motion.MissingHandStays | src/extension.ts:119-126 | over any run of ticks, a hand whose element is missing keeps its stored angle |
| Motion.SweepFromFirstTick | src/extension.ts:116-138 | starting from the initial 0 with the first tick at second s, the targets of seconds s, s+1, ..., s+n store the first tick's angle (6s, or 6(s-60) for s above 30) and then climb by exactly 6 degrees a second |
| Motion.MinuteOfSeconds | src/extension.ts:116-138 | starting from 0, the targets of seconds 0..59 and then 0 store 0, 6, ..., 354 and then 360 |
| Motion.NegativePriorOvershoots | src/extension.ts:129-134 | hour targets at 6:02, 12:20 and 6:40 from 0 store -179, -350 and -160 degrees; the last step is 190 degrees forward, more than half a turn |

## Left out

- Angles.ShortestDelta: the half-turn bound and the minimality of the correction are stated only for prior angles of at least -180 degrees. Below that the truncating remainder can break them, as `Motion.NegativePriorOvershoots` shows.
- Extension registration (`activate`, the `openClock` command, `deactivate`): thin calls into the editor's API, which is not part of this model.
- The `ClockPanel` class (`createOrShow`, its constructor, `_update`, `dispose`): it manages the webview through the editor's API.
- The HTML, CSS and SVG markup, including the CSS transitions and their bounce curve: these only affect rendering.
- The `DOMContentLoaded` hook, the 50 ms `setTimeout` and the 1 s `setInterval`: these are event-loop scheduling. One call of `UpdateClock` models one tick, and `Motion.TickTrail` a run of ticks at given readings; `Motion.TicksReplayEachHand` shows that such a run moves each hand found as `Motion.Replay` does. Switching transitions off for the first tick does not touch the angle table.
- `new Date()` and its getters: the reading is the `now` parameter.
- `document.getElementById`: reduced to whether the hand's element exists (`found`).
- The `rotate(...)` string written by `setAttribute`: the model reports the angle it carries, not JavaScript's number formatting.
- Floating point: every value is a small multiple of half a degree, so exact integer half-degrees are faithful. `UpdateHand` takes targets in half-degrees, as `updateClock` produces them, not arbitrary numbers.
