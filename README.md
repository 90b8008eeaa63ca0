# Dial selection engine of timepicker-ui

This project models, in Dafny, the core of the `TimepickerUI` class of
timepicker-ui: an analog clock face on which the user drags a hand to pick an
hour and a minute. The model covers:

- the integer geometry that turns a snapped pointer angle into a minute, a
  12-hour inner-ring hour or a 24-hour outer-ring hour, and a hand angle;
- the reverse mapping from a shown hour or minute label to the hand angle;
- the disabled-time gates, which refuse a candidate minute or hour during a drag;
- the drag handler's state machine: the drag flag, minute or hour mode, both
  hour rings in one event, and the automatic switch to minute mode on release;
- the OK button's accept gate;
- the mobile option check;
- the construction-time seeding of the hand angles.

Modules, bottom up:

- `JsValues` gives the JavaScript semantics the code relies on:
  - `Math.round(n/d)` is `RoundDiv`. Halves round toward +∞, and the nearest-integer property is proved.
  - The truncating `%` is `JsRem`.
  - `String(n)`, the zero padding `n <= 9 ? "0"+n : n`, `Number(text)` for digit strings, and `trimEnd`.
- `DialGeometry` holds the ring functions (`MinuteRing`, `Hour12Ring`, `Hour24Ring`) and the label-to-hand functions (`HourHand`, `MinuteHand`). Its lemmas say which tick is selected, the range, idempotence, and that the hand angle a drag stores equals the one the label-based setter computes later.
- `DisabledTime` holds the disabled-time record, with each part optional as the code's `?.` chains read it, and the three gates.
- `Interaction` holds the drag handler as a function `MoveHand` on the dial state, and lemmas for each promise of the handler.
- `AcceptGate` holds the OK-button decision `Accept` and the shape of the committed text.
- `Timepicker` holds the class `TimepickerUI`. Its fields are what the source updates in place: the options, the mobile-view flag, the drag flag, the two stored angles, the disabled-time record, the shown mode, the hour and minute texts, the hand, the active AM/PM button, the invalid markers, and the input value. Its methods have `modifies` clauses and are proved against the functions above.

The model starts from integer inputs:

- **Snapped angle.** Each event carries the value of the expression `rtangens && getIncrementTimes(...)` that holds the snapped angle, once for the minute increment and once for the hour increment. It is an `Option<int>`, where `None` stands for `undefined`. Usually it is the increment helper's result. When `Math.atan2` gives ±0 (the pointer exactly on the horizontal ray right of the centre, or exactly at the centre), the expression is 0 and the helper is not called. The input is then 0, and the top tick is selected.
- **Event shape.** Each event also carries whether a pointer position could be read, the class names of its target, and the class names of the element under the first touch point.
- **Accept checks.** The four check results that the OK button combines are inputs, one of `false`, another falsy value, or truthy. The gate tests them with `=== false`. It marks fields by plain falsiness.
- **Ring shown.** Which ring the DOM shows (minute tips or hour tips) is the field `mode`.

Behaviour modelled as the code has it:

- **Release.** A release switches to minute mode whenever the option is on and the target is a value tick or the tick wrapper. The code does not check that hour mode was active, so the model does not either.
- **Rejected hour.** The stored hour angle is overwritten with the snapped angle before the hour is gated. So on a refused hour, `degreesHours` points at the refused hour while the text and the hand stay put (`InnerDragOutcome`, `OuterDragOutcome`).
- **Negative 12-hour branch.** This branch has no 0→12 remap. A snapped angle in [-15, 0) selects hour 0, shown as "00" on the 12-hour ring (`Hour12RingJustBeforeTop`), because `Math.round(359.5)` is 360. On hour ticks, i.e. multiples of 30, it cannot happen, and `Hour12RingOfTick` proves a negative tick never gives 0 or 12. The well-formedness lemma therefore assumes tick-aligned hour angles (`TickAligned`).
- **Outer ring near the top.** The "00" case exists only in the non-negative branch. A snapped angle in [-15, 0) shows and looks up "0" (`Hour24RingJustBeforeTop`). One in [345, 360) rounds up to the next turn and shows "24" (`Hour24RingLastSector`). Neither happens on hour ticks (`Hour24RingOfTick`).
- **Stored minute angle.** It can be 360 for minute 0, for example when the snapped angle is 358. The proved bound is [0, 360], not [0, 360).
- **Guard above 360.** The "above 360 is refused" guard exists only in the two label-to-hand setters. The drag path has no such guard.
- **Drag vs accept.** Drag-time and accept-time legality are decided by different code. The accept checks come from helpers that are not part of this model, so their agreement is not stated.

## Model

| member | source | states |
|---|---|---|
| JsValues.RoundDiv | app/src/timepicker/index.ts:1008-1012 | `Math.round(n/d)` is the integer r with r - 1/2 <= n/d < r + 1/2 (halves go up) |
| JsValues.RoundDivShift | app/src/timepicker/index.ts:1008 | `Math.round(m + x) == m + Math.round(x)`, so `Math.round(360 + deg/6)` is 360 plus the rounded tick count |
| JsValues.JsRem | app/src/timepicker/index.ts:1011 | JavaScript `%` takes the sign of the dividend and agrees with the mathematical remainder on non-negative operands |
| JsValues.Pad2 | app/src/timepicker/index.ts:1041 | the padded label of a number below 100 is two decimal digits |
| JsValues.NatToStringValue | app/src/timepicker/index.ts:785 | `Number(String(n)) == n` for every natural number |
| JsValues.Pad2RoundTrip | app/src/timepicker/index.ts:799 | `Number` of a padded label gives back the number it was made from |
| JsValues.NatToString | app/src/timepicker/index.ts:1110 | `String(n)` of a natural number: at least one decimal digit, exactly one iff n < 10; `NatToStringValue` states it reads back as n |
| JsValues.IntToString | app/src/timepicker/index.ts:1150 | `String(n)` of an integer, as template strings render it: non-empty, starting with "-" exactly when n is negative, otherwise `NatToString(n)` |
| JsValues.JsNumber | app/src/timepicker/index.ts:785 | `Number(text)` over digit strings; `NatToStringValue` and `Pad2RoundTrip` state it inverts `String` and the padded label |
| JsValues.TrimEnd | app/src/timepicker/index.ts:637-639 | `trimEnd` leaves a prefix ending in a non-white-space character and drops only white space |
| DialGeometry.HourHand | app/src/timepicker/index.ts:784-796 | the hand angle of an hour is refused exactly for hours >= 25; an hour 0..23 gives (h mod 12)*30, a multiple of 30 in [0, 360) |
| DialGeometry.MinuteHand | app/src/timepicker/index.ts:798-804 | the hand angle of a minute is refused exactly above 60; minutes 0..60 give 6*m, and 0..59 a multiple of 6 below 360 |
| DialGeometry.SeedDegrees | app/src/timepicker/index.ts:57-70 | a seeded angle exists exactly when the seed text is a number |
| DialGeometry.SeedHourAgrees | app/src/timepicker/index.ts:57-63 | seeding from an hour label 0..23 gives 30*h, which is the hand angle of that hour modulo 360 |
| DialGeometry.SeedMinuteAgrees | app/src/timepicker/index.ts:64-70 | seeding from a minute label 0..59 gives 6*m, the angle the hand is drawn at for that minute |
| DialGeometry.MinuteRing | app/src/timepicker/index.ts:1007-1013 | the minute ring's pick; `MinuteRingNearest`, `MinuteRingIdempotent` and `MinuteRingOfTick` state it is the nearest tick, stable under re-snapping, and exact on ticks |
| DialGeometry.Hour12Ring | app/src/timepicker/index.ts:1084-1090 | the inner ring's pick; `Hour12RingNonNegative`, `Hour12RingOfTick` and `Hour12RingJustBeforeTop` state the nearest tick, the tick's own hour, and the unremapped 0 just before the top |
| DialGeometry.Hour24Ring | app/src/timepicker/index.ts:1130-1139 | the outer ring's pick; `Hour24RingOfTick`, `Hour24RingMidnight`, `Hour24RingJustBeforeTop` and `Hour24RingLastSector` state its labels on ticks and at the edges of the top |
| DialGeometry.MinuteRingNearest | app/src/timepicker/index.ts:1007-1013 | for any angle above -360 the minute is in 0..59 and is the tick nearest the angle (ties clockwise); the stored angle is a non-negative multiple of 6 congruent to 6*minute, at most 360 inside one turn |
| DialGeometry.MinuteRingIdempotent | app/src/timepicker/index.ts:1007-1013 | snapping the stored minute angle again yields the same minute and angle |
| DialGeometry.MinuteRingOfTick | app/src/timepicker/index.ts:1007-1013 | dragging onto minute tick m selects m at 6*m, the angle the minute label setter gives m |
| DialGeometry.Hour12RingNonNegative | app/src/timepicker/index.ts:1087-1090 | a non-negative angle gives an hour in 1..12, the tick nearest the angle, and the hand keeps the angle |
| DialGeometry.Hour12RingOfTick | app/src/timepicker/index.ts:1084-1090 | an hour tick in (-360, 360) selects the hour the tick stands for, 1..12 (never 12 when negative), with a hand angle in [0, 360) equal to that hour's label angle |
| DialGeometry.Hour24RingOfTick | app/src/timepicker/index.ts:1130-1139 | an outer-ring tick in (-360, 360) selects hour 0 or 13..23, shown as its two-digit label, with the hand angle of that hour |
| DialGeometry.Hour24RingMidnight | app/src/timepicker/index.ts:1134-1138 | from the top up to 15 degrees clockwise the outer ring reads "00" |
| DialGeometry.Hour24RingJustBeforeTop | app/src/timepicker/index.ts:1130-1132 | on [-15, 0) the negative branch of the outer ring reads "0", with the hand at 360 + deg |
| DialGeometry.Hour24RingLastSector | app/src/timepicker/index.ts:1133-1139 | on [345, 360) the outer ring rounds up and reads "24", with the hand at deg |
| DialGeometry.Hour12RingJustBeforeTop | app/src/timepicker/index.ts:1084-1086 | on [-15, 0) the negative branch of the 12-hour ring selects hour 0 (label "00"), with the hand at 360 + deg |
| DisabledTime.MinuteRejected | app/src/timepicker/index.ts:1015-1039 | the minute gate; `MinuteGateCases` states its plain and interval cases and that nothing is refused without a description |
| DisabledTime.Hour12Rejected | app/src/timepicker/index.ts:1092-1105 | the inner ring's gate; `MeridiemGate` states that with an `endType` nothing is refused unless both types equal the active AM/PM text |
| DisabledTime.Hour24Rejected | app/src/timepicker/index.ts:1141-1147 | the outer ring's gate: the shown label is looked up in the hour list whatever the meridiem; `OuterDragOutcome` states a refusal leaves text and hand |
| Interaction.FlagAfter | app/src/timepicker/index.ts:969-993 | the drag flag after a non-release event; `DragFlagTransitions` states it is set exactly on a press or touch move over a non-disabled dial part and kept by mouse moves |
| Interaction.HandForHour | app/src/timepicker/index.ts:784-796 | the hand after turning it to an hour label; `HourLabelHand` states it is (h mod 12)*30 for labels 0..23, the tick that selects that hour |
| Interaction.HandForMinutes | app/src/timepicker/index.ts:798-804 | the hand after turning it to a minute label; `SwitchedHandAgrees` states it lands on the minute's tick |
| Interaction.SelectMinutes | app/src/timepicker/index.ts:897-925 | the minute label's click on the dial; `SwitchedHandAgrees` and `SelectMinutesKeepsWellFormed` state minute mode, the hand on the shown minute, and labels kept |
| Interaction.MinuteDrag | app/src/timepicker/index.ts:1005-1044 | the minute ring's step; `MinuteDragOutcome` states refusal keeps the dial, acceptance shows, turns to and stores the pick |
| Interaction.InnerDrag | app/src/timepicker/index.ts:1074-1113 | the inner ring's step; `InnerDragOutcome` states the stored angle is always overwritten and refusal keeps text and hand |
| Interaction.OuterDrag | app/src/timepicker/index.ts:1115-1153 | the outer ring's step; `OuterDragOutcome` states the same for the outer ring's label |
| Interaction.HourDrag | app/src/timepicker/index.ts:1059-1153 | both hour rings in source order; `BothRingsInOrder` states the outer ring writes last, `HourDragKeepsFlag` that the minute side and flag stay |
| Interaction.MoveHand | app/src/timepicker/index.ts:954-1163 | one event of the drag handler; `ReleaseStopsDrag`, `DragFlagTransitions`, `IdleChangesNothing` and the outcome lemmas state each branch, `MoveHandKeepsWellFormed` the invariant |
| Interaction.ReleaseStopsDrag | app/src/timepicker/index.ts:954-966 | a release clears the drag flag and keeps texts and stored angles; with the option on and a tick or wrapper target it switches to minute mode exactly once, otherwise nothing else changes |
| Interaction.DragFlagTransitions | app/src/timepicker/index.ts:969-993 | an unpositioned event changes nothing; a press or touch move sets the flag exactly for a non-disabled dial part; mouse move never changes it |
| Interaction.IdleChangesNothing | app/src/timepicker/index.ts:995 | when the flag ends up false, nothing but the flag changes |
| Interaction.MinuteDragOutcome | app/src/timepicker/index.ts:1015-1044 | a refused minute leaves text, hand and stored minute angle unchanged; an accepted one shows the padded minute and moves and stores the snapped angle; the hour side is untouched |
| Interaction.MinuteGateCases | app/src/timepicker/index.ts:1015-1039 | without an interval a minute is refused iff its padded text is listed; with one, never while the shown hour is neither boundary hour; never without a description |
| Interaction.InnerDragOutcome | app/src/timepicker/index.ts:1074-1112 | the stored hour angle is always overwritten; a refused hour leaves text and hand; an accepted one shows the padded hour at the ring's angle |
| Interaction.MeridiemGate | app/src/timepicker/index.ts:1094-1102 | with an `endType`, no 12-hour ring hour is refused unless both types equal the active AM/PM text |
| Interaction.OuterDragOutcome | app/src/timepicker/index.ts:1120-1150 | on the outer ring the stored angle is overwritten; a refused hour leaves text and hand; an accepted one shows the outer ring's text |
| Interaction.BothRingsInOrder | app/src/timepicker/index.ts:1068-1150 | on the outer wrapper both hour branches run and, when neither refuses, the outer ring's hour and angle win |
| Interaction.MoveHandKeepsWellFormed | app/src/timepicker/index.ts:954-1150 | with tick-aligned angles every event keeps both labels two-digit time fields (minute < 60, hour < 24) and the hand in [0, 360] |
| Interaction.HourLabelHand | app/src/timepicker/index.ts:784-796 | the hand set from an hour label 0..23 is (h mod 12)*30, and dragging onto that tick selects the same hour (inner ring for 1..12, outer ring's label for 0 and 13..23) at the same angle |
| Interaction.SwitchedHandAgrees | app/src/timepicker/index.ts:957-964 | after the automatic switch the dial is in minute mode with the hand on the shown minute's tick |
| AcceptGate.TypeSuffix | app/src/timepicker/index.ts:637-639 | the suffix after the time: empty in 24-hour mode, else the active button's type or "undefined"; `Commit24h` and `Commit12h` state the text it leads to |
| AcceptGate.InputText | app/src/timepicker/index.ts:637-639 | the committed text; `Commit24h`, `Commit12h` and `CommitStartsWithTime` state it is `HH:MM`, `HH:MM TYPE`, and always begins with `HH:MM` |
| AcceptGate.Accept | app/src/timepicker/index.ts:620-639 | commit iff no check is `false`; a committed value is the trimmed `HH:MM TYPE`; on rejection minutes are marked iff a minute check is falsy, the hour iff an hour check is, and at least one is marked |
| AcceptGate.Commit24h | app/src/timepicker/index.ts:637-639 | in 24-hour mode the committed text is exactly `HH:MM` |
| AcceptGate.Commit12h | app/src/timepicker/index.ts:637-639 | in 12-hour mode the committed text is `HH:MM TYPE` with the active button's type |
| AcceptGate.CommitStartsWithTime | app/src/timepicker/index.ts:637-639 | every committed text begins with the shown hour, a colon and the shown minute |
| Timepicker.MobileSettings | app/src/timepicker/index.ts:323-336 | after the option check the picker is editable iff mobile or not preventing default; mobile view implies editable; mobile implies mobile view; preventing default without mobile leaves neither; a non-mobile picker that does not prevent default keeps its view |
| Timepicker.MobileSettingsIdempotent | app/src/timepicker/index.ts:323-336 | running the option check twice is the same as once |
| Timepicker.TimepickerUI.constructor | app/src/timepicker/index.ts:48-84 | angles seeded as `Number(hour)*30` and `Number(minutes)*6`, no drag, no disabled time, option check applied (mobile view iff mobile) |
| Timepicker.TimepickerUI.CheckMobileOption | app/src/timepicker/index.ts:323-336 | sets editable and mobile view per `MobileSettings` and changes no other option |
| Timepicker.TimepickerUI.LoadDisabledTime | app/src/timepicker/index.ts:338-340 | stores the disabled-time description the helper built |
| Timepicker.TimepickerUI.OpenDial | app/src/timepicker/index.ts:466-562 | shows the input's hour and minute on a fresh hour ring with neither label marked invalid, makes the given AM/PM button active, and turns the hand to the hour outside mobile view |
| Timepicker.TimepickerUI.SetTransformToCircleWithSwitchesHour | app/src/timepicker/index.ts:784-796 | the hand takes the hour label's angle, or stays for an angle above 360 or a non-number (whose `rotateZ(NaNdeg)` is invalid CSS and ignored) |
| Timepicker.TimepickerUI.SetTransformToCircleWithSwitchesMinutes | app/src/timepicker/index.ts:798-804 | the hand takes the minute label's angle, or stays for an angle above 360 or a non-number (an ignored `rotateZ(NaNdeg)`) |
| Timepicker.TimepickerUI.SelectMinuteMode | app/src/timepicker/index.ts:897-917 | the minute label's click shows the minute ring and turns the hand to the shown minute |
| Timepicker.TimepickerUI.HandleEventToMoveHand | app/src/timepicker/index.ts:929-1163 | the new dial state is `MoveHand` of the old one; options, disabled time, markers and input are untouched |
| Timepicker.TimepickerUI.DragMinutes | app/src/timepicker/index.ts:1005-1044 | the minute ring's step changes the dial exactly as `MinuteDrag`: a missing or refused minute changes nothing |
| Timepicker.TimepickerUI.DragHours | app/src/timepicker/index.ts:1059-1153 | the hour rings' step changes the dial exactly as `HourDrag`: inner ring first, outer ring only if the inner one did not return early |
| Timepicker.TimepickerUI.DragInnerRing | app/src/timepicker/index.ts:1074-1113 | the 12-hour ring's step changes the dial as `InnerDrag` and reports whether the handler goes on |
| Timepicker.TimepickerUI.DragOuterRing | app/src/timepicker/index.ts:1115-1153 | the outer ring's step changes the dial exactly as `OuterDrag` |
| Timepicker.TimepickerUI.HandleOkButton | app/src/timepicker/index.ts:597-639 | the input becomes the committed text and markers stay, or the input stays and the failing fields' markers are set |

## Left out

- Pointer geometry in floating point (`Math.atan2`, `Math.PI`, `Math.trunc` of the angle) and the increment helper `getIncrementTimes`: the model starts from the snapped integer angle they produce.
- The helpers `getClickTouchPosition`, `getBrowser`, `getInputValue`, `handleValueAndCheck`, `checkDisabledHoursAndMinutes` and `createDisabledTime`: their bodies are not part of this model, so their results are inputs (the `positioned` flag, the seed texts, the four check values, the disabled-time record).
- Timepicker.TimepickerUI.constructor: takes the input's hour and minute as present. When the value helper returns `undefined`, which the open path tests for, the source's constructor throws a TypeError reading `.hour`. The model does not represent that failed construction, because a Dafny constructor cannot fail.
- Timepicker.TimepickerUI.OpenDial: takes the input's value as present and well formed. Two failures are not represented. When the value helper returns `undefined`, `setErrorHandler` throws a TypeError destructuring it before any label is set, and in 24-hour mode so does `_setOnStartCSSClassesIfClockType24h`. A value that carries `error` makes `setErrorHandler` throw "Invalid Time Format" first. The "12"/"00" branch of `_getInputValueOnOpenAndSet` is therefore unreachable and is not modelled.
- The start-up validation of the disabled-time option (`_checkDisabledValuesOnStart`), which throws through a helper not part of this model.
- `event.preventDefault()`: a side effect on the event object, not on the picker.
- DOM class toggling and styling: the "active" classes, the 24-hour hand styling (`setCircleClockClasses24h`), background colours, the `ClockFace` tick rendering, and `_toggleClassActiveToValueTips`.
- The `update`, `accept`, `show` and `selectminutemode` notifications (`createNewEvent`) and `console.log`.
- The `close()` that follows a commit, and the rest of the open/close/destroy lifecycle, timers, scrollbar padding and listener registration. All of these are timer-sequenced DOM work.
- The hour label's click handler, the AM/PM handlers and the contenteditable toggling of `_handlerClickHourMinutes`.
- The `update` method's option merge, which then reruns `checkMobileOption` (modelled).
- JsValues.JsNumber: models `Number(text)` only for the empty string (0) and decimal digit strings. Signs, surrounding white space, fractions, exponents and hexadecimal are read as NaN. The dial's labels are digit strings either way.
- JsValues.IsJsWhitespace: lists the ECMAScript white-space and line-terminator code points. Code points above U+FFFF are not characters of this model's strings.
- DisabledTime.Includes: models `includes` as membership in a list of strings. If the helper handed over a string instead of an array, JavaScript would search for a substring.
- Interaction.MoveHandKeepsWellFormed: assumes the increment helper hands over hour angles on a 30-degree tick within one turn. The helper's body is not part of this model.
- The undefined-value error path of `this._disabledTime?.value.isInterval`: when the description exists but has no `value`, JavaScript throws. The model takes the description to be either absent or complete.
