/** The drag handler as a function on the dial's state: what one pointer or
    touch event does to the drag flag, the mode, the shown hour and minute,
    the hand, and the stored hand angles. The picker class proves its
    imperative handler against `MoveHand`; the lemmas below state what the
    handler promises. */
module Interaction {
  import opened JsValues
  import opened DialGeometry
  import opened DisabledTime

  /** Which ring the dial shows: hour ticks or minute ticks. */
  datatype Mode = HourMode | MinuteMode

  datatype EventKind =
    | MouseDown | MouseMove | MouseUp | TouchStart | TouchMove | TouchEnd
    | OtherEvent(name: string)

  /** One event as the handler sees it: its type, the class names of its target
      and of the element under the first touch point (if there are touches and
      an element there), whether a pointer position could be read, and the
      snapped angle for the minute and the hour increments (None for
      `undefined`; 0 when `Math.atan2` gives zero and the increment helper is
      not called). */
  datatype PointerEvent = PointerEvent(
    kind: EventKind,
    target: set<string>,
    touchTarget: Option<set<string>>,
    positioned: bool,
    minuteDeg: Option<int>,
    hourDeg: Option<int>)

  /** The part of the picker's state the handler changes. `minuteModeClicks`
      counts the switches to minute mode made on release. */
  datatype Dial = Dial(
    mode: Mode,
    hourText: string,
    minutesText: string,
    hand: int,
    degreesHours: Option<int>,
    degreesMinutes: Option<int>,
    dragging: bool,
    minuteModeClicks: nat)

  /** The part of the picker's state the handler only reads. */
  datatype Context = Context(
    switchToMinutes: bool,
    disabled: Option<DisabledValue>,
    activeTypeText: Option<string>)

  const ClockFace := "timepicker-ui-clock-face"
  const CircleHand := "timepicker-ui-circle-hand"
  const HourTime12 := "timepicker-ui-hour-time-12"
  const MinutesTime := "timepicker-ui-minutes-time"
  const ClockHand := "timepicker-ui-clock-hand"
  const ValueTips := "timepicker-ui-value-tips"
  const ValueTips24h := "timepicker-ui-value-tips-24h"
  const TipsWrapper := "timepicker-ui-tips-wrapper"
  const TipsWrapper24h := "timepicker-ui-tips-wrapper-24h"
  const TipsDisabled := "timepicker-ui-tips-disabled"

  /** The nine classes of the dial's parts on which a press starts a drag. */
  const DialClasses: set<string> :=
    {ClockFace, CircleHand, HourTime12, MinutesTime, ClockHand,
     ValueTips, ValueTips24h, TipsWrapper, TipsWrapper24h}

  predicate IsRelease(k: EventKind) {
    k.MouseUp? || k.TouchEnd?
  }

  /** The event types that decide the drag flag afresh. */
  predicate IsPress(k: EventKind) {
    k.MouseDown? || k.TouchStart? || k.TouchMove?
  }

  /** A press on one of the dial's parts that is not a disabled tick. */
  predicate StartsDrag(target: set<string>) {
    target * DialClasses != {} && TipsDisabled !in target
  }

  /** A release on a value tick or the tick wrapper may switch to minute mode. */
  predicate SwitchTarget(target: set<string>) {
    ValueTips in target || ValueTips24h in target || TipsWrapper in target
  }

  /** The element the hour rings are chosen by: the one under the first touch
      point when there is one, the event's target otherwise. */
  function EffectiveTarget(e: PointerEvent): set<string> {
    match e.touchTarget
    case Some(t) => t
    case None => e.target
  }

  predicate InnerRingTarget(t: set<string>) {
    (ValueTips24h !in t || ValueTips in t || TipsWrapper in t) && TipsDisabled !in t
  }

  predicate OuterRingTarget(t: set<string>) {
    (ValueTips24h in t || TipsWrapper24h in t) && TipsDisabled !in t
  }

  /** The hand after it is set from an hour label: refused (unchanged) when
      the label is not a number or its angle is above 360. */
  function HandForHour(text: string, hand: int): int {
    match JsNumber(text)
    case None => hand
    case Some(v) => match HourHand(v) case None => hand case Some(d) => d
  }

  /** The hand after it is set from a minute label. */
  function HandForMinutes(text: string, hand: int): int {
    match JsNumber(text)
    case None => hand
    case Some(v) => match MinuteHand(v) case None => hand case Some(d) => d
  }

  /** A click on the minute label: the dial shows the minute ring and the hand
      moves to the shown minute. */
  function SelectMinutes(s: Dial): Dial {
    s.(mode := MinuteMode,
       hand := HandForMinutes(s.minutesText, s.hand),
       minuteModeClicks := s.minuteModeClicks + 1)
  }

  /** The drag flag after the event's type and target are looked at. */
  function FlagAfter(e: PointerEvent, dragging: bool): bool {
    if IsRelease(e.kind) then false
    else if IsPress(e.kind) then StartsDrag(e.target)
    else dragging
  }

  /** The minute ring's step: refused minutes leave everything as it was. */
  function MinuteDrag(s: Dial, ctx: Context, deg: Option<int>): Dial {
    match deg
    case None => s
    case Some(d) =>
      var p := MinuteRing(d);
      if MinuteRejected(ctx.disabled, p.minute, s.hourText) then s
      else s.(minutesText := Pad2(p.minute), hand := p.degrees, degreesMinutes := Some(p.degrees))
  }

  /** The 12-hour ring's step, with whether the handler goes on afterwards.
      The stored hour angle is overwritten before the hour is gated. */
  function InnerDrag(s: Dial, ctx: Context, deg: Option<int>): (Dial, bool) {
    match deg
    case None => (s.(degreesHours := None), false)
    case Some(d) =>
      var p := Hour12Ring(d);
      var s1 := s.(degreesHours := Some(d));
      if Hour12Rejected(ctx.disabled, p.hour, ctx.activeTypeText) then (s1, false)
      else (s1.(hand := p.degrees, hourText := Pad2(p.hour)), true)
  }

  /** The 24-hour outer ring's step. */
  function OuterDrag(s: Dial, ctx: Context, deg: Option<int>): Dial {
    match deg
    case None => s.(degreesHours := None)
    case Some(d) =>
      var p := Hour24Ring(d);
      var s1 := s.(degreesHours := Some(d));
      if Hour24Rejected(ctx.disabled, p.text) then s1
      else s1.(hand := p.degrees, hourText := p.text)
  }

  /** Both hour rings, in order: the outer one runs after the inner one unless
      the inner one stopped the handler. */
  function HourDrag(s: Dial, ctx: Context, e: PointerEvent): Dial {
    var t := EffectiveTarget(e);
    var (s1, go) := if InnerRingTarget(t) then InnerDrag(s, ctx, e.hourDeg) else (s, true);
    if go && OuterRingTarget(t) then OuterDrag(s1, ctx, e.hourDeg) else s1
  }

  /** One event of the drag handler. */
  function MoveHand(s: Dial, ctx: Context, e: PointerEvent): Dial {
    if !e.positioned then s
    else if IsRelease(e.kind) then
      var s1 := s.(dragging := false);
      if ctx.switchToMinutes && SwitchTarget(e.target) then SelectMinutes(s1) else s1
    else
      var s1 := s.(dragging := FlagAfter(e, s.dragging));
      if !s1.dragging then s1
      else if s1.mode == MinuteMode then MinuteDrag(s1, ctx, e.minuteDeg)
      else HourDrag(s1, ctx, e)
  }

  /** A release stops the drag and changes nothing on the dial, except that
      with the switch option on and a tick or the tick wrapper under the
      pointer it switches to minute mode exactly once. */
  lemma ReleaseStopsDrag(s: Dial, ctx: Context, e: PointerEvent)
    requires e.positioned && IsRelease(e.kind)
    ensures var s' := MoveHand(s, ctx, e);
      && !s'.dragging
      && s'.hourText == s.hourText && s'.minutesText == s.minutesText
      && s'.degreesHours == s.degreesHours && s'.degreesMinutes == s.degreesMinutes
      && (if ctx.switchToMinutes && SwitchTarget(e.target)
          then s'.mode == MinuteMode && s'.minuteModeClicks == s.minuteModeClicks + 1
          else s' == s.(dragging := false))
  {
  }

  /** The drag flag after any event: a release clears it, a press or a touch
      move sets it exactly when the target is a dial part and not a disabled
      tick, and every other event (mouse move included) leaves it; an event
      without a pointer position changes nothing at all. */
  lemma DragFlagTransitions(s: Dial, ctx: Context, e: PointerEvent)
    ensures !e.positioned ==> MoveHand(s, ctx, e) == s
    ensures e.positioned ==> MoveHand(s, ctx, e).dragging == FlagAfter(e, s.dragging)
    ensures e.kind.MouseMove? ==> MoveHand(s, ctx, e).dragging == s.dragging
  {
    if e.positioned && !IsRelease(e.kind) {
      var s1 := s.(dragging := FlagAfter(e, s.dragging));
      if s1.dragging {
        if s1.mode == MinuteMode {
          assert MinuteDrag(s1, ctx, e.minuteDeg).dragging == s1.dragging;
        } else {
          HourDragKeepsFlag(s1, ctx, e);
        }
      }
    }
  }

  lemma HourDragKeepsFlag(s: Dial, ctx: Context, e: PointerEvent)
    ensures HourDrag(s, ctx, e).dragging == s.dragging
    ensures HourDrag(s, ctx, e).mode == s.mode
    ensures HourDrag(s, ctx, e).minutesText == s.minutesText
    ensures HourDrag(s, ctx, e).degreesMinutes == s.degreesMinutes
    ensures HourDrag(s, ctx, e).minuteModeClicks == s.minuteModeClicks
  {
  }

  /** Without a drag in progress after the flag is updated, the event changes
      nothing but the flag. */
  lemma IdleChangesNothing(s: Dial, ctx: Context, e: PointerEvent)
    requires e.positioned && !IsRelease(e.kind) && !FlagAfter(e, s.dragging)
    ensures MoveHand(s, ctx, e) == s.(dragging := false)
  {
  }

  /** Minute drag: a refused minute leaves the minute text, the hand and the
      stored minute angle as they were; an accepted one shows the two-digit
      minute, moves the hand to the stored angle, and stores it. The hour side
      is untouched either way. */
  lemma MinuteDragOutcome(s: Dial, ctx: Context, e: PointerEvent, d: int)
    requires e.positioned && !IsRelease(e.kind) && FlagAfter(e, s.dragging)
    requires s.mode == MinuteMode && e.minuteDeg == Some(d)
    ensures var s' := MoveHand(s, ctx, e); var p := MinuteRing(d);
      && s'.hourText == s.hourText && s'.degreesHours == s.degreesHours && s'.dragging
      && (if MinuteRejected(ctx.disabled, p.minute, s.hourText)
          then s' == s.(dragging := true)
          else s'.minutesText == Pad2(p.minute) && s'.hand == p.degrees
               && s'.degreesMinutes == Some(p.degrees))
  {
  }

  /** With a plain (non-interval) description, a minute is refused exactly
      when its two-digit text is listed; with an interval, a minute is never
      refused while the shown hour is neither boundary hour. */
  lemma MinuteGateCases(d: DisabledValue, minute: int, hourText: string)
    ensures !d.isInterval ==>
      (MinuteRejected(Some(d), minute, hourText) <==> Includes(d.minutes, Pad2(minute)))
    ensures d.isInterval && Some(hourText) != d.removedEndHour && Some(hourText) != d.removedStartedHour
      ==> !MinuteRejected(Some(d), minute, hourText)
    ensures !MinuteRejected(None, minute, hourText)
  {
  }

  /** Inner ring drag: the stored hour angle is always overwritten with the
      snapped angle; a refused hour leaves the hour text and the hand as they
      were (and stops the handler); an accepted one shows the two-digit hour. */
  lemma InnerDragOutcome(s: Dial, ctx: Context, e: PointerEvent, d: int)
    requires e.positioned && !IsRelease(e.kind) && FlagAfter(e, s.dragging)
    requires s.mode == HourMode && e.hourDeg == Some(d)
    requires InnerRingTarget(EffectiveTarget(e))
    ensures var s' := MoveHand(s, ctx, e); var p := Hour12Ring(d);
      && s'.degreesHours == Some(d)
      && s'.minutesText == s.minutesText && s'.degreesMinutes == s.degreesMinutes
      && (Hour12Rejected(ctx.disabled, p.hour, ctx.activeTypeText) ==>
            s' == s.(dragging := true, degreesHours := Some(d)))
      && (!Hour12Rejected(ctx.disabled, p.hour, ctx.activeTypeText)
          && !OuterRingTarget(EffectiveTarget(e)) ==>
            s'.hourText == Pad2(p.hour) && s'.hand == p.degrees)
  {
  }

  /** Meridiem gating: when the description has an `endType` and the active
      AM/PM text is not both its `startType` and its `endType`, the 12-hour
      ring refuses no hour. */
  lemma MeridiemGate(v: DisabledValue, hour: int, active: Option<string>)
    requires v.endType.Some?
    requires v.endType != active || v.startType != active
    ensures !Hour12Rejected(Some(v), hour, active)
  {
  }

  /** Outer ring drag on a target that is only on the outer ring: the stored
      angle is overwritten; a refused hour leaves its text and the hand; an
      accepted one shows the outer ring's hour text. */
  lemma OuterDragOutcome(s: Dial, ctx: Context, e: PointerEvent, d: int)
    requires e.positioned && !IsRelease(e.kind) && FlagAfter(e, s.dragging)
    requires s.mode == HourMode && e.hourDeg == Some(d)
    requires OuterRingTarget(EffectiveTarget(e)) && !InnerRingTarget(EffectiveTarget(e))
    ensures var s' := MoveHand(s, ctx, e); var p := Hour24Ring(d);
      && s'.degreesHours == Some(d)
      && s'.minutesText == s.minutesText
      && (if Hour24Rejected(ctx.disabled, p.text)
          then s' == s.(dragging := true, degreesHours := Some(d))
          else s'.hourText == p.text && s'.hand == p.degrees)
  {
  }

  /** Both hour branches run in one event when the target is the outer wrapper
      but not an outer tick: if neither ring refuses the hour, the outer ring
      has the last word. */
  lemma BothRingsInOrder(s: Dial, ctx: Context, e: PointerEvent, d: int)
    requires e.positioned && !IsRelease(e.kind) && FlagAfter(e, s.dragging)
    requires s.mode == HourMode && e.hourDeg == Some(d)
    requires var t := EffectiveTarget(e);
      TipsWrapper24h in t && ValueTips24h !in t && TipsDisabled !in t
    requires !Hour12Rejected(ctx.disabled, Hour12Ring(d).hour, ctx.activeTypeText)
    requires !Hour24Rejected(ctx.disabled, Hour24Ring(d).text)
    ensures MoveHand(s, ctx, e).hourText == Hour24Ring(d).text
    ensures MoveHand(s, ctx, e).hand == Hour24Ring(d).degrees
  {
  }

  /** Labels the dial shows: two decimal digits, below 60 for a minute and
      below 24 for an hour. */
  predicate MinuteLabel(t: string) {
    |t| == 2 && AllDigits(t) && DigitsValue(t) < 60
  }

  predicate HourLabel(t: string) {
    |t| == 2 && AllDigits(t) && DigitsValue(t) < 24
  }

  /** The dial's well-formedness: both labels are two-digit time fields and
      the hand lies in [0, 360]. */
  predicate WellFormed(s: Dial) {
    MinuteLabel(s.minutesText) && HourLabel(s.hourText) && 0 <= s.hand <= 360
  }

  /** Events whose snapped angles are inside one turn, the hour one on an
      hour tick (what the increment helper is expected to hand over). */
  predicate TickAligned(e: PointerEvent) {
    (e.minuteDeg.Some? ==> -360 < e.minuteDeg.value < 360)
    && (e.hourDeg.Some? ==> e.hourDeg.value % 30 == 0 && -360 < e.hourDeg.value < 360)
  }

  lemma Pad2Label(n: nat)
    requires n < 100
    ensures |Pad2(n)| == 2 && AllDigits(Pad2(n)) && DigitsValue(Pad2(n)) == n
  {
    Pad2RoundTrip(n);
  }

  /** Every event with tick-aligned angles keeps the dial well-formed: the
      minute and hour texts stay two-digit labels of a minute and an hour of
      the day, and the hand stays within one turn. */
  lemma MoveHandKeepsWellFormed(s: Dial, ctx: Context, e: PointerEvent)
    requires WellFormed(s) && TickAligned(e)
    ensures WellFormed(MoveHand(s, ctx, e))
  {
    if !e.positioned {
    } else if IsRelease(e.kind) {
      var s1 := s.(dragging := false);
      SelectMinutesKeepsWellFormed(s1);
    } else {
      var s1 := s.(dragging := FlagAfter(e, s.dragging));
      if !s1.dragging {
      } else if s1.mode == MinuteMode {
        if e.minuteDeg.Some? {
          var p := MinuteRing(e.minuteDeg.value);
          MinuteRingNearest(e.minuteDeg.value);
          Pad2Label(p.minute);
        }
      } else {
        HourDragKeepsWellFormed(s1, ctx, e);
      }
    }
  }

  lemma SelectMinutesKeepsWellFormed(s: Dial)
    requires WellFormed(s)
    ensures WellFormed(SelectMinutes(s))
  {
    var v := DigitsValue(s.minutesText);
    assert JsNumber(s.minutesText) == Some(v);
  }

  lemma HourDragKeepsWellFormed(s: Dial, ctx: Context, e: PointerEvent)
    requires WellFormed(s) && TickAligned(e)
    ensures WellFormed(HourDrag(s, ctx, e))
  {
    InnerDragKeepsWellFormed(s, ctx, e.hourDeg);
    var t := EffectiveTarget(e);
    var (s1, go) := if InnerRingTarget(t) then InnerDrag(s, ctx, e.hourDeg) else (s, true);
    OuterDragKeepsWellFormed(s1, ctx, e.hourDeg);
  }

  lemma InnerDragKeepsWellFormed(s: Dial, ctx: Context, deg: Option<int>)
    requires WellFormed(s)
    requires deg.Some? ==> deg.value % 30 == 0 && -360 < deg.value < 360
    ensures WellFormed(InnerDrag(s, ctx, deg).0)
  {
    if deg.Some? {
      Hour12RingOfTick(deg.value);
      Pad2Label(Hour12Ring(deg.value).hour);
    }
  }

  lemma OuterDragKeepsWellFormed(s: Dial, ctx: Context, deg: Option<int>)
    requires WellFormed(s)
    requires deg.Some? ==> deg.value % 30 == 0 && -360 < deg.value < 360
    ensures WellFormed(OuterDrag(s, ctx, deg))
  {
    if deg.Some? {
      Hour24RingOfTick(deg.value);
      Pad2Label(OuterTickHour(deg.value));
    }
  }

  /** Setting the hand from a shown hour label puts it on the tick that, when
      dragged to, selects that same hour at that same angle: hours 1..12 on
      the inner ring, 0 and 13..23 on the outer ring. */
  lemma HourLabelHand(h: nat, hand: int)
    requires h <= 23
    ensures HandForHour(Pad2(h), hand) == (h % 12) * 30
    ensures 1 <= h <= 12 ==> Hour12Ring((h % 12) * 30) == HourPick(h, HandForHour(Pad2(h), hand))
    ensures (h == 0 || h >= 13) ==>
      Hour24Ring((h % 12) * 30) == OuterPick(Pad2(h), HandForHour(Pad2(h), hand))
  {
    Pad2RoundTrip(h);
    InnerTickAfterTop(h % 12);
    OuterTickAfterTop(h % 12);
  }

  /** After the automatic switch on release, the hand points at the shown
      minute's tick, the angle a drag onto that tick stores. */
  lemma SwitchedHandAgrees(s: Dial, ctx: Context, e: PointerEvent, m: nat)
    requires e.positioned && IsRelease(e.kind) && ctx.switchToMinutes && SwitchTarget(e.target)
    requires m < 60 && s.minutesText == Pad2(m)
    ensures MoveHand(s, ctx, e).hand == MinuteRing(6 * m).degrees
    ensures MoveHand(s, ctx, e).mode == MinuteMode
  {
    Pad2RoundTrip(m);
    MinuteRingOfTick(m);
  }
}
