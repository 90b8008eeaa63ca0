/** The picker object: the fields the drag handler, the OK button and the
    option check update in place, and the methods that update them, each
    proved against the functions of the other modules. What the source keeps
    in DOM nodes (the hour and minute labels, the hand's rotation, the invalid
    markers, the host input's value, which ring is shown) is a field here. */
module Timepicker {
  import opened JsValues
  import opened DialGeometry
  import opened DisabledTime
  import opened Interaction
  import opened AcceptGate

  /** The options the core reads. */
  datatype Options = Options(
    clockType: ClockType,
    mobile: bool,
    preventDefault: bool,
    editable: bool,
    switchToMinutesAfterSelectHour: bool)

  /** An AM/PM button: its text and its `data-type`. */
  datatype TypeButton = TypeButton(text: string, dataType: string)

  /** The hour and minute read from the host input. */
  datatype InputValue = InputValue(hour: string, minutes: string)

  /** The (editable, mobile view) pair the option check leaves: a mobile
      picker is editable and in mobile view; otherwise a picker that does not
      prevent default pointer handling is editable and keeps its view; any
      other is neither. */
  function MobileSettings(mobile: bool, preventDefault: bool, isMobileView: bool): (r: (bool, bool))
    ensures r.0 <==> mobile || !preventDefault
    ensures r.1 ==> r.0
    ensures mobile ==> r.1
    ensures !mobile && preventDefault ==> !r.1
    ensures !mobile && !preventDefault ==> r.1 == isMobileView
  {
    if mobile then (true, true)
    else if !preventDefault then (true, isMobileView)
    else (false, false)
  }

  /** Running the option check a second time changes nothing. */
  lemma MobileSettingsIdempotent(mobile: bool, preventDefault: bool, isMobileView: bool)
    ensures var r := MobileSettings(mobile, preventDefault, isMobileView);
      MobileSettings(mobile, preventDefault, r.1) == r
  {
  }

  class TimepickerUI {
    var options: Options
    var isMobileView: bool
    var isTouchMouseMove: bool
    var degreesHours: Option<int>
    var degreesMinutes: Option<int>
    var disabledTime: Option<DisabledValue>
    var mode: Mode
    var hourText: string
    var minutesText: string
    var hand: int
    var activeType: Option<TypeButton>
    var hourInvalid: bool
    var minutesInvalid: bool
    var inputValue: string
    var minuteModeClicks: nat

    /** The state the drag handler changes. */
    ghost function DialState(): Dial
      reads this
    {
      Dial(mode, hourText, minutesText, hand, degreesHours, degreesMinutes,
           isTouchMouseMove, minuteModeClicks)
    }

    /** The state the drag handler reads. */
    ghost function Ctx(): Context
      reads this`options, this`disabledTime, this`activeType
    {
      Context(options.switchToMinutesAfterSelectHour, disabledTime, ActiveTypeText())
    }

    /** `activeTypeMode?.textContent` */
    function ActiveTypeText(): Option<string>
      reads this`activeType
    {
      match activeType case None => None case Some(b) => Some(b.text)
    }

    /** `activeTypeMode?.dataset.type` */
    function ActiveTypeData(): Option<string>
      reads this`activeType
    {
      match activeType case None => None case Some(b) => Some(b.dataType)
    }

    /** Construction: the hand angles are seeded from the input's hour and
        minute (`Number(hour) * 30`, `Number(minutes) * 6`), no drag is in
        progress, no disabled time is loaded yet, and the option check runs.
        The dial itself does not exist until the picker is opened; the labels,
        hand and mode set here are placeholder values of the model, which
        opening overwrites. */
    constructor(opts: Options, seed: InputValue, input: string)
      ensures options == opts.(editable := MobileSettings(opts.mobile, opts.preventDefault, false).0)
      ensures isMobileView == MobileSettings(opts.mobile, opts.preventDefault, false).1
      ensures isMobileView == opts.mobile
      ensures !isTouchMouseMove
      ensures degreesHours == SeedDegrees(seed.hour, 30)
      ensures degreesMinutes == SeedDegrees(seed.minutes, 6)
      ensures disabledTime == None
      ensures inputValue == input
      ensures DialState() == Dial(HourMode, "12", "00", 0, degreesHours, degreesMinutes, false, 0)
      ensures activeType == None && !hourInvalid && !minutesInvalid
    {
      options := opts;
      isTouchMouseMove := false;
      degreesHours := SeedDegrees(seed.hour, 30);
      degreesMinutes := SeedDegrees(seed.minutes, 6);
      isMobileView := false;
      disabledTime := None;
      mode := HourMode;
      hourText := "12";
      minutesText := "00";
      hand := 0;
      activeType := None;
      hourInvalid := false;
      minutesInvalid := false;
      inputValue := input;
      minuteModeClicks := 0;
      new;
      CheckMobileOption();
    }

    /** The option check: see `MobileSettings`; no other option changes. */
    method CheckMobileOption()
      modifies this`isMobileView, this`options
      ensures (options.editable, isMobileView)
        == MobileSettings(old(options.mobile), old(options.preventDefault), old(isMobileView))
      ensures options == old(options).(editable := options.editable)
    {
      if options.mobile {
        isMobileView := true;
        options := options.(editable := true);
      } else if !options.preventDefault {
        options := options.(editable := true);
      } else {
        isMobileView := false;
        options := options.(editable := false);
      }
    }

    /** The disabled-time description is built when the picker is created. */
    method LoadDisabledTime(d: Option<DisabledValue>)
      modifies this`disabledTime
      ensures disabledTime == d
    {
      disabledTime := d;
    }

    /** Opening builds a fresh dial (so neither label is marked invalid), fills
        it from the input's value, shows the hour ring with the given AM/PM
        button active and, outside the mobile view, turns the hand to the
        shown hour. */
    method OpenDial(value: InputValue, active: Option<TypeButton>)
      modifies this`hourText, this`minutesText, this`hand, this`mode, this`activeType,
               this`hourInvalid, this`minutesInvalid
      ensures hourText == value.hour && minutesText == value.minutes
      ensures mode == HourMode && activeType == active
      ensures !hourInvalid && !minutesInvalid
      ensures hand == if isMobileView then old(hand) else HandForHour(hourText, old(hand))
    {
      hourText := value.hour;
      minutesText := value.minutes;
      hourInvalid := false;
      minutesInvalid := false;
      activeType := active;
      mode := HourMode;
      if !isMobileView {
        SetTransformToCircleWithSwitchesHour(hourText);
      }
    }

    /** Turns the hand to a shown hour; an angle still above 360 after
        wrapping leaves the hand as it was. A label that is not a number makes
        the source write the rotation `rotateZ(NaNdeg)`, which is invalid CSS
        and ignored, so the hand stays there too: the early return stands for
        that. */
    method SetTransformToCircleWithSwitchesHour(val: string)
      modifies this`hand
      ensures hand == HandForHour(val, old(hand))
      ensures JsNumber(val).Some? && 0 <= JsNumber(val).value <= 23 ==>
        hand == (JsNumber(val).value % 12) * 30
    {
      var value := JsNumber(val);
      if value.None? {
        return;
      }
      var degrees := if value.value > 12 then value.value * 30 - 360 else value.value * 30;
      if degrees == 360 {
        degrees := 0;
      }
      if degrees > 360 {
        return;
      }
      hand := degrees;
    }

    /** Turns the hand to a shown minute; as for the hour, an angle above 360
        returns early, and a non-number label (an ignored `rotateZ(NaNdeg)` in
        the source) is an early return that leaves the hand. */
    method SetTransformToCircleWithSwitchesMinutes(val: string)
      modifies this`hand
      ensures hand == HandForMinutes(val, old(hand))
    {
      var value := JsNumber(val);
      if value.None? {
        return;
      }
      var degrees := value.value * 6;
      if degrees > 360 {
        return;
      }
      hand := degrees;
    }

    /** The minute label's click handler, as far as the dial goes: the minute
        ring is shown and the hand turned to the shown minute. */
    method SelectMinuteMode()
      modifies this`mode, this`hand, this`minuteModeClicks
      ensures DialState() == SelectMinutes(old(DialState()))
    {
      SetTransformToCircleWithSwitchesMinutes(minutesText);
      mode := MinuteMode;
      minuteModeClicks := minuteModeClicks + 1;
    }

    /** The drag handler: one pointer or touch event. */
    method HandleEventToMoveHand(e: PointerEvent)
      modifies this`isTouchMouseMove, this`mode, this`hand, this`minuteModeClicks,
               this`minutesText, this`hourText, this`degreesHours, this`degreesMinutes
      ensures DialState() == MoveHand(old(DialState()), Ctx(), e)
    {
      if !e.positioned {
        return;
      }
      if e.kind.MouseUp? || e.kind.TouchEnd? {
        isTouchMouseMove := false;
        if options.switchToMinutesAfterSelectHour && SwitchTarget(e.target) {
          SelectMinuteMode();
        }
        return;
      }
      if e.kind.MouseDown? || e.kind.TouchStart? || e.kind.TouchMove? {
        if StartsDrag(e.target) {
          isTouchMouseMove := true;
        } else {
          isTouchMouseMove := false;
        }
      }
      if !isTouchMouseMove {
        return;
      }

      if mode == MinuteMode {
        DragMinutes(e.minuteDeg);
      } else {
        DragHours(e);
      }
    }

    /** The hour rings' part of the drag handler: the inner ring, then the
        outer ring unless the inner one returned early. */
    method DragHours(e: PointerEvent)
      modifies this`hourText, this`hand, this`degreesHours
      ensures DialState() == HourDrag(old(DialState()), Ctx(), e)
    {
      var t := EffectiveTarget(e);
      var go := true;
      if InnerRingTarget(t) {
        go := DragInnerRing(e.hourDeg);
      }
      if go && OuterRingTarget(t) {
        DragOuterRing(e.hourDeg);
      }
    }

    /** The minute ring's part of the drag handler. */
    method DragMinutes(deg: Option<int>)
      modifies this`minutesText, this`hand, this`degreesMinutes
      ensures DialState() == MinuteDrag(old(DialState()), Ctx(), deg)
    {
      if deg.None? {
        return;
      }
      var pick := MinuteRing(deg.value);
      if MinuteRejected(disabledTime, pick.minute, hourText) {
        return;
      }
      minutesText := Pad2(pick.minute);
      hand := pick.degrees;
      degreesMinutes := Some(pick.degrees);
    }

    /** The 12-hour ring's part of the drag handler; `go` is false when the
        handler returns early. */
    method DragInnerRing(deg: Option<int>) returns (go: bool)
      modifies this`hourText, this`hand, this`degreesHours
      ensures (DialState(), go) == InnerDrag(old(DialState()), Ctx(), deg)
    {
      degreesHours := deg;
      if deg.None? {
        return false;
      }
      var pick := Hour12Ring(deg.value);
      if Hour12Rejected(disabledTime, pick.hour, ActiveTypeText()) {
        return false;
      }
      hand := pick.degrees;
      hourText := Pad2(pick.hour);
      return true;
    }

    /** The 24-hour outer ring's part of the drag handler. */
    method DragOuterRing(deg: Option<int>)
      modifies this`hourText, this`hand, this`degreesHours
      ensures DialState() == OuterDrag(old(DialState()), Ctx(), deg)
    {
      degreesHours := deg;
      if deg.None? {
        return;
      }
      var pick := Hour24Ring(deg.value);
      if Hour24Rejected(disabledTime, pick.text) {
        return;
      }
      hand := pick.degrees;
      hourText := pick.text;
    }

    /** The OK button: with the four check results, either the input gets the
        shown time and nothing is marked, or the input is left as it was and
        the failing fields are marked invalid (markers already set stay set). */
    method HandleOkButton(c: Checks)
      modifies this`inputValue, this`hourInvalid, this`minutesInvalid
      ensures var r := Accept(hourText, minutesText, options.clockType, ActiveTypeData(), c);
        match r
        case Commit(v) =>
          inputValue == v && hourInvalid == old(hourInvalid) && minutesInvalid == old(minutesInvalid)
        case Reject(markHour, markMinutes) =>
          && inputValue == old(inputValue)
          && hourInvalid == (old(hourInvalid) || markHour)
          && minutesInvalid == (old(minutesInvalid) || markMinutes)
    {
      if c.validHours.IsFalse? || c.validMinutes.IsFalse?
         || c.validHoursDisabled.IsFalse? || c.validMinutesDisabled.IsFalse? {
        if Falsy(c.validMinutes) || Falsy(c.validMinutesDisabled) {
          minutesInvalid := true;
        }
        if Falsy(c.validHours) || Falsy(c.validHoursDisabled) {
          hourInvalid := true;
        }
        return;
      }
      var suffix := if options.clockType == Clock24h then ""
                    else match ActiveTypeData() case None => "undefined" case Some(t) => t;
      inputValue := TrimEnd(hourText + ":" + minutesText + " " + suffix);
    }
  }
}
