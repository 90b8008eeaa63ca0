/** The accept gate of the OK button: four validity checks computed by helpers
    outside this model decide whether the shown time is written to the host
    input or the offending fields are marked invalid. The gate tests each check
    with `=== false` but marks fields by plain falsiness, so a check's result is
    one of three JavaScript values here. */
module AcceptGate {
  import opened JsValues

  /** A check's result: the boolean `false`, another falsy value such as
      `undefined`, or a truthy value. */
  datatype CheckValue = IsFalse | OtherFalsy | Truthy

  predicate Falsy(c: CheckValue) {
    !c.Truthy?
  }

  datatype Checks = Checks(
    validHours: CheckValue,
    validMinutes: CheckValue,
    validHoursDisabled: CheckValue,
    validMinutesDisabled: CheckValue)

  datatype ClockType = Clock12h | Clock24h

  /** What pressing OK does: write `value` to the input, or leave the input and
      mark the hour and/or the minute field invalid. */
  datatype AcceptOutcome = Commit(value: string) | Reject(markHour: bool, markMinutes: bool)

  /** No check returned the boolean `false`. */
  predicate AllPass(c: Checks) {
    !c.validHours.IsFalse? && !c.validMinutes.IsFalse?
    && !c.validHoursDisabled.IsFalse? && !c.validMinutesDisabled.IsFalse?
  }

  /** The suffix after the time: nothing in 24-hour mode, otherwise the active
      AM/PM button's `data-type`, which a template string renders as
      "undefined" when there is no active button. */
  function TypeSuffix(clockType: ClockType, typeData: Option<string>): string {
    if clockType == Clock24h then ""
    else match typeData case None => "undefined" case Some(t) => t
  }

  /** The text written to the input: `HH:MM TYPE` with trailing white space trimmed. */
  function InputText(hourText: string, minutesText: string, clockType: ClockType, typeData: Option<string>): string {
    TrimEnd(hourText + ":" + minutesText + " " + TypeSuffix(clockType, typeData))
  }

  /** The gate: it commits exactly when no check is `false`; otherwise it
      marks the minute field when a minute check is falsy and the hour field
      when an hour check is falsy, and at least one of them is always marked. */
  function Accept(hourText: string, minutesText: string, clockType: ClockType,
                  typeData: Option<string>, c: Checks): (r: AcceptOutcome)
    ensures r.Commit? <==> AllPass(c)
    ensures r.Commit? ==> r.value == InputText(hourText, minutesText, clockType, typeData)
    ensures r.Reject? ==>
      && (r.markMinutes <==> Falsy(c.validMinutes) || Falsy(c.validMinutesDisabled))
      && (r.markHour <==> Falsy(c.validHours) || Falsy(c.validHoursDisabled))
      && (r.markHour || r.markMinutes)
  {
    if !AllPass(c) then
      Reject(Falsy(c.validHours) || Falsy(c.validHoursDisabled),
             Falsy(c.validMinutes) || Falsy(c.validMinutesDisabled))
    else
      Commit(InputText(hourText, minutesText, clockType, typeData))
  }

  lemma TrimEndKeeps(s: string)
    requires |s| > 0 && !IsJsWhitespace(s[|s| - 1])
    ensures TrimEnd(s) == s
  {
  }

  lemma TrimEndDropsSpace(s: string)
    requires |s| > 0 && !IsJsWhitespace(s[|s| - 1])
    ensures TrimEnd(s + " ") == s
  {
    var t := s + " ";
    assert t[..|t| - 1] == s;
  }

  /** In 24-hour mode a committed value is exactly `HH:MM`: the separator space
      left by the empty suffix is trimmed away. */
  lemma Commit24h(hourText: string, minutesText: string, typeData: Option<string>)
    requires |minutesText| > 0 && !IsJsWhitespace(minutesText[|minutesText| - 1])
    ensures InputText(hourText, minutesText, Clock24h, typeData) == hourText + ":" + minutesText
  {
    var s := hourText + ":" + minutesText;
    assert s[|s| - 1] == minutesText[|minutesText| - 1];
    assert s + " " + "" == s + " ";
    TrimEndDropsSpace(s);
  }

  /** In 12-hour mode a committed value is `HH:MM TYPE`, the type being the
      active button's `data-type`. */
  lemma Commit12h(hourText: string, minutesText: string, t: string)
    requires |t| > 0 && !IsJsWhitespace(t[|t| - 1])
    ensures InputText(hourText, minutesText, Clock12h, Some(t)) == hourText + ":" + minutesText + " " + t
  {
    var s := hourText + ":" + minutesText + " " + t;
    assert s[|s| - 1] == t[|t| - 1];
    TrimEndKeeps(s);
  }

  /** Whatever the mode and suffix, a committed value begins with the shown
      hour, a colon and the shown minute, when the minute text does not end
      in white space. */
  lemma CommitStartsWithTime(hourText: string, minutesText: string, clockType: ClockType, typeData: Option<string>)
    requires |minutesText| > 0 && !IsJsWhitespace(minutesText[|minutesText| - 1])
    ensures hourText + ":" + minutesText <= InputText(hourText, minutesText, clockType, typeData)
  {
    var p := hourText + ":" + minutesText;
    var s := p + " " + TypeSuffix(clockType, typeData);
    var r := TrimEnd(s);
    assert s[..|p|] == p;
    assert s[|p| - 1] == minutesText[|minutesText| - 1];
    assert |r| >= |p|;
    assert r == s[..|r|];
    assert r[..|p|] == p;
  }
}
