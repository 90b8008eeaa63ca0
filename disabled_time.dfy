/** The disabled-time description the drag handler consults, and the three
    gates it applies to a candidate minute or hour. The description is built
    by a helper outside this model from the `disabledTime` option; here it is
    a record whose every part may be absent, because the handler reaches each
    part through optional chaining (`?.`). */
module DisabledTime {
  import opened JsValues

  datatype DisabledValue = DisabledValue(
    isInterval: bool,
    hours: Option<seq<string>>,
    minutes: Option<seq<string>>,
    rangeArrHour: Option<seq<string>>,
    startMinutes: Option<seq<string>>,
    endMinutes: Option<seq<string>>,
    removedStartedHour: Option<string>,
    removedEndHour: Option<string>,
    startType: Option<string>,
    endType: Option<string>)

  /** `list?.includes(x)`: an absent list includes nothing. */
  predicate Includes(list: Option<seq<string>>, x: string) {
    list.Some? && x in list.value
  }

  /** The hour list the gates look in: `rangeArrHour` for an interval, `hours` otherwise. */
  function HourList(v: DisabledValue): Option<seq<string>> {
    if v.isInterval then v.rangeArrHour else v.hours
  }

  /** Minute gate: without an interval, the padded minute is refused when it is
      listed in `minutes`; with an interval, only when it is listed in
      `endMinutes` and the shown hour is the interval's end hour, or listed in
      `startMinutes` and the shown hour is its start hour. */
  predicate MinuteRejected(d: Option<DisabledValue>, minute: int, hourText: string) {
    var key := Pad2(minute);
    match d
    case None => false
    case Some(v) =>
      if !v.isInterval then Includes(v.minutes, key)
      else
        (Includes(v.endMinutes, key) && Some(hourText) == v.removedEndHour)
        || (Includes(v.startMinutes, key) && Some(hourText) == v.removedStartedHour)
  }

  /** Gate of the 12-hour ring: the unpadded hour is looked up in the hour list;
      when the description carries an `endType`, the lookup applies only while
      both `startType` and `endType` equal the text of the active AM/PM button. */
  predicate Hour12Rejected(d: Option<DisabledValue>, hour: int, activeTypeText: Option<string>) {
    match d
    case None => false
    case Some(v) =>
      var key := IntToString(hour);
      if v.endType.Some? then
        v.endType == activeTypeText && v.startType == activeTypeText && Includes(HourList(v), key)
      else
        Includes(HourList(v), key)
  }

  /** Gate of the 24-hour outer ring: the hour as shown ("00", "13".."23") is
      looked up in the hour list, whatever the meridiem. */
  predicate Hour24Rejected(d: Option<DisabledValue>, key: string) {
    d.Some? && Includes(HourList(d.value), key)
  }
}
