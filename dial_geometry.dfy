/** The integer part of the dial geometry: from a snapped pointer angle (in
    whole degrees, 0 at twelve o'clock, clockwise) to the minute or hour it
    selects and the angle the hand is drawn at, and back from a displayed
    hour or minute to the hand angle. The pointer angle itself comes from
    floating-point trigonometry and an increment helper that are not part of
    this model; it enters every function here as the integer `deg`. */
module DialGeometry {
  import opened JsValues

  /** What a drag on the minute ring selects: the minute and the hand angle. */
  datatype MinutePick = MinutePick(minute: int, degrees: int)

  /** What a drag on the 12-hour (inner) ring selects. */
  datatype HourPick = HourPick(hour: int, degrees: int)

  /** What a drag on the 24-hour outer ring selects: the hour as the text it
      is shown and looked up by (`"00"` for midnight), and the hand angle. */
  datatype OuterPick = OuterPick(text: string, degrees: int)

  /** Minute ring: the nearest minute tick to `deg`; a negative angle is
      turned forward by a full circle. */
  function MinuteRing(deg: int): MinutePick {
    if deg < 0 then
      MinutePick(JsRem(RoundDiv(360 * 6 + deg, 6), 60), 360 + RoundDiv(deg, 6) * 6)
    else
      MinutePick(JsRem(RoundDiv(deg, 6), 60), RoundDiv(deg, 6) * 6)
  }

  /** 12-hour ring: the nearest hour tick; for a non-negative angle an hour
      of 0 is shown as 12. The hand keeps the snapped angle itself. */
  function Hour12Ring(deg: int): HourPick {
    if deg < 0 then
      HourPick(JsRem(RoundDiv(360 * 30 + deg, 30), 12), 360 + deg)
    else
      var h := JsRem(RoundDiv(deg, 30), 12);
      HourPick(if h == 0 || h > 12 then 12 else h, deg)
  }

  /** 24-hour outer ring: for a non-negative angle the nearest tick plus 12,
      with 12 itself shown as "00"; for a negative angle the nearest tick of
      the forward-turned angle, modulo 24. */
  function Hour24Ring(deg: int): OuterPick {
    if deg < 0 then
      OuterPick(IntToString(JsRem(RoundDiv(360 * 30 + deg, 30), 24)), 360 + deg)
    else
      var h := RoundDiv(deg, 30) + 12;
      OuterPick(if h == 12 then "00" else IntToString(h), deg)
  }

  /** Hand angle for a displayed hour: hours past 12 go round a second time;
      an angle of exactly 360 is drawn as 0; one still above 360 is refused
      (None) and the hand is left where it was. */
  function HourHand(value: int): (r: Option<int>)
    ensures r.None? <==> value >= 25
    ensures 0 <= value <= 23 ==> r == Some((value % 12) * 30)
    ensures r.Some? && value >= 0 ==> 0 <= r.value < 360 && r.value % 30 == 0
  {
    var degrees := if value > 12 then value * 30 - 360 else value * 30;
    var degrees := if degrees == 360 then 0 else degrees;
    if degrees > 360 then None else Some(degrees)
  }

  /** Hand angle for a displayed minute; above 360 degrees it is refused. */
  function MinuteHand(value: int): (r: Option<int>)
    ensures r.None? <==> value > 60
    ensures 0 <= value <= 60 ==> r == Some(6 * value)
    ensures 0 <= value < 60 ==> r.Some? && 0 <= r.value < 360 && r.value % 6 == 0
  {
    var degrees := value * 6;
    if degrees > 360 then None else Some(degrees)
  }

  /** Angle a hand is seeded with at construction: `Number(text) * unit`,
      None when the text is not a number. */
  function SeedDegrees(text: string, unit: int): (r: Option<int>)
    ensures r.Some? <==> JsNumber(text).Some?
  {
    match JsNumber(text)
    case None => None
    case Some(v) => Some(v * unit)
  }

  /** The hour a tick on the inner ring stands for, read off the angle alone. */
  function InnerTickHour(deg: int): int {
    var k := (deg / 30) % 12;
    if k == 0 then 12 else k
  }

  /** The hour a tick on the outer 24-hour ring stands for: 0 at the top,
      then 13 to 23 clockwise. */
  function OuterTickHour(deg: int): int {
    var k := (deg / 30) % 12;
    if k == 0 then 0 else k + 12
  }

  /** The minute ring selects the minute whose tick is nearest to the pointer
      (a tie going clockwise), stores a hand angle on a tick in [0, 360] that
      agrees with that minute, and never leaves the range 0..59. */
  lemma MinuteRingNearest(deg: int)
    requires -360 < deg
    ensures var p := MinuteRing(deg);
      && 0 <= p.minute < 60
      && 0 <= p.degrees && p.degrees % 6 == 0
      && p.degrees % 360 == 6 * p.minute
      && 0 < (6 * p.minute - deg + 3) % 360 <= 6
      && (deg < 360 ==> p.degrees <= 360)
  {
    if deg < 0 {
      MinuteRingBeforeTop(deg);
    } else {
      MinuteRingFromTop(deg);
    }
  }

  /** `MinuteRingNearest` for an angle just before the top. */
  lemma MinuteRingBeforeTop(deg: int)
    requires -360 < deg < 0
    ensures var p := MinuteRing(deg);
      && 0 <= p.minute < 60
      && 0 <= p.degrees <= 360 && p.degrees % 6 == 0
      && p.degrees % 360 == 6 * p.minute
      && 0 < (6 * p.minute - deg + 3) % 360 <= 6
  {
    var r := RoundDiv(deg, 6);
    RoundDivShift(deg, 6, 360);
    NearestMinuteTickBeforeTop(deg, r);
    assert JsRem(r + 360, 60) == (r + 360) % 60;
  }

  /** The arithmetic behind `MinuteRingBeforeTop`: tick r, the nearest to a
      negative deg, turned forward by a full circle. */
  lemma NearestMinuteTickBeforeTop(deg: int, r: int)
    requires -360 < deg < 0 && 0 < 6 * r - deg + 3 <= 6
    ensures var m := (r + 360) % 60; var a := 360 + r * 6;
      && 0 <= a <= 360 && a % 6 == 0
      && a % 360 == 6 * m
      && 0 < (6 * m - deg + 3) % 360 <= 6
  {
    var y := 6 * r - deg + 3;
    assert -60 <= r <= 0;
    if r == -60 {
      ModOffset360(y, 1);
    } else if r < 0 {
      assert r + 360 == 60 * 5 + (r + 60);
      assert (r + 360) % 60 == r + 60;
      ModOffset360(y, 1);
    }
  }

  /** `MinuteRingNearest` for an angle from the top onwards. */
  lemma MinuteRingFromTop(deg: int)
    requires 0 <= deg
    ensures var p := MinuteRing(deg);
      && 0 <= p.minute < 60
      && 0 <= p.degrees && p.degrees % 6 == 0
      && p.degrees % 360 == 6 * p.minute
      && 0 < (6 * p.minute - deg + 3) % 360 <= 6
      && (deg < 360 ==> p.degrees <= 360)
  {
    var r := RoundDiv(deg, 6);
    NearestMinuteTickFromTop(deg, r);
    assert JsRem(r, 60) == r % 60;
  }

  /** The arithmetic behind `MinuteRingFromTop`. */
  lemma NearestMinuteTickFromTop(deg: int, r: int)
    requires 0 <= deg && 0 < 6 * r - deg + 3 <= 6
    ensures var m := r % 60; var a := r * 6;
      && 0 <= m < 60
      && 0 <= a && a % 6 == 0
      && a % 360 == 6 * m
      && 0 < (6 * m - deg + 3) % 360 <= 6
      && (deg < 360 ==> a <= 360)
  {
    var y := 6 * r - deg + 3;
    assert r >= 0;
    var q := r / 60;
    TicksSplit(r);
    assert 6 * (r % 60) - deg + 3 == y + 360 * (-q);
    ModOffset360(6 * (r % 60), q);
    ModOffset360(y, -q);
    if deg < 360 {
      assert r <= 60;
    }
  }

  /** A count of minute ticks as whole turns plus the minute it shows. */
  lemma TicksSplit(r: int)
    requires r >= 0
    ensures r * 6 == 6 * (r % 60) + 360 * (r / 60)
  {
  }

  lemma ModOffset360(y: int, k: int)
    ensures (y + 360 * k) % 360 == y % 360
  {
  }

  /** Snapping a minute twice changes nothing: the stored angle selects the
      same minute and the same angle again. */
  lemma MinuteRingIdempotent(deg: int)
    requires -360 < deg
    ensures MinuteRing(MinuteRing(deg).degrees) == MinuteRing(deg)
  {
    var p := MinuteRing(deg);
    var r := RoundDiv(deg, 6);
    if deg < 0 {
      RoundDivShift(deg, 6, 360);
      assert -60 <= r <= 0;
      assert p.minute == (r + 360) % 60;
      assert p.degrees == (60 + r) * 6;
      RoundDivExact(60 + r, 6);
      assert MinuteRing(p.degrees).minute == (60 + r) % 60;
    } else {
      assert p.degrees == r * 6;
      RoundDivExact(r, 6);
    }
  }

  /** Dragging onto a minute tick selects exactly that minute, and the angle
      agrees with the one the hand is given when the minute is displayed. */
  lemma MinuteRingOfTick(m: int)
    requires 0 <= m < 60
    ensures MinuteRing(6 * m) == MinutePick(m, 6 * m)
    ensures MinuteHand(m) == Some(MinuteRing(6 * m).degrees)
  {
    RoundDivExact(m, 6);
  }

  /** On the 12-hour ring a non-negative snapped angle always shows an hour in
      1..12, and that hour is the tick nearest the angle. */
  lemma Hour12RingNonNegative(deg: int)
    requires deg >= 0
    ensures var p := Hour12Ring(deg);
      && 1 <= p.hour <= 12
      && p.degrees == deg
      && 0 < (30 * p.hour - deg + 15) % 360 <= 30
  {
    var r := RoundDiv(deg, 30);
    NearestHourTick(deg, r);
    assert JsRem(r, 12) == r % 12;
  }

  /** The arithmetic behind `Hour12RingNonNegative`: if tick r is the nearest
      to deg, so is the tick r shows on a 12-hour face. */
  lemma NearestHourTick(deg: int, r: int)
    requires deg >= 0 && 0 < 30 * r - deg + 15 <= 30
    ensures r >= 0
    ensures var h := if r % 12 == 0 then 12 else r % 12;
      0 < (30 * h - deg + 15) % 360 <= 30
  {
    var y := 30 * r - deg + 15;
    var q := r / 12;
    HourTicksSplit(r);
    if r % 12 == 0 {
      assert 30 * 12 - deg + 15 == y + 360 * (1 - q);
      ModOffset360(y, 1 - q);
    } else {
      assert 30 * (r % 12) - deg + 15 == y + 360 * (-q);
      ModOffset360(y, -q);
    }
  }

  /** A count of hour ticks as whole turns plus the tick within the turn. */
  lemma HourTicksSplit(r: int)
    requires r >= 0
    ensures 30 * r == 30 * (r % 12) + 360 * (r / 12)
  {
  }

  /** A snapped angle on an hour tick of the 12-hour ring, either sign, gives
      the hour that tick stands for, and the angle the hand is drawn at is
      the one it gets when that hour is displayed later. A negative angle
      never gives 12. */
  lemma Hour12RingOfTick(deg: int)
    requires deg % 30 == 0 && -360 < deg < 360
    ensures var p := Hour12Ring(deg);
      && p.hour == InnerTickHour(deg)
      && 1 <= p.hour <= 12
      && (deg < 0 ==> p.hour <= 11)
      && 0 <= p.degrees < 360
      && HourHand(p.hour) == Some(p.degrees)
  {
    var k := deg / 30;
    assert deg == k * 30;
    if deg < 0 {
      InnerTickBeforeTop(k);
    } else {
      InnerTickAfterTop(k);
    }
  }

  lemma InnerTickBeforeTop(k: int)
    requires -11 <= k <= -1
    ensures Hour12Ring(k * 30) == HourPick(k + 12, 360 + k * 30)
    ensures InnerTickHour(k * 30) == k + 12
  {
    RoundDivShift(k * 30, 30, 360);
    RoundDivExact(k, 30);
    assert RoundDiv(360 * 30 + k * 30, 30) == k + 360;
    assert JsRem(k + 360, 12) == k + 12;
    assert (k * 30) / 30 == k;
  }

  lemma InnerTickAfterTop(k: int)
    requires 0 <= k <= 11
    ensures Hour12Ring(k * 30) == HourPick(if k == 0 then 12 else k, k * 30)
    ensures InnerTickHour(k * 30) == if k == 0 then 12 else k
  {
    RoundDivExact(k, 30);
    assert JsRem(k, 12) == k;
    assert (k * 30) / 30 == k;
  }

  /** A snapped angle on an hour tick of the outer ring gives the label of the
      hour that tick stands for (0, or 13..23), and the hand angle agrees with
      the one that hour is displayed with. */
  lemma Hour24RingOfTick(deg: int)
    requires deg % 30 == 0 && -360 < deg < 360
    ensures var p := Hour24Ring(deg); var h := OuterTickHour(deg);
      && (h == 0 || 13 <= h <= 23)
      && p.text == Pad2(h)
      && 0 <= p.degrees < 360
      && HourHand(h) == Some(p.degrees)
  {
    var k := deg / 30;
    assert deg == k * 30;
    if deg < 0 {
      OuterTickBeforeTop(k);
    } else {
      OuterTickAfterTop(k);
    }
  }

  lemma OuterTickBeforeTop(k: int)
    requires -11 <= k <= -1
    ensures Hour24Ring(k * 30) == OuterPick(Pad2(k + 24), 360 + k * 30)
    ensures OuterTickHour(k * 30) == k + 24
  {
    RoundDivShift(k * 30, 30, 360);
    RoundDivExact(k, 30);
    assert RoundDiv(360 * 30 + k * 30, 30) == k + 360;
    assert JsRem(k + 360, 24) == k + 24;
  }

  lemma OuterTickAfterTop(k: int)
    requires 0 <= k <= 11
    ensures Hour24Ring(k * 30).text == Pad2(OuterTickHour(k * 30))
    ensures OuterTickHour(k * 30) == if k == 0 then 0 else k + 12
  {
    RoundDivExact(k, 30);
    assert (k * 30) / 30 == k;
    if k == 0 {
      Pad2Zero();
    }
  }

  lemma Pad2Zero()
    ensures Pad2(0) == "00"
  {
    assert NatToString(0) == "0";
  }

  /** From the top up to 15 degrees clockwise the outer ring shows midnight
      as "00". */
  lemma Hour24RingMidnight(deg: int)
    requires 0 <= deg < 15
    ensures Hour24Ring(deg).text == "00"
  {
    assert RoundDiv(deg, 30) == 0;
  }

  /** The hour angle seeded at construction from a two-digit hour label is
      30 times the hour; the hand drawn for that hour is the same angle
      reduced to one turn (so 12 is seeded at 360 where the hand sits at 0,
      and afternoon hours are seeded on a second turn). */
  lemma SeedHourAgrees(h: nat)
    requires h <= 23
    ensures SeedDegrees(Pad2(h), 30) == Some(30 * h)
    ensures HourHand(h) == Some((30 * h) % 360)
  {
    Pad2RoundTrip(h);
  }

  /** Just before the top, on [-15, 0), the negative branch of the outer ring
      has no "00" case: it shows and looks up "0". */
  lemma Hour24RingJustBeforeTop(deg: int)
    requires -15 <= deg < 0
    ensures Hour24Ring(deg) == OuterPick("0", 360 + deg)
  {
    RoundDivShift(deg, 30, 360);
    assert RoundDiv(deg, 30) == 0;
    assert JsRem(360, 24) == 0;
  }

  /** On the last half-sector [345, 360) the outer ring's non-negative branch
      rounds up to the next turn and shows "24". */
  lemma Hour24RingLastSector(deg: int)
    requires 345 <= deg < 360
    ensures Hour24Ring(deg) == OuterPick("24", deg)
  {
    assert RoundDiv(deg, 30) == 12;
    assert NatToString(24) == NatToString(2) + [DigitChar(4)];
  }

  /** Just before the top, on [-15, 0), the negative branch of the 12-hour
      ring has no 0-to-12 remap: it selects hour 0, shown as "00". */
  lemma Hour12RingJustBeforeTop(deg: int)
    requires -15 <= deg < 0
    ensures Hour12Ring(deg) == HourPick(0, 360 + deg)
    ensures Pad2(0) == "00"
  {
    RoundDivShift(deg, 30, 360);
    assert RoundDiv(deg, 30) == 0;
    assert JsRem(360, 12) == 0;
    Pad2Zero();
  }

  /** The minute angle seeded at construction from a two-digit minute label
      is the angle the hand is drawn at for that minute. */
  lemma SeedMinuteAgrees(m: nat)
    requires m < 60
    ensures SeedDegrees(Pad2(m), 6) == MinuteHand(m)
    ensures MinuteHand(m) == Some(6 * m)
  {
    Pad2RoundTrip(m);
  }
}
