/**
 * The open/closed badge of a restaurant card. A restaurant's hours come from the
 * per-weekday table `opening_hours`, or from the flat open and close times. A clock
 * value "HH:MM" is placed on today's date. A closing time earlier than the opening
 * time is moved to the next day, and the badge reads "Cierra …" while open and
 * "Abre …" otherwise.
 *
 * Times are milliseconds since local midnight of today; `nowMs` stands for the
 * current time of day. An unparsable clock string gives an invalid date (`None`),
 * and every comparison with it is false.
 *
 * `TodayStatusAsWritten` is the badge as the code computes it, from today's hours
 * alone. `TodayStatus` is the corrected badge, which also looks at yesterday's hours
 * so that a window running past midnight stays open until its closing time.
 */
module RestaurantCard {
  import opened Values
  import opened Text

  const HourMs: int := 3600000
  const MinuteMs: int := 60000
  const DayMs: int := 86400000

  /** One weekday's entry of `opening_hours`. */
  datatype DayHours = DayHours(open: Option<string>, close: Option<string>, closed: bool)

  /** The hour fields of a restaurant: `open_time`, `openTime`, `close_time`,
      `closeTime` and `opening_hours` (a weekday without an entry is absent from the map). */
  datatype Hours = Hours(
    openTime: Option<string>,
    openTimeAlias: Option<string>,
    closeTime: Option<string>,
    closeTimeAlias: Option<string>,
    openingHours: map<string, DayHours>)

  /** The badge. */
  datatype Status = Status(isOpen: bool, text: string)

  /** The weekday names, indexed as `Date.getDay()` numbers them from Sunday. */
  function DayName(weekday: nat): (d: string)
    requires weekday < 7
    ensures weekday == 0 <==> d == "sunday"
    ensures weekday == 1 <==> d == "monday"
    ensures weekday == 2 <==> d == "tuesday"
    ensures weekday == 3 <==> d == "wednesday"
    ensures weekday == 4 <==> d == "thursday"
    ensures weekday == 5 <==> d == "friday"
    ensures weekday == 6 <==> d == "saturday"
  {
    ["sunday", "monday", "tuesday", "wednesday", "thursday", "friday", "saturday"][weekday]
  }

  lemma DayNamesDistinct(a: nat, b: nat)
    requires a < 7 && b < 7 && a != b
    ensures DayName(a) != DayName(b)
  {
  }

  /** What the hours say about today, before any clock is read. */
  datatype Schedule = ClosedToday | NoHours | Times(open: string, close: string)

  /** The weekday entry, when present, overrides the flat times; a closed entry wins;
      and hours with an empty side have no times. */
  function ScheduleFor(h: Hours, weekday: nat): (s: Schedule)
    requires weekday < 7
    ensures s == ClosedToday <==> DayName(weekday) in h.openingHours && h.openingHours[DayName(weekday)].closed
    ensures DayName(weekday) in h.openingHours && !h.openingHours[DayName(weekday)].closed ==>
      var e := h.openingHours[DayName(weekday)];
      (s.Times? <==> Truthy(e.open) && Truthy(e.close))
      && (s.Times? ==> s.open == e.open.value && s.close == e.close.value)
    ensures DayName(weekday) !in h.openingHours ==>
      var o := Or(h.openTime, h.openTimeAlias);
      var c := Or(h.closeTime, h.closeTimeAlias);
      (s.Times? <==> Truthy(o) && Truthy(c))
      && (s.Times? ==> s.open == o.value && s.close == c.value)
    ensures s.Times? ==> s.open != "" && s.close != ""
  {
    var day := DayName(weekday);
    if day in h.openingHours && h.openingHours[day].closed then ClosedToday
    else
      var o := if day in h.openingHours then h.openingHours[day].open else Or(h.openTime, h.openTimeAlias);
      var c := if day in h.openingHours then h.openingHours[day].close else Or(h.closeTime, h.closeTimeAlias);
      if Truthy(o) && Truthy(c) then Times(o.value, c.value) else NoHours
  }

  /** The instant `setHours(hh, mm, 0, 0)` sets, in milliseconds after midnight. */
  function ClockValue(hh: nat, mm: nat): nat
  {
    hh * HourMs + mm * MinuteMs
  }

  /** `parseTime`: split on ':', `Number` of the hour and of the minutes, and
      `setHours(hours, minutes, 0, 0)`; a missing or non-numeric part is NaN. Hours and
      minutes past their range roll over, so the value is not confined to one day. */
  function ClockMs(t: string): (ms: Option<int>)
    ensures ms.Some? ==> ms.value >= 0
    ensures ms.Some? <==>
      var parts := Split(t, ':');
      |parts| >= 2 && ParseNumber(parts[0]).Some? && ParseNumber(parts[1]).Some?
  {
    var parts := Split(t, ':');
    if |parts| < 2 then None
    else match (ParseNumber(parts[0]), ParseNumber(parts[1]))
      case (Some(hh), Some(mm)) => Some(ClockValue(hh, mm))
      case _ => None
  }

  lemma ClockMsOf(hh: nat, mm: nat)
    ensures ClockMs(NatToString(hh) + ":" + NatToString(mm)) == Some(ClockValue(hh, mm))
  {
    var a := NatToString(hh);
    var b := NatToString(mm);
    DigitsNoChar(a, ':');
    DigitsNoChar(b, ':');
    assert a + ":" + b == a + [':'] + b;
    SplitPair(a, b, ':');
    ParseNumberOfNat(hh);
    ParseNumberOfNat(mm);
  }

  /** The closing instant compared against: moved a day on when it is earlier than the
      opening instant. */
  function EffectiveClose(start: int, end: int): (e: int)
  {
    if end < start then end + DayMs else end
  }

  /** `now >= start && now <= end` as written: only today's window is tested. */
  predicate OpenAsWritten(start: Option<int>, end: Option<int>, nowMs: int)
  {
    start.Some? && end.Some? && start.value <= nowMs <= EffectiveClose(start.value, end.value)
  }

  /** A schedule with times whose window, placed on the clock it is given, holds `t`. */
  predicate InWindow(s: Schedule, t: int)
  {
    s.Times? && OpenAsWritten(ClockMs(s.open), ClockMs(s.close), t)
  }

  /** The weekday before `weekday`. */
  function Yesterday(weekday: nat): (y: nat)
    requires weekday < 7
    ensures y < 7 && (y + 1) % 7 == weekday
  {
    (weekday + 6) % 7
  }

  /** On ordinary clock values a window tested on today's clock is open from its opening
      time on, up to its closing time when that is later; the same window tested one day
      on, on yesterday's clock, holds exactly the part of an overnight window after
      midnight. */
  lemma WindowsOnClock(start: int, end: int, nowMs: int)
    requires 0 <= start < DayMs && 0 <= end < DayMs && 0 <= nowMs < DayMs
    ensures OpenAsWritten(Some(start), Some(end), nowMs) <==>
      if end < start then nowMs >= start else start <= nowMs <= end
    ensures OpenAsWritten(Some(start), Some(end), nowMs + DayMs) <==> end < start && nowMs <= end
  {
  }

  /** The badge for a schedule and an open/closed answer. */
  function Badge(s: Schedule, isOpen: bool): (st: Status)
  {
    match s
    case ClosedToday => Status(false, "Cerrado hoy")
    case NoHours => Status(false, "Cons. horario")
    case Times(o, c) =>
      if isOpen then Status(true, "Cierra " + Prefix(c, 5)) else Status(false, "Abre " + Prefix(o, 5))
  }

  /** `getTodayStatus` as the code computes it: today's schedule alone decides. */
  function TodayStatusAsWritten(h: Hours, weekday: nat, nowMs: int): (st: Status)
    requires weekday < 7
    ensures ScheduleFor(h, weekday) == ClosedToday ==> st == Status(false, "Cerrado hoy")
    ensures ScheduleFor(h, weekday) == NoHours ==> st == Status(false, "Cons. horario")
    ensures ScheduleFor(h, weekday).Times? ==>
      var s := ScheduleFor(h, weekday);
      st.isOpen == OpenAsWritten(ClockMs(s.open), ClockMs(s.close), nowMs)
      && st.text == (if st.isOpen then "Cierra " + Prefix(s.close, 5) else "Abre " + Prefix(s.open, 5))
  {
    var s := ScheduleFor(h, weekday);
    match s
    case Times(o, c) => Badge(s, OpenAsWritten(ClockMs(o), ClockMs(c), nowMs))
    case _ => Badge(s, false)
  }

  /** `getTodayStatus` with yesterday's window kept open past midnight: the restaurant is
      open inside today's window, or inside the window of yesterday's own schedule placed
      on yesterday's clock, where now lies a day later. An open badge names the closing
      time of the window it is in; a closed one reads as the code's. */
  function TodayStatus(h: Hours, weekday: nat, nowMs: int): (st: Status)
    requires weekday < 7
    ensures var s := ScheduleFor(h, weekday); var y := ScheduleFor(h, Yesterday(weekday));
      (st.isOpen <==> InWindow(s, nowMs) || InWindow(y, nowMs + DayMs))
      && (InWindow(s, nowMs) ==> st.text == "Cierra " + Prefix(s.close, 5))
      && (!InWindow(s, nowMs) && InWindow(y, nowMs + DayMs) ==> st.text == "Cierra " + Prefix(y.close, 5))
      && (!st.isOpen ==> st == TodayStatusAsWritten(h, weekday, nowMs))
  {
    var s := ScheduleFor(h, weekday);
    var y := ScheduleFor(h, Yesterday(weekday));
    if InWindow(s, nowMs) then Status(true, "Cierra " + Prefix(s.close, 5))
    else if InWindow(y, nowMs + DayMs) then Status(true, "Cierra " + Prefix(y.close, 5))
    else TodayStatusAsWritten(h, weekday, nowMs)
  }

  /** The corrected rule only adds the tail of yesterday's window: whatever the code shows
      as open stays so with the same text, and without yesterday's window running on into
      the present moment the two agree. */
  lemma AsWrittenImpliesIntended(h: Hours, weekday: nat, nowMs: int)
    requires weekday < 7
    ensures TodayStatusAsWritten(h, weekday, nowMs).isOpen ==>
      TodayStatus(h, weekday, nowMs) == TodayStatusAsWritten(h, weekday, nowMs)
    ensures !InWindow(ScheduleFor(h, Yesterday(weekday)), nowMs + DayMs) ==>
      TodayStatus(h, weekday, nowMs) == TodayStatusAsWritten(h, weekday, nowMs)
  {
  }

  /** An open badge always names a closing time that today's or yesterday's hours
      provide, both of whose clock strings parse. */
  lemma OpenBadgeHasHours(h: Hours, weekday: nat, nowMs: int)
    requires weekday < 7
    ensures TodayStatus(h, weekday, nowMs).isOpen ==>
      exists s :: s in {ScheduleFor(h, weekday), ScheduleFor(h, Yesterday(weekday))} &&
        s.Times? && ClockMs(s.open).Some? && ClockMs(s.close).Some?
        && TodayStatus(h, weekday, nowMs).text == "Cierra " + Prefix(s.close, 5)
  {
    var s := ScheduleFor(h, weekday);
    var y := ScheduleFor(h, Yesterday(weekday));
    if InWindow(s, nowMs) {
      assert s in {s, y};
    } else if InWindow(y, nowMs + DayMs) {
      assert y in {s, y};
    }
  }

  lemma LateHoursDigits()
    ensures DecimalValue("19") == 19 && DecimalValue("02") == 2 && DecimalValue("00") == 0
  {
    assert "19"[..1] == "1" && "02"[..1] == "0" && "00"[..1] == "0";
  }

  lemma LateHoursOpen()
    ensures ClockMs("19:00") == Some(ClockValue(19, 0))
  {
    LateHoursDigits();
    assert "19:00" == "19" + ":" + "00";
    ClockMsOfText("19:00", "19", "00", 19, 0);
  }

  lemma LateHoursClose()
    ensures ClockMs("02:00") == Some(ClockValue(2, 0))
  {
    LateHoursDigits();
    assert "02:00" == "02" + ":" + "00";
    ClockMsOfText("02:00", "02", "00", 2, 0);
  }

  /** With the same overnight hours yesterday and today, between midnight and the closing
      time the code reports the restaurant closed and shows its opening time, while it is
      in fact still open. */
  lemma OvernightWindow(h: Hours, weekday: nat, nowMs: int, open: string, close: string, start: int, end: int)
    requires weekday < 7 && ScheduleFor(h, weekday) == Times(open, close)
    requires ScheduleFor(h, Yesterday(weekday)) == Times(open, close)
    requires ClockMs(open) == Some(start) && ClockMs(close) == Some(end)
    requires end < start <= DayMs && 0 <= nowMs <= end
    ensures TodayStatusAsWritten(h, weekday, nowMs) == Status(false, "Abre " + Prefix(open, 5))
    ensures TodayStatus(h, weekday, nowMs) == Status(true, "Cierra " + Prefix(close, 5))
  {
    assert EffectiveClose(start, end) == end + DayMs;
    assert !InWindow(Times(open, close), nowMs);
    assert InWindow(Times(open, close), nowMs + DayMs);
  }

  /** Yesterday's own overnight hours decide after midnight, whatever today's hours are:
      until yesterday's closing time the badge reads open and names that closing time. */
  lemma CarryFromYesterday(h: Hours, weekday: nat, nowMs: int, open: string, close: string, start: int, end: int)
    requires weekday < 7 && ScheduleFor(h, Yesterday(weekday)) == Times(open, close)
    requires ClockMs(open) == Some(start) && ClockMs(close) == Some(end)
    requires end < start <= DayMs && 0 <= nowMs <= end
    requires !InWindow(ScheduleFor(h, weekday), nowMs)
    ensures TodayStatus(h, weekday, nowMs) == Status(true, "Cierra " + Prefix(close, 5))
  {
    assert EffectiveClose(start, end) == end + DayMs;
    assert InWindow(Times(open, close), nowMs + DayMs);
  }

  /** After a day without hours there is no window left over from yesterday, so the
      corrected rule shows what the code shows. */
  lemma NoCarryAfterClosedDay(h: Hours, weekday: nat, nowMs: int)
    requires weekday < 7 && !ScheduleFor(h, Yesterday(weekday)).Times?
    ensures TodayStatus(h, weekday, nowMs) == TodayStatusAsWritten(h, weekday, nowMs)
  {
  }

  lemma LateHoursTexts()
    ensures "Abre " + Prefix("19:00", 5) == "Abre 19:00"
    ensures "Cierra " + Prefix("02:00", 5) == "Cierra 02:00"
  {
  }

  lemma LateHoursSchedule(h: Hours, weekday: nat)
    requires weekday < 7 && DayName(weekday) !in h.openingHours
    requires h.openTime == Some("19:00") && h.closeTime == Some("02:00")
    ensures ScheduleFor(h, weekday) == Times("19:00", "02:00")
  {
  }

  /** The same for a restaurant with flat hours 19:00 to 02:00, looked at on a Monday at
      00:30. */
  lemma OvernightAfterMidnight(h: Hours)
    requires h.openTime == Some("19:00") && h.closeTime == Some("02:00")
    requires "sunday" !in h.openingHours && "monday" !in h.openingHours
    ensures TodayStatusAsWritten(h, 1, 30 * MinuteMs) == Status(false, "Abre 19:00")
    ensures TodayStatus(h, 1, 30 * MinuteMs) == Status(true, "Cierra 02:00")
  {
    LateHoursSchedule(h, 1);
    assert Yesterday(1) == 0;
    LateHoursSchedule(h, 0);
    LateHoursOpen();
    LateHoursClose();
    OvernightWindow(h, 1, 30 * MinuteMs, "19:00", "02:00", ClockValue(19, 0), ClockValue(2, 0));
    LateHoursTexts();
  }

  /** A clock string of two-digit fields reads as their values. */
  lemma ClockMsOfPadded(hs: string, ms: string, hh: nat, mm: nat)
    requires |hs| == 2 && |ms| == 2 && AllDigits(hs) && AllDigits(ms)
    requires DecimalValue(hs) == hh && DecimalValue(ms) == mm
    ensures ClockMs(hs + ":" + ms) == Some(ClockValue(hh, mm))
  {
    DigitsNoChar(hs, ':');
    DigitsNoChar(ms, ':');
    SplitPair(hs, ms, ':');
    assert hs + ":" + ms == hs + [':'] + ms;
    assert !IsSpace(hs[0]) && !IsSpace(hs[1]) && !IsSpace(ms[0]) && !IsSpace(ms[1]);
    assert TrimStart(hs) == hs && TrimEnd(hs) == hs;
    assert TrimStart(ms) == ms && TrimEnd(ms) == ms;
  }

  lemma ClockMsOfText(t: string, hs: string, ms: string, hh: nat, mm: nat)
    requires t == hs + ":" + ms
    requires |hs| == 2 && |ms| == 2 && AllDigits(hs) && AllDigits(ms)
    requires DecimalValue(hs) == hh && DecimalValue(ms) == mm
    ensures ClockMs(t) == Some(ClockValue(hh, mm))
  {
    ClockMsOfPadded(hs, ms, hh, mm);
  }
}
