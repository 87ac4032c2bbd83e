/**
 * The notifications list: how old a notification is, in the buckets the list shows
 * ("hace un momento", minutes, hours, days, then the calendar date), the icon and
 * colours of each notification type, and the rule that only an unread notification
 * is marked as read when tapped.
 *
 * The current time is a parameter, and so is the locale's rendering of the date,
 * which is shown from thirty days on.
 */
module Notifications {
  import opened Values
  import opened Text

  const MinuteMs: int := 60000
  const HourMs: int := 3600000
  const DayMs: int := 86400000

  /** What `formatTimeAgo` shows. */
  datatype Age = JustNow | Minutes(m: nat) | Hours(h: nat) | Days(d: nat) | CalendarDate

  /** The buckets for an age of `diff` milliseconds: minutes, hours and days are each
      rounded down, one level from the other, as the source does. */
  function AgeOf(diff: int): (a: Age)
    ensures a == JustNow <==> diff < MinuteMs
    ensures a.Minutes? ==> 1 <= a.m < 60 && a.m * MinuteMs <= diff < (a.m + 1) * MinuteMs
    ensures a.Hours? ==> 1 <= a.h < 24 && a.h * HourMs <= diff < (a.h + 1) * HourMs
    ensures a.Days? ==> 1 <= a.d < 30 && a.d * DayMs <= diff < (a.d + 1) * DayMs
    ensures a == CalendarDate <==> diff >= 30 * DayMs
  {
    var minutes := diff / MinuteMs;
    if minutes < 1 then JustNow
    else if minutes < 60 then Minutes(minutes)
    else
      var hours := minutes / 60;
      assert hours * HourMs <= diff < (hours + 1) * HourMs;
      if hours < 24 then Hours(hours)
      else
        var days := hours / 24;
        assert days * DayMs <= diff < (days + 1) * DayMs;
        if days < 30 then Days(days) else CalendarDate
  }

  function Order(a: Age): nat
  {
    match a
    case JustNow => 0
    case Minutes(_) => 1
    case Hours(_) => 2
    case Days(_) => 3
    case CalendarDate => 4
  }

  /** An older notification never lands in a younger bucket. */
  lemma AgeMonotone(d1: int, d2: int)
    requires d1 <= d2
    ensures Order(AgeOf(d1)) <= Order(AgeOf(d2))
  {
  }

  /** `hace N min`, `hace N hr(s)`, `hace N día(s)`; the calendar date is the locale's
      rendering, given as `localeDate`. */
  function AgeText(a: Age, localeDate: string): string
  {
    match a
    case JustNow => "hace un momento"
    case Minutes(m) => "hace " + NatToString(m) + " min"
    case Hours(h) => "hace " + NatToString(h) + " hr" + (if h > 1 then "s" else "")
    case Days(d) => "hace " + NatToString(d) + " día" + (if d > 1 then "s" else "")
    case CalendarDate => localeDate
  }

  /** `formatTimeAgo`: an unparsable date compares false everywhere and falls through to
      the date text. */
  function FormatTimeAgo(createdMs: Option<int>, nowMs: int, localeDate: string): (t: string)
    ensures createdMs.None? ==> t == localeDate
    ensures createdMs.Some? ==> t == AgeText(AgeOf(nowMs - createdMs.value), localeDate)
  {
    match createdMs
    case None => localeDate
    case Some(c) => AgeText(AgeOf(nowMs - c), localeDate)
  }

  /** A relative text starts with "hace ", and the hour and day units take a plural
      's' exactly when the count is above one. */
  lemma AgeTextNumber(diff: int, localeDate: string)
    requires MinuteMs <= diff < 30 * DayMs
    ensures var a := AgeOf(diff); var t := AgeText(a, localeDate);
      |t| > 5 && t[..5] == "hace "
      && (a.Hours? ==> (t[|t| - 1] == 's' <==> a.h > 1))
      && (a.Days? ==> (t[|t| - 1] == 's' <==> a.d > 1))
  {
  }

  // ---------------------------------------------------------------- icons

  datatype Icon = CheckCircle2 | XCircle | MessageSquare | Zap | Bell

  datatype IconStyle = IconStyle(icon: Icon, color: string, background: string)

  /** `getNotificationIcon`. */
  function IconFor(kind: string): (s: IconStyle)
    ensures s.icon == Bell <==>
      kind != "reservation_confirmed" && kind != "reservation_cancelled" && kind != "review_response" && kind != "promo"
    ensures kind == "reservation_confirmed" ==> s == IconStyle(CheckCircle2, "#16a34a", "#f0fdf4")
    ensures kind == "reservation_cancelled" ==> s == IconStyle(XCircle, "#dc2626", "#fef2f2")
    ensures kind == "review_response" ==> s == IconStyle(MessageSquare, "#1f7a66", "#f0fdfa")
    ensures kind == "promo" ==> s == IconStyle(Zap, "#eab308", "#fefce8")
    ensures s.icon == Bell ==> s == IconStyle(Bell, "#64748b", "#f8fafc")
  {
    if kind == "reservation_confirmed" then IconStyle(CheckCircle2, "#16a34a", "#f0fdf4")
    else if kind == "reservation_cancelled" then IconStyle(XCircle, "#dc2626", "#fef2f2")
    else if kind == "review_response" then IconStyle(MessageSquare, "#1f7a66", "#f0fdfa")
    else if kind == "promo" then IconStyle(Zap, "#eab308", "#fefce8")
    else IconStyle(Bell, "#64748b", "#f8fafc")
  }

  /** Different types get different colours, unless both fall to the default. */
  lemma IconColorsDistinct(k1: string, k2: string)
    requires IconFor(k1).icon != IconFor(k2).icon
    ensures IconFor(k1).color != IconFor(k2).color
  {
  }

  // ---------------------------------------------------------------- marking read

  /** `handleMarkAsRead`: the id to mark, or `None` when the notification is already
      read and nothing is sent. */
  function MarkRequest(id: string, isRead: bool): (r: Option<string>)
    ensures r.None? <==> isRead
    ensures r.Some? ==> r.value == id
  {
    if !isRead then Some(id) else None
  }
}
