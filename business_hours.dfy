/**
  The business-hours status engine of the studio page: given the weekly
  schedule and the current day and time, it classifies the moment as open,
  closing soon, opening soon or closed, and builds the banner messages.

  The page samples the clock as `hours + minutes / 60`; here a sample is the
  exact minute of the day. Schedule bounds are whole hours, so every
  comparison `time >= hour` becomes `minute >= hour * 60`, and the rounded
  `(close - time) * 60` is exactly `close * 60 - minute`.
 */
module BusinessHours {
  import opened Wrappers
  import opened Text

  /** Opening and closing hour of one day; the shop is open on `[open, close)`. */
  datatype Hours = Hours(open: int, close: int)

  /** A week of schedule entries indexed by day, 0 = Sunday .. 6 = Saturday. */
  type Week = w: seq<Option<Hours>> | |w| == 7 witness [None, None, None, None, None, None, None]

  /** A day of the week as `Date.getDay` returns it. */
  type Day = d: int | 0 <= d < 7

  /** A minute of the day, `getHours() * 60 + getMinutes()`. */
  type Minute = m: int | 0 <= m < 1440

  datatype Sample = Sample(day: Day, minute: Minute)

  /** The status types; their class names are given by `TypeName`. */
  datatype StatusType = Open | ClosingSoon | OpeningSoon | Closed

  /** What the engine returns: a type, the main message and the optional next-change line. */
  datatype Status = Status(kind: StatusType, message: string, nextChange: Option<string>)

  /** The class name of a status type: a single word without spaces. */
  function TypeName(k: StatusType): (name: string)
    ensures |name| >= 4 && ' ' !in name
  {
    match k
    case Open => "open"
    case ClosingSoon => "closing-soon"
    case OpeningSoon => "opening-soon"
    case Closed => "closed"
  }

  /** The studio's schedule: Monday to Saturday 11AM-8PM, Sunday 1PM-6PM. */
  const StudioHours: Week := [
    Some(Hours(13, 18)),
    Some(Hours(11, 20)), Some(Hours(11, 20)), Some(Hours(11, 20)),
    Some(Hours(11, 20)), Some(Hours(11, 20)), Some(Hours(11, 20))
  ]

  /** A well-formed day: whole hours with `0 <= open < close <= 24`. */
  predicate ValidHours(h: Hours) {
    0 <= h.open < h.close <= 24
  }

  predicate ValidWeek(w: Week) {
    forall d :: 0 <= d < 7 && w[d].Some? ==> ValidHours(w[d].value)
  }

  lemma StudioHoursValid()
    ensures ValidWeek(StudioHours)
    ensures forall d :: 0 <= d < 7 ==> StudioHours[d].Some?
  {
  }

  // ----- formatTime -----

  /** A whole hour in 12-hour text without minutes. */
  function FormatTime(hour: int): (s: string)
    ensures |s| >= 3
    ensures s[|s| - 2..] == (if hour >= 12 then "PM" else "AM")
  {
    if hour == 12 then "12PM"
    else if hour == 0 then "12AM"
    else if hour > 12 then IntToString(hour - 12) + "PM"
    else IntToString(hour) + "AM"
  }

  /** Reads a 12-hour text such as "8PM" back to a 24-hour value. */
  function ParseTime(s: string): (r: Option<int>)
  {
    if |s| < 3 then None
    else
      var num, suffix := s[..|s| - 2], s[|s| - 2..];
      if !(forall i :: 0 <= i < |num| ==> IsDigit(num[i])) then None
      else
        var n := DigitsValue(num);
        if suffix == "AM" then Some(if n == 12 then 0 else n)
        else if suffix == "PM" then Some(if n == 12 then 12 else n + 12)
        else None
  }

  lemma FormatTimeTable()
    ensures FormatTime(0) == "12AM"
    ensures FormatTime(11) == "11AM"
    ensures FormatTime(12) == "12PM"
    ensures FormatTime(20) == "8PM"
  {
    assert NatToString(11) == "11" by {
      assert NatToString(1) == "1";
    }
  }

  /** Every hour of the day is formatted to a text that reads back as that hour. */
  lemma FormatTimeRoundTrip(hour: int)
    requires 0 <= hour < 24
    ensures ParseTime(FormatTime(hour)) == Some(hour)
  {
    var s := FormatTime(hour);
    if hour == 12 {
      assert s[..|s| - 2] == "12";
      assert DigitsValue("12") == 12 by { assert "12"[..1] == "1"; }
    } else if hour == 0 {
      assert s[..|s| - 2] == "12";
      assert DigitsValue("12") == 12 by { assert "12"[..1] == "1"; }
    } else {
      var n := if hour > 12 then hour - 12 else hour;
      var suffix := if hour > 12 then "PM" else "AM";
      assert s == NatToString(n) + suffix;
      assert s[..|s| - 2] == NatToString(n);
      assert s[|s| - 2..] == suffix;
      NatToStringRoundTrip(n);
    }
  }

  /** A closing hour of 24 (midnight) is formatted exactly like noon. */
  lemma FormatTimeMidnightAsNoon()
    ensures FormatTime(24) == FormatTime(12) == "12PM"
  {
    assert NatToString(12) == "12" by {
      assert NatToString(1) == "1";
    }
  }

  // ----- getDayName -----

  function DayName(d: Day): (name: string)
    ensures |name| > 3 && name[|name| - 3..] == "day"
  {
    ["Sunday", "Monday", "Tuesday", "Wednesday", "Thursday", "Friday", "Saturday"][d]
  }

  /** Distinct days have distinct names. */
  lemma DayNameInjective(d1: Day, d2: Day)
    ensures DayName(d1) == DayName(d2) <==> d1 == d2
  {
    if d1 != d2 {
      var a, b := DayName(d1), DayName(d2);
      if |a| == |b| {
        assert a[0] != b[0] || a[1] != b[1];
      }
    }
  }

  // ----- getNextOpenTime -----

  /** The day `k` days after `day`, wrapping at the end of the week. */
  function DayAfter(day: Day, k: int): (d: Day)
    ensures k == 7 ==> d == day
  {
    (day + k) % 7
  }

  function OpensTodayLine(h: Hours): string {
    "Opens today at " + FormatTime(h.open)
  }

  function NextOpenLine(w: Week, d: Day): string
    requires w[d].Some?
  {
    "Next open: " + DayName(d) + " at " + FormatTime(w[d].value.open)
  }

  /**
    The first offset `k` in `[i, 7]` whose day `DayAfter(day, k)` has hours,
    if there is one.
   */
  function ScanFrom(w: Week, day: Day, i: nat): (r: Option<nat>)
    requires 1 <= i <= 8
    ensures r.Some? ==> i <= r.value <= 7 && w[DayAfter(day, r.value)].Some?
    ensures r.Some? ==> forall k :: i <= k < r.value ==> w[DayAfter(day, k)].None?
    ensures r.None? ==> forall k :: i <= k <= 7 ==> w[DayAfter(day, k)].None?
    decreases 8 - i
  {
    if i == 8 then None
    else if w[DayAfter(day, i)].Some? then Some(i)
    else ScanFrom(w, day, i + 1)
  }

  /** The next-opening line shown while closed. */
  function NextOpening(w: Week, s: Sample): (text: string)
    ensures var today := w[s.day];
      today.Some? && s.minute < today.value.open * 60 ==> text == OpensTodayLine(today.value)
    ensures (forall d :: 0 <= d < 7 ==> w[d].None?) ==> text == "Check back soon"
  {
    var today := w[s.day];
    if today.Some? && s.minute < today.value.open * 60 then
      OpensTodayLine(today.value)
    else
      match ScanFrom(w, s.day, 1)
      case Some(k) => NextOpenLine(w, DayAfter(s.day, k))
      case None => "Check back soon"
  }

  /** The bounded search of the page: at most seven steps, first hit returned. */
  method NextOpenTime(w: Week, s: Sample) returns (text: string)
    ensures text == NextOpening(w, s)
  {
    var today := w[s.day];
    if today.Some? && s.minute < today.value.open * 60 {
      return OpensTodayLine(today.value);
    }
    for i := 1 to 8
      invariant ScanFrom(w, s.day, i) == ScanFrom(w, s.day, 1)
    {
      var next := DayAfter(s.day, i);
      if w[next].Some? {
        return NextOpenLine(w, next);
      }
    }
    return "Check back soon";
  }

  /** Every day of the week is reached by some offset in 1..7. */
  lemma OffsetReaches(day: Day, d: Day) returns (k: nat)
    ensures 1 <= k <= 7 && DayAfter(day, k) == d
  {
    k := if d > day then d - day else d - day + 7;
  }

  /**
    The next-opening line names the first scheduled day after today (today
    itself a week later), unless today's opening is still ahead.
   */
  lemma NextOpeningIsFirst(w: Week, s: Sample)
    requires w[s.day].None? || s.minute >= w[s.day].value.open * 60
    ensures (exists k :: 1 <= k <= 7 && w[DayAfter(s.day, k)].Some?) ==>
      exists k :: 1 <= k <= 7 && w[DayAfter(s.day, k)].Some?
        && (forall j :: 1 <= j < k ==> w[DayAfter(s.day, j)].None?)
        && NextOpening(w, s) == NextOpenLine(w, DayAfter(s.day, k))
  {
    if exists k :: 1 <= k <= 7 && w[DayAfter(s.day, k)].Some? {
      var r := ScanFrom(w, s.day, 1);
      assert r.Some?;
      var k := r.value;
      assert 1 <= k <= 7 && w[DayAfter(s.day, k)].Some?;
    }
  }

  /** "Check back soon" is shown exactly when no day of the week has hours. */
  lemma CheckBackSoonIffNeverOpen(w: Week, s: Sample)
    ensures NextOpening(w, s) == "Check back soon" <==> forall d :: 0 <= d < 7 ==> w[d].None?
  {
    var text := NextOpening(w, s);
    if forall d :: 0 <= d < 7 ==> w[d].None? {
      assert ScanFrom(w, s.day, 1).None?;
    } else {
      var d :| 0 <= d < 7 && w[d].Some?;
      var k := OffsetReaches(s.day, d);
      assert ScanFrom(w, s.day, 1).Some?;
      assert text[0] != 'C';
    }
  }

  // ----- getBusinessStatus -----

  /** The status of the shop at sample `s`. */
  function BusinessStatus(w: Week, s: Sample): (r: Status)
    ensures r.nextChange.None? <==> w[s.day].None?
    ensures r.kind != Closed ==> w[s.day].Some? && (w[s.day].value.open - 1) * 60 <= s.minute
    ensures r.kind == Open || r.kind == ClosingSoon ==> s.minute < w[s.day].value.close * 60
  {
    match w[s.day]
    case None => Status(Closed, "Closed Today", None)
    case Some(h) =>
      var t := s.minute;
      if h.open * 60 <= t < h.close * 60 then
        if t >= (h.close - 1) * 60 then
          Status(ClosingSoon, "Closing in " + NatToString(h.close * 60 - t) + " minutes",
                 Some("Closes at " + FormatTime(h.close)))
        else
          Status(Open, "We're Open!", Some("Closes at " + FormatTime(h.close)))
      else if (h.open - 1) * 60 <= t < h.open * 60 then
        Status(OpeningSoon, "Opening in " + NatToString(h.open * 60 - t) + " minutes",
               Some("Opens at " + FormatTime(h.open)))
      else
        Status(Closed, "Currently Closed", Some(NextOpening(w, s)))
  }

  /** Reference reading of the schedule: is the shop open at minute `t` of a day with hours `h`? */
  predicate OpenAt(h: Hours, t: int) {
    h.open * 60 <= t < h.close * 60
  }

  /** A day without hours is closed all day, with no next-change line. */
  lemma ClosedTodayStatus(w: Week, s: Sample)
    requires w[s.day].None?
    ensures BusinessStatus(w, s) == Status(Closed, "Closed Today", None)
  {
  }

  /**
    The four types follow from looking one hour ahead: open now and in an
    hour is Open, open now but not in an hour is ClosingSoon, closed now but
    open in an hour is OpeningSoon, and otherwise Closed.
   */
  lemma StatusByLookahead(w: Week, s: Sample)
    requires w[s.day].Some? && ValidHours(w[s.day].value)
    ensures var h, t, k := w[s.day].value, s.minute, BusinessStatus(w, s).kind;
      && (k == Open <==> OpenAt(h, t) && OpenAt(h, t + 60))
      && (k == ClosingSoon <==> OpenAt(h, t) && !OpenAt(h, t + 60))
      && (k == OpeningSoon <==> !OpenAt(h, t) && OpenAt(h, t + 60))
      && (k == Closed <==> !OpenAt(h, t) && !OpenAt(h, t + 60))
  {
  }

  /** The open window is half-open: open at the opening minute, not at the closing minute. */
  lemma OpenWindowBoundaries(w: Week, s: Sample)
    requires w[s.day].Some? && ValidHours(w[s.day].value)
    ensures var h := w[s.day].value; s.minute == h.open * 60 ==>
      BusinessStatus(w, s).kind == (if h.open >= h.close - 1 then ClosingSoon else Open)
    ensures var h := w[s.day].value; s.minute == h.close * 60 ==>
      BusinessStatus(w, s).kind == Closed
  {
  }

  /**
    Closing soon is the last hour before closing; the message counts the
    minutes left, between 1 and 60, and the next-change line names the
    closing hour.
   */
  lemma ClosingSoonWindow(w: Week, s: Sample)
    ensures var r := BusinessStatus(w, s);
      r.kind == ClosingSoon <==>
        w[s.day].Some? && w[s.day].value.open * 60 <= s.minute
        && (w[s.day].value.close - 1) * 60 <= s.minute < w[s.day].value.close * 60
    ensures var r := BusinessStatus(w, s);
      r.kind == ClosingSoon ==>
        var close := w[s.day].value.close;
        var n := close * 60 - s.minute;
        && 1 <= n <= 60
        && r.message == "Closing in " + NatToString(n) + " minutes"
        && r.nextChange == Some("Closes at " + FormatTime(close))
  {
  }

  /**
    Opening soon is the last hour before opening; the message counts the
    minutes left, between 1 and 60, and the next-change line names the
    opening hour.
   */
  lemma OpeningSoonWindow(w: Week, s: Sample)
    ensures var r := BusinessStatus(w, s);
      r.kind == OpeningSoon <==>
        w[s.day].Some? && !OpenAt(w[s.day].value, s.minute)
        && (w[s.day].value.open - 1) * 60 <= s.minute < w[s.day].value.open * 60
    ensures var r := BusinessStatus(w, s);
      r.kind == OpeningSoon ==>
        var open := w[s.day].value.open;
        var n := open * 60 - s.minute;
        && 1 <= n <= 60
        && r.message == "Opening in " + NatToString(n) + " minutes"
        && r.nextChange == Some("Opens at " + FormatTime(open))
  {
  }

  /**
    While the shop is open (either type) the next-change line is the closing
    time, and the `open` type says "We're Open!"; when closed on a scheduled
    day it is the next-opening line, and before the opening-soon hour that
    line is today's opening.
   */
  lemma NextChangeLine(w: Week, s: Sample)
    requires w[s.day].Some?
    ensures var r, h := BusinessStatus(w, s), w[s.day].value;
      (r.kind == Open || r.kind == ClosingSoon) ==> r.nextChange == Some("Closes at " + FormatTime(h.close))
    ensures var r := BusinessStatus(w, s);
      r.kind == Open ==> r.message == "We're Open!"
    ensures var r, h := BusinessStatus(w, s), w[s.day].value;
      r.kind == Closed ==> r.message == "Currently Closed" && r.nextChange == Some(NextOpening(w, s))
    ensures var r, h := BusinessStatus(w, s), w[s.day].value;
      s.minute < (h.open - 1) * 60 ==>
        r.kind == Closed && r.nextChange == Some(OpensTodayLine(h))
  {
  }

  // ----- the scenarios on the studio's own schedule -----

  lemma WednesdayEveningClosingSoon()
    ensures BusinessStatus(StudioHours, Sample(3, 19 * 60 + 30))
      == Status(ClosingSoon, "Closing in 30 minutes", Some("Closes at 8PM"))
  {
    assert StudioHours[3] == Some(Hours(11, 20));
    assert NatToString(30) == "30" by { assert NatToString(3) == "3"; }
    assert FormatTime(20) == "8PM" by { assert NatToString(8) == "8"; }
    assert "Closing in " + "30" + " minutes" == "Closing in 30 minutes";
    assert "Closes at " + "8PM" == "Closes at 8PM";
  }

  lemma WednesdayNoonOpen()
    ensures BusinessStatus(StudioHours, Sample(3, 12 * 60))
      == Status(Open, "We're Open!", Some("Closes at 8PM"))
  {
    assert StudioHours[3] == Some(Hours(11, 20));
    assert FormatTime(20) == "8PM" by { assert NatToString(8) == "8"; }
    assert "Closes at " + "8PM" == "Closes at 8PM";
  }

  lemma SundayNoonOpeningSoon()
    ensures BusinessStatus(StudioHours, Sample(0, 12 * 60 + 30))
      == Status(OpeningSoon, "Opening in 30 minutes", Some("Opens at 1PM"))
  {
    assert StudioHours[0] == Some(Hours(13, 18));
    assert NatToString(30) == "30" by { assert NatToString(3) == "3"; }
    assert FormatTime(13) == "1PM" by { assert NatToString(1) == "1"; }
    assert "Opening in " + "30" + " minutes" == "Opening in 30 minutes";
    assert "Opens at " + "1PM" == "Opens at 1PM";
  }

  lemma MondayMorningClosed()
    ensures BusinessStatus(StudioHours, Sample(1, 9 * 60))
      == Status(Closed, "Currently Closed", Some("Opens today at 11AM"))
  {
    assert StudioHours[1] == Some(Hours(11, 20));
    FormatTimeTable();
    assert "Opens today at " + "11AM" == "Opens today at 11AM";
  }

  lemma SundayEveningClosed()
    ensures BusinessStatus(StudioHours, Sample(0, 19 * 60))
      == Status(Closed, "Currently Closed", Some("Next open: Monday at 11AM"))
  {
    assert StudioHours[0] == Some(Hours(13, 18));
    assert StudioHours[1] == Some(Hours(11, 20));
    FormatTimeTable();
    assert ScanFrom(StudioHours, 0, 1) == Some(1);
    assert "Next open: " + "Monday" + " at " + "11AM" == "Next open: Monday at 11AM";
  }
}
