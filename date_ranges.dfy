/** The date-range strings of the event listing ("Mon, Jan 08, 2024 @ 02:00 PM - 03:00 PM"
    or "Wed, Mar 05, 2025") and their split into an all-day or a timed range. */
module DateRanges {
  import opened Wrappers
  import opened JsString

  /** What `DateTime.fromFormat(text, format, { zone })` returns. The date library is not
      modelled: a parsed date-time is kept as the text and the format it was parsed from,
      so two results are equal exactly when they were parsed from equal inputs. */
  datatype DateTime = FromFormat(text: string, format: string)

  /** The two shapes of a parsed range; an all-day range has no end. */
  datatype DateRange =
    | Timed(start: DateTime, end: DateTime)
    | AllDay(start: DateTime)

  const DateSeparator := " @ "
  const TimeSeparator := " - "
  const AllDayFormat := "EEE, MMM dd, yyyy"
  const TimedFormat := "EEE, MMM dd, yyyy hh:mm a"
  /** How a template literal renders a missing array element. */
  const Undefined := "undefined"

  /** Element `n` of an array destructuring `const [p0, p1] = parts`. */
  function Element(parts: seq<string>, n: nat): (e: string)
    ensures n >= |parts| ==> e == Undefined
  {
    if n < |parts| then parts[n] else Undefined
  }

  /** The end-time text: what follows the first " - " of the time range, up to a second
      one; "undefined" when the time range holds no " - ". */
  function EndTimeText(range: string): string {
    match Tail(range, TimeSeparator)
    case Some(t) => Head(t, TimeSeparator)
    case None => Undefined
  }

  /** `parseDateRange`: no " @ " gives an all-day range; otherwise the date before the first
      " @ " is joined by one space to the start and to the end time of the range that
      follows it, and both are parsed with the same timed format. */
  function ParseDateRange(s: string): (r: DateRange)
    ensures r.AllDay? <==> !Includes(s, DateSeparator)
    ensures r.AllDay? ==> r.start == FromFormat(s, AllDayFormat)
    ensures r.Timed? ==>
      var date := Head(s, DateSeparator);
      var range := Head(Tail(s, DateSeparator).value, DateSeparator);
      && r.start == FromFormat(date + " " + Head(range, TimeSeparator), TimedFormat)
      && r.end == FromFormat(date + " " + EndTimeText(range), TimedFormat)
  {
    if !Includes(s, DateSeparator) then
      AllDay(FromFormat(s, AllDayFormat))
    else
      var parts := Split(s, DateSeparator);
      var dateStr, timeRangeStr := parts[0], parts[1];
      var times := Split(timeRangeStr, TimeSeparator);
      var startTimeStr, endTimeStr := times[0], Element(times, 1);
      Timed(FromFormat(dateStr + " " + startTimeStr, TimedFormat),
            FromFormat(dateStr + " " + endTimeStr, TimedFormat))
  }

  /** The text the listing shows for a timed event. */
  function TimedText(date: string, startTime: string, endTime: string): string {
    date + DateSeparator + startTime + TimeSeparator + endTime
  }

  /** Parsing inverts `TimedText` when the date has no '@' and the times have neither
      '@' nor '-': the start and the end are each the date, one space, and their time. */
  lemma {:induction false} ParseTimedText(date: string, startTime: string, endTime: string)
    requires '@' !in date && '@' !in startTime && '@' !in endTime
    requires '-' !in startTime && '-' !in endTime
    ensures ParseDateRange(TimedText(date, startTime, endTime))
         == Timed(FromFormat(date + " " + startTime, TimedFormat),
                  FromFormat(date + " " + endTime, TimedFormat))
  {
    var range := startTime + TimeSeparator + endTime;
    var s := TimedText(date, startTime, endTime);
    assert s == date + DateSeparator + range;
    assert s[|date|..|date| + 3] == DateSeparator;
    forall j | 0 <= j < |s| && s[j] == DateSeparator[1] ensures j == |date| + 1 {
    }
    IndexOfAtMarker(s, DateSeparator, |date|);
    assert Head(s, DateSeparator) == date;
    assert Tail(s, DateSeparator) == Some(range);
    NotIncludesWithoutChar(range, DateSeparator, 1);
    assert range[|startTime|..|startTime| + 3] == TimeSeparator;
    forall j | 0 <= j < |range| && range[j] == TimeSeparator[1] ensures j == |startTime| + 1 {
    }
    IndexOfAtMarker(range, TimeSeparator, |startTime|);
    assert Head(range, TimeSeparator) == startTime;
    assert Tail(range, TimeSeparator) == Some(endTime);
    NotIncludesWithoutChar(endTime, TimeSeparator, 1);
  }

  /** A date without '@' is an all-day range parsed with the all-day format. */
  lemma ParseAllDayText(date: string)
    requires '@' !in date
    ensures ParseDateRange(date) == AllDay(FromFormat(date, AllDayFormat))
  {
    NotIncludesWithoutChar(date, DateSeparator, 1);
  }

  /** The all-day example of the listing's date strings. */
  lemma AllDayExample()
    ensures ParseDateRange("Wed, Mar 05, 2025") == AllDay(FromFormat("Wed, Mar 05, 2025", AllDayFormat))
  {
    ParseAllDayText("Wed, Mar 05, 2025");
  }
}
