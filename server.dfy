/** The calendar feed: walk the months from one year before the current month to one year
    after it, fetch each month through the memoized month fetcher, and collect every event
    in window order. */
module Server {
  import KvMemo
  import opened CalendarMonth

  /** A local date: year, month (1 to 12) and day of the month. */
  datatype Date = Date(year: nat, month: nat, day: nat)

  predicate IsLeapYear(y: int) {
    y % 4 == 0 && (y % 100 != 0 || y % 400 == 0)
  }

  function DaysInMonth(y: int, m: int): (n: int)
    requires 1 <= m <= 12
    ensures 28 <= n <= 31
  {
    if m == 2 then (if IsLeapYear(y) then 29 else 28)
    else if m == 4 || m == 6 || m == 9 || m == 11 then 30
    else 31
  }

  predicate ValidDate(d: Date) {
    1 <= d.month <= 12 && 1 <= d.day <= DaysInMonth(d.year, d.month)
  }

  /** Months since January of year 0: `year * 12 + (month - 1)`. */
  function MonthIndex(d: Date): int {
    d.year * 12 + d.month - 1
  }

  function Min(a: int, b: int): int {
    if a <= b then a else b
  }

  /** `d.plus({ years: n })`: the same month and day `n` years on, the day clamped to the
      length of that month (29 February becomes 28 February). */
  function PlusYears(d: Date, n: int): (r: Date)
    requires ValidDate(d) && d.year + n >= 0
    ensures ValidDate(r) && MonthIndex(r) == MonthIndex(d) + 12 * n && r.month == d.month
    ensures r.day == Min(d.day, DaysInMonth(r.year, r.month))
  {
    Date(d.year + n, d.month, Min(d.day, DaysInMonth(d.year + n, d.month)))
  }

  /** `d.plus({ months: n })`: the same day `n` months on, clamped to that month's length. */
  function PlusMonths(d: Date, n: int): (r: Date)
    requires ValidDate(d) && MonthIndex(d) + n >= 0
    ensures ValidDate(r) && MonthIndex(r) == MonthIndex(d) + n
    ensures r.day == Min(d.day, DaysInMonth(r.year, r.month))
  {
    var i := MonthIndex(d) + n;
    Date(i / 12, i % 12 + 1, Min(d.day, DaysInMonth(i / 12, i % 12 + 1)))
  }

  /** `d.startOf("month")`. */
  function StartOfMonth(d: Date): Date {
    Date(d.year, d.month, 1)
  }

  /** `a <= b` on two dates at the same time of day. */
  predicate NotAfter(a: Date, b: Date) {
    a.year < b.year || (a.year == b.year && (a.month < b.month || (a.month == b.month && a.day <= b.day)))
  }

  /** `d` is the first day of a month. */
  predicate FirstOfMonth(d: Date) {
    1 <= d.month <= 12 && d.day == 1
  }

  /** On first days of months, date order is month-index order. */
  lemma NotAfterMonthStarts(a: Date, b: Date)
    requires FirstOfMonth(a) && FirstOfMonth(b)
    ensures NotAfter(a, b) <==> MonthIndex(a) <= MonthIndex(b)
  {
  }

  /** The year and month can be read back from the month index. */
  lemma MonthIndexDecode(d: Date)
    requires ValidDate(d)
    ensures MonthIndex(d) / 12 == d.year && MonthIndex(d) % 12 + 1 == d.month
  {
  }

  /** The first day of the month one year before `now`. */
  function WindowStart(now: Date): Date
    requires ValidDate(now) && now.year >= 1
  {
    StartOfMonth(PlusYears(now, -1))
  }

  /** The first day of the month one year after `now`. */
  function WindowEnd(now: Date): Date
    requires ValidDate(now)
  {
    StartOfMonth(PlusYears(now, 1))
  }

  /** Both ends of the window are the first of a month, twelve months before and after
      the current month, whatever the day of the month. */
  lemma WindowEnds(now: Date)
    requires ValidDate(now) && now.year >= 1
    ensures ValidDate(WindowStart(now)) && FirstOfMonth(WindowStart(now))
    ensures ValidDate(WindowEnd(now)) && FirstOfMonth(WindowEnd(now))
    ensures MonthIndex(WindowStart(now)) == MonthIndex(now) - 12
    ensures MonthIndex(WindowEnd(now)) == MonthIndex(now) + 12
  {
  }

  // Decimal formatting, as `toFormat("yyyy")` and `toFormat("LL")` do it.

  predicate IsDigits(s: string) {
    forall i :: 0 <= i < |s| ==> '0' <= s[i] <= '9'
  }

  function DigitChar(d: nat): (ch: char)
    requires d < 10
    ensures '0' <= ch <= '9' && ch as int - '0' as int == d
  {
    ('0' as int + d) as char
  }

  /** The decimal digits of `n`, most significant first, without leading zeros. */
  function Digits(n: nat): string
    decreases n
  {
    if n < 10 then [DigitChar(n)] else Digits(n / 10) + [DigitChar(n % 10)]
  }

  /** `s` preceded by as many '0' as make it `width` long. */
  function ZeroPad(s: string, width: nat): string
    decreases width - |s|
  {
    if |s| >= width then s else ZeroPad(['0'] + s, width)
  }

  /** The number a string of decimal digits denotes. */
  function DecimalValue(s: string): nat
    requires IsDigits(s)
  {
    if s == [] then 0 else DecimalValue(s[..|s| - 1]) * 10 + (s[|s| - 1] as int - '0' as int)
  }

  function Pow10(k: nat): nat {
    if k == 0 then 1 else 10 * Pow10(k - 1)
  }

  /** `toFormat("yyyy")`: the year padded to at least four digits. */
  function FormatYear(y: nat): string {
    ZeroPad(Digits(y), 4)
  }

  /** `toFormat("LL")`: the month padded to at least two digits. */
  function FormatMonth(m: nat): string {
    ZeroPad(Digits(m), 2)
  }

  lemma {:induction false} DigitsRoundTrip(n: nat)
    ensures IsDigits(Digits(n)) && DecimalValue(Digits(n)) == n
    decreases n
  {
    if n >= 10 {
      DigitsRoundTrip(n / 10);
      var s := Digits(n);
      assert s[..|s| - 1] == Digits(n / 10);
    }
  }

  lemma {:induction false} DigitsLength(n: nat, k: nat)
    requires 1 <= k && n < Pow10(k)
    ensures |Digits(n)| <= k
    decreases k
  {
    if n >= 10 {
      DigitsLength(n / 10, k - 1);
    }
  }

  /** A leading zero does not change a decimal value. */
  lemma {:induction false} LeadingZero(s: string)
    requires IsDigits(s)
    ensures IsDigits(['0'] + s) && DecimalValue(['0'] + s) == DecimalValue(s)
    decreases |s|
  {
    if s != [] {
      var t := ['0'] + s;
      assert t[..|t| - 1] == ['0'] + s[..|s| - 1];
      LeadingZero(s[..|s| - 1]);
    }
  }

  lemma {:induction false} ZeroPadValue(s: string, width: nat)
    requires IsDigits(s)
    ensures IsDigits(ZeroPad(s, width)) && DecimalValue(ZeroPad(s, width)) == DecimalValue(s)
    ensures |ZeroPad(s, width)| == if |s| >= width then |s| else width
    decreases width - |s|
  {
    if |s| < width {
      LeadingZero(s);
      ZeroPadValue(['0'] + s, width);
    }
  }

  /** A year up to 9999 is written with exactly four digits, and reads back as itself. */
  lemma FormatYearRoundTrip(y: nat)
    requires y <= 9999
    ensures |FormatYear(y)| == 4 && IsDigits(FormatYear(y)) && DecimalValue(FormatYear(y)) == y
  {
    DigitsRoundTrip(y);
    DigitsLength(y, 4);
    ZeroPadValue(Digits(y), 4);
  }

  /** A month is written with exactly two digits, "01" to "12", and reads back as itself. */
  lemma FormatMonthRoundTrip(m: nat)
    requires 1 <= m <= 12
    ensures |FormatMonth(m)| == 2 && IsDigits(FormatMonth(m)) && DecimalValue(FormatMonth(m)) == m
  {
    DigitsRoundTrip(m);
    DigitsLength(m, 2);
    ZeroPadValue(Digits(m), 2);
  }

  // The window.

  /** The number of months fetched: from twelve months back to twelve months ahead. */
  const WindowMonths := 25

  /** `d.plus({ months: 1 })` on the first day of a month: the first day of the next month. */
  function NextMonth(d: Date): (r: Date)
    requires FirstOfMonth(d)
    ensures FirstOfMonth(r) && MonthIndex(r) == MonthIndex(d) + 1
  {
    if d.month == 12 then Date(d.year + 1, 1, 1) else Date(d.year, d.month + 1, 1)
  }

  /** On the first day of a month, adding a month with clamping is moving to the next month. */
  lemma NextMonthIsPlusMonths(d: Date)
    requires FirstOfMonth(d)
    ensures ValidDate(d) && PlusMonths(d, 1) == NextMonth(d)
  {
    MonthIndexDecode(NextMonth(d));
  }

  /** The first day of the month `k` months after the month of `start`. */
  function MonthAfter(start: Date, k: nat): (d: Date)
    requires FirstOfMonth(start)
    ensures FirstOfMonth(d) && MonthIndex(d) == MonthIndex(start) + k
  {
    if k == 0 then start else NextMonth(MonthAfter(start, k - 1))
  }

  /** The first days of `n` consecutive months from the month of `start`. */
  function MonthStarts(start: Date, n: nat): (ds: seq<Date>)
    requires FirstOfMonth(start)
    ensures |ds| == n
  {
    if n == 0 then [] else MonthStarts(start, n - 1) + [MonthAfter(start, n - 1)]
  }

  /** Element `k` of the run is the month `k` months after the first. */
  lemma {:induction false} MonthStartsAt(start: Date, n: nat)
    requires FirstOfMonth(start)
    ensures forall k :: 0 <= k < n ==> MonthStarts(start, n)[k] == MonthAfter(start, k)
  {
    if n > 0 {
      MonthStartsAt(start, n - 1);
    }
  }

  /** The first days of the window's months, from twelve months back to twelve months ahead. */
  function WindowDates(now: Date): seq<Date>
    requires ValidDate(now) && now.year >= 1
  {
    WindowEnds(now);
    MonthStarts(WindowStart(now), WindowMonths)
  }

  /** The memoized fetch for the month of `d`: the calendar id, the year and the month. */
  function MonthRequest(id: string, d: Date): seq<string> {
    [id, FormatYear(d.year), FormatMonth(d.month)]
  }

  /** The fetches for the months of `ds`, in order. */
  function MonthRequests(id: string, ds: seq<Date>): (rs: seq<seq<string>>)
    ensures |rs| == |ds| && forall k :: 0 <= k < |ds| ==> rs[k] == MonthRequest(id, ds[k])
  {
    seq(|ds|, k requires 0 <= k < |ds| => MonthRequest(id, ds[k]))
  }

  /** The fetches of a request made at `now`, in the order they are issued. */
  function WindowRequests(id: string, now: Date): seq<seq<string>>
    requires ValidDate(now) && now.year >= 1
  {
    MonthRequests(id, WindowDates(now))
  }

  /** The window's fetches: 25 of them, each with the unchanged id, a four-digit year and a
      month "01" to "12", whose decoded month index is the window start plus the position,
      so they are in strictly ascending month order and no month is fetched twice. */
  lemma WindowRequestsShape(id: string, now: Date)
    requires ValidDate(now) && 1 <= now.year <= 9998
    ensures |WindowRequests(id, now)| == 25
    ensures forall k :: 0 <= k < 25 ==>
      var r := WindowRequests(id, now)[k];
      && |r| == 3 && r[0] == id
      && |r[1]| == 4 && IsDigits(r[1]) && |r[2]| == 2 && IsDigits(r[2])
      && 1 <= DecimalValue(r[2]) <= 12
      && DecimalValue(r[1]) * 12 + DecimalValue(r[2]) - 1 == MonthIndex(now) - 12 + k
    ensures forall k, l :: 0 <= k < l < 25 ==> WindowRequests(id, now)[k] != WindowRequests(id, now)[l]
  {
    var w := WindowRequests(id, now);
    WindowEnds(now);
    MonthStartsAt(WindowStart(now), WindowMonths);
    forall k | 0 <= k < 25
      ensures var r := w[k];
        && |r| == 3 && r[0] == id
        && |r[1]| == 4 && IsDigits(r[1]) && |r[2]| == 2 && IsDigits(r[2])
        && 1 <= DecimalValue(r[2]) <= 12
        && DecimalValue(r[1]) * 12 + DecimalValue(r[2]) - 1 == MonthIndex(now) - 12 + k
    {
      var d := MonthAfter(WindowStart(now), k);
      FormatYearRoundTrip(d.year);
      FormatMonthRoundTrip(d.month);
    }
  }

  /** All events of `months`, month after month. */
  function Flatten(months: seq<seq<Event>>): seq<Event> {
    if months == [] then [] else Flatten(months[..|months| - 1]) + months[|months| - 1]
  }

  /** Months are concatenated in order, without removing anything. */
  lemma {:induction false} FlattenAppend(a: seq<seq<Event>>, b: seq<seq<Event>>)
    ensures Flatten(a + b) == Flatten(a) + Flatten(b)
    decreases |b|
  {
    if b == [] {
      assert a + b == a;
    } else {
      var b0 := b[..|b| - 1];
      assert (a + b)[..|a + b| - 1] == a + b0;
      FlattenAppend(a, b0);
    }
  }

  lemma FlattenSnoc(months: seq<seq<Event>>, month: seq<Event>)
    ensures Flatten(months + [month]) == Flatten(months) + month
  {
    assert (months + [month])[..|months|] == months;
  }

  /** The number of events is the sum of the months' counts. */
  function TotalCount(months: seq<seq<Event>>): nat {
    if months == [] then 0 else TotalCount(months[..|months| - 1]) + |months[|months| - 1]|
  }

  lemma {:induction false} FlattenCount(months: seq<seq<Event>>)
    ensures |Flatten(months)| == TotalCount(months)
    decreases |months|
  {
    if months != [] {
      FlattenCount(months[..|months| - 1]);
    }
  }

  /** The replies of `f` to `requests`, in order. */
  function Replies(f: seq<string> -> seq<Event>, requests: seq<seq<string>>): (rs: seq<seq<Event>>)
    ensures |rs| == |requests| && forall k :: 0 <= k < |requests| ==> rs[k] == f(requests[k])
  {
    seq(|requests|, k requires 0 <= k < |requests| => f(requests[k]))
  }

  /** Adding a month to the dates adds that month's request. */
  lemma RequestsSnoc(id: string, ds: seq<Date>, d: Date)
    ensures MonthRequests(id, ds + [d]) == MonthRequests(id, ds) + [MonthRequest(id, d)]
  {
  }

  /** Fetching one more month through the memoizer appends that call's reply to the events
      and leaves the store that call leaves. */
  lemma CollectedSnoc(salt: string, fn: seq<string> -> seq<Event>, codec: KvMemo.Codec<seq<Event>, KvMemo.Bytes>,
                      expireIn: int, store: KvMemo.Store, id: string, ds: seq<Date>, d: Date, clock: int)
    ensures var prev := KvMemo.MemoRun(salt, fn, codec, expireIn, store, MonthRequests(id, ds), clock, clock);
      var reply := KvMemo.Memo(salt, fn, codec, expireIn, prev.store, MonthRequest(id, d), clock, clock);
      var run := KvMemo.MemoRun(salt, fn, codec, expireIn, store, MonthRequests(id, ds + [d]), clock, clock);
      Flatten(run.results) == Flatten(prev.results) + reply.result && run.store == reply.store
  {
    var prev := KvMemo.MemoRun(salt, fn, codec, expireIn, store, MonthRequests(id, ds), clock, clock);
    var reply := KvMemo.Memo(salt, fn, codec, expireIn, prev.store, MonthRequest(id, d), clock, clock);
    RequestsSnoc(id, ds, d);
    KvMemo.MemoRunSnoc(salt, fn, codec, expireIn, store, MonthRequests(id, ds), MonthRequest(id, d), clock, clock);
    FlattenSnoc(prev.results, reply.result);
  }

  /** With a round-tripping codec and a coherent store, the memoized window gives the events
      of the fetcher's own replies, and the store stays coherent. */
  lemma CalendarTransparent(salt: string, fn: seq<string> -> seq<Event>, codec: KvMemo.Codec<seq<Event>, KvMemo.Bytes>,
                            expireIn: int, store: KvMemo.Store, id: string, now: Date, clock: int)
    requires ValidDate(now) && now.year >= 1
    requires KvMemo.RoundTrips(codec) && KvMemo.Coherent(salt, fn, codec, store)
    ensures var run := KvMemo.MemoRun(salt, fn, codec, expireIn, store, WindowRequests(id, now), clock, clock);
      Flatten(run.results) == Flatten(Replies(fn, WindowRequests(id, now)))
      && KvMemo.Coherent(salt, fn, codec, run.store)
  {
    var requests := WindowRequests(id, now);
    KvMemo.MemoRunTransparent(salt, fn, codec, expireIn, store, requests, clock, clock);
    var run := KvMemo.MemoRun(salt, fn, codec, expireIn, store, requests, clock, clock);
    assert run.results == Replies(fn, requests);
  }

  /** `generate_calendar(id)`: `now` is the local date of the request and `clock` the time in
      milliseconds that the cache sees for every month. Each month of the window goes through
      the memoized month fetcher, in window order, and the calendar holds its replies' events
      month after month. On a valid memoizer those replies are the fetcher's own. */
  method GenerateCalendar(m: KvMemo.Memoizer<seq<Event>>, id: string, now: Date, clock: int)
    returns (calendar: seq<Event>)
    requires ValidDate(now) && now.year >= 1
    modifies m.kv
    ensures var run := KvMemo.MemoRun(m.salt, m.fn, m.codec, m.expireIn, old(m.kv.data),
                                      WindowRequests(id, now), clock, clock);
      calendar == Flatten(run.results) && m.kv.data == run.store
    ensures old(m.Valid()) ==> m.Valid() && calendar == Flatten(Replies(m.fn, WindowRequests(id, now)))
  {
    ghost var store0 := m.kv.data;
    ghost var valid0 := m.Valid();
    var startDate := WindowStart(now);
    var endDate := WindowEnd(now);
    WindowEnds(now);
    calendar := [];
    ghost var dates: seq<Date> := [];
    ghost var n: nat := 0;
    var currentDate := startDate;
    NotAfterMonthStarts(currentDate, endDate);
    while NotAfter(currentDate, endDate)
      invariant FirstOfMonth(currentDate) && n <= WindowMonths
      invariant currentDate == MonthAfter(startDate, n) && dates == MonthStarts(startDate, n)
      invariant NotAfter(currentDate, endDate) <==> n < WindowMonths
      invariant var run := KvMemo.MemoRun(m.salt, m.fn, m.codec, m.expireIn, store0,
                                          MonthRequests(id, dates), clock, clock);
        calendar == Flatten(run.results) && m.kv.data == run.store
      decreases WindowMonths - n
    {
      var year := FormatYear(currentDate.year);
      var month := FormatMonth(currentDate.month);
      CollectedSnoc(m.salt, m.fn, m.codec, m.expireIn, store0, id, dates, currentDate, clock);
      var sub, calls := m.Call([id, year, month], clock, clock);
      calendar := AddEvents(calendar, sub);
      dates, n := dates + [currentDate], n + 1;
      currentDate := NextMonth(currentDate);
      NotAfterMonthStarts(currentDate, endDate);
    }
    if valid0 {
      CalendarTransparent(m.salt, m.fn, m.codec, m.expireIn, store0, id, now, clock);
    }
  }

  /** `calendar.createEvent(event)` for each event of a month, in order. */
  method AddEvents(calendar: seq<Event>, events: seq<Event>) returns (result: seq<Event>)
    ensures result == calendar + events
  {
    result := calendar;
    for j := 0 to |events|
      invariant result == calendar + events[..j]
    {
      assert events[..j + 1] == events[..j] + [events[j]];
      result := result + [events[j]];
    }
    assert events[..|events|] == events;
  }
}
