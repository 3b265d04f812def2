/** One month of the event listing: build the month's URL, fetch the page, and turn each
    listed item into a calendar event, skipping the items that lack a title or a date
    label or that fail, and the whole month when the page cannot be had. */
module CalendarMonth {
  import opened Wrappers
  import opened DateRanges
  import KvMemo

  /** The fields of one listed item, as the page offers them: the text and `href` of the
      title link, the date label, the text of the map link and the details block. `None`
      is an element or attribute the item does not have. */
  datatype RawRecord = RawRecord(
    title: Option<string>,
    href: Option<string>,
    dateTime: Option<string>,
    location: Option<string>,
    details: Option<string>)

  /** What fetching and parsing a month page gives: a failure of the request or of the HTML
      parser, a page without an `#events` container, or the container's items in document order. */
  datatype Page = Unavailable | NoListing | Listing(records: seq<RawRecord>)

  /** A calendar event: the parsed range and the summary, location, description and URL fields. */
  datatype Event = Event(
    range: DateRange,
    summary: string,
    location: Option<string>,
    description: Option<string>,
    url: Option<string>)

  /** The code the month fetcher calls but that is not modelled: the remote site (URL to page),
      `new URL(relative, base)` (`None` when it throws) and whether the calendar library's
      `createEvent` accepts an event (`false` when it throws). */
  datatype Collaborators = Collaborators(
    fetchPage: string -> Page,
    resolveUrl: (string, string) -> Option<string>,
    accepts: Event -> bool)

  const UrlPrefix := "https://viterbi.usc.edu/calendar/?month&calendar="
  const DateParameter := "&date="

  /** The month page: the calendar `id`, then the date `<month>/01/<year>`. */
  function MonthUrl(id: string, year: string, month: string): string {
    UrlPrefix + id + DateParameter + month + "/01/" + year
  }

  /** With a 4-character year and a 2-character month, the URL determines the request. */
  lemma MonthUrlInjective(id: string, year: string, month: string, id': string, year': string, month': string)
    requires |year| == |year'| == 4 && |month| == |month'| == 2
    requires MonthUrl(id, year, month) == MonthUrl(id', year', month')
    ensures id == id' && year == year' && month == month'
  {
    var u, u' := MonthUrl(id, year, month), MonthUrl(id', year', month');
    var p := |UrlPrefix|;
    assert |id| == |id'|;
    assert id == u[p..p + |id|] == u'[p..p + |id|] == id';
    var q := p + |id| + |DateParameter|;
    assert month == u[q..q + 2] == u'[q..q + 2] == month';
    assert year == u[q + 6..] == u'[q + 6..] == year';
  }

  /** JavaScript truthiness of an optional string: present and not empty. */
  predicate Truthy(s: Option<string>) {
    s.Some? && s.value != ""
  }

  /** The absolute link of an item: its `href` resolved against the page URL, absent when
      the `href` is missing or empty. */
  function Link(c: Collaborators, url: string, rec: RawRecord): Option<string> {
    if Truthy(rec.href) then c.resolveUrl(rec.href.value, url) else None
  }

  /** Resolving the item's `href` throws. */
  predicate LinkThrows(c: Collaborators, url: string, rec: RawRecord) {
    Truthy(rec.href) && c.resolveUrl(rec.href.value, url).None?
  }

  /** The event an item yields, or `None` when it is skipped: its link throws, its title or
      its date label is missing or empty, or the calendar library refuses the event. */
  function ToEvent(c: Collaborators, url: string, rec: RawRecord): (e: Option<Event>)
    ensures e.Some? ==> Truthy(rec.title) && Truthy(rec.dateTime) && !LinkThrows(c, url, rec)
    ensures e.Some? ==> c.accepts(e.value)
    ensures e.Some? ==>
      && e.value.range == ParseDateRange(rec.dateTime.value)
      && e.value.summary == rec.title.value
      && e.value.location == rec.location
      && e.value.description == rec.details
      && e.value.url == Link(c, url, rec)
    ensures e.Some? && !Truthy(rec.href) ==> e.value.url.None?
  {
    if LinkThrows(c, url, rec) then None
    else if !(Truthy(rec.title) && Truthy(rec.dateTime)) then None
    else
      var event := Event(ParseDateRange(rec.dateTime.value), rec.title.value, rec.location,
                         rec.details, Link(c, url, rec));
      if c.accepts(event) then Some(event) else None
  }

  /** The item is well formed and handled without an error. */
  predicate Produces(c: Collaborators, url: string, rec: RawRecord) {
    !LinkThrows(c, url, rec) && Truthy(rec.title) && Truthy(rec.dateTime)
    && c.accepts(Event(ParseDateRange(rec.dateTime.value), rec.title.value, rec.location,
                       rec.details, Link(c, url, rec)))
  }

  lemma ToEventSomeIff(c: Collaborators, url: string, rec: RawRecord)
    ensures ToEvent(c, url, rec).Some? <==> Produces(c, url, rec)
  {
  }

  /** The values present in `os`, in order. */
  function Present<T>(os: seq<Option<T>>): (xs: seq<T>)
    ensures |xs| <= |os|
  {
    if os == [] then []
    else Present(os[..|os| - 1]) + (if os[|os| - 1].Some? then [os[|os| - 1].value] else [])
  }

  lemma {:induction false} PresentAppend<T>(a: seq<Option<T>>, b: seq<Option<T>>)
    ensures Present(a + b) == Present(a) + Present(b)
    decreases |b|
  {
    if b == [] {
      assert a + b == a;
    } else {
      var b0 := b[..|b| - 1];
      assert (a + b)[..|a + b| - 1] == a + b0;
      PresentAppend(a, b0);
    }
  }

  /** `Present(os)` lists the values of exactly the present elements of `os`, in order:
      `idx` holds their positions in increasing order. */
  lemma {:induction false} PresentSelects<T>(os: seq<Option<T>>) returns (idx: seq<nat>)
    ensures |idx| == |Present(os)|
    ensures forall k, l :: 0 <= k < l < |idx| ==> idx[k] < idx[l]
    ensures forall k :: 0 <= k < |idx| ==> idx[k] < |os| && os[idx[k]] == Some(Present(os)[k])
    ensures forall i :: 0 <= i < |os| && os[i].Some? ==> i in idx
  {
    if os == [] {
      idx := [];
    } else {
      var n := |os| - 1;
      var front := os[..n];
      var idx0 := PresentSelects(front);
      var xs0 := Present(front);
      assert forall i :: 0 <= i < n ==> front[i] == os[i];
      if os[n].Some? {
        idx := idx0 + [n];
        assert Present(os) == xs0 + [os[n].value];
      } else {
        idx := idx0;
        assert Present(os) == xs0;
      }
      forall k | 0 <= k < |idx| ensures idx[k] < |os| && os[idx[k]] == Some(Present(os)[k]) {
        if k < |idx0| {
          assert idx[k] == idx0[k] && Present(os)[k] == xs0[k];
        }
      }
      forall i | 0 <= i < |os| && os[i].Some? ensures i in idx {
        if i < n {
          assert front[i].Some? && i in idx0;
        }
      }
    }
  }

  /** What each item yields, in document order. */
  function Outcomes(c: Collaborators, url: string, rs: seq<RawRecord>): (os: seq<Option<Event>>)
    ensures |os| == |rs| && forall i :: 0 <= i < |rs| ==> os[i] == ToEvent(c, url, rs[i])
  {
    seq(|rs|, i requires 0 <= i < |rs| => ToEvent(c, url, rs[i]))
  }

  /** The events of the items `rs`: those that yield one, in document order. */
  function Kept(c: Collaborators, url: string, rs: seq<RawRecord>): seq<Event> {
    Present(Outcomes(c, url, rs))
  }

  /** The events of one month: none when the page is unavailable or has no listing. */
  function MonthEvents(c: Collaborators, id: string, year: string, month: string): seq<Event> {
    var url := MonthUrl(id, year, month);
    match c.fetchPage(url)
    case Listing(records) => Kept(c, url, records)
    case _ => []
  }

  /** An item that fails affects only itself: the events of a concatenation are the
      concatenation of the events. */
  lemma KeptAppend(c: Collaborators, url: string, a: seq<RawRecord>, b: seq<RawRecord>)
    ensures Kept(c, url, a + b) == Kept(c, url, a) + Kept(c, url, b)
  {
    var oa, ob := Outcomes(c, url, a), Outcomes(c, url, b);
    var o := Outcomes(c, url, a + b);
    forall i | 0 <= i < |o| ensures o[i] == (oa + ob)[i] {
      if i < |a| {
        assert (a + b)[i] == a[i];
      } else {
        assert (a + b)[i] == b[i - |a|];
      }
    }
    assert o == oa + ob;
    PresentAppend(oa, ob);
  }

  /** The month's events are exactly the events of the items that yield one, in document
      order: `idx` lists those items' positions in increasing order. */
  lemma KeptSelects(c: Collaborators, url: string, rs: seq<RawRecord>) returns (idx: seq<nat>)
    ensures |idx| == |Kept(c, url, rs)|
    ensures forall k, l :: 0 <= k < l < |idx| ==> idx[k] < idx[l]
    ensures forall k :: 0 <= k < |idx| ==> idx[k] < |rs| && ToEvent(c, url, rs[idx[k]]) == Some(Kept(c, url, rs)[k])
    ensures forall i :: 0 <= i < |rs| && ToEvent(c, url, rs[i]).Some? ==> i in idx
  {
    idx := PresentSelects(Outcomes(c, url, rs));
  }

  /** `generate_calendar_month(id, year, month)`. */
  method GenerateCalendarMonth(c: Collaborators, id: string, year: string, month: string)
    returns (events: seq<Event>)
    ensures events == MonthEvents(c, id, year, month)
    ensures !c.fetchPage(MonthUrl(id, year, month)).Listing? ==> events == []
  {
    var url := MonthUrl(id, year, month);
    events := [];
    var page := c.fetchPage(url);
    if page.Listing? {
      var records := page.records;
      for i := 0 to |records|
        invariant events == Kept(c, url, records[..i])
      {
        assert records[..i + 1] == records[..i] + [records[i]];
        KeptAppend(c, url, records[..i], [records[i]]);
        var e := ToEvent(c, url, records[i]);
        if e.Some? {
          events := events + [e.value];
        }
      }
      assert records[..|records|] == records;
    }
  }

  /** The salt under which month results are cached. */
  const MonthSalt := "generate_calendar_month"

  /** `expire_time`: thirty minutes on the hosted deployment, ten seconds elsewhere. */
  function ExpireTime(isDenoDeploy: bool): (ms: int)
    ensures ms == 1800000 || ms == 10000
    ensures isDenoDeploy <==> ms == 1800000
  {
    if isDenoDeploy then 1000 * 60 * 30 else 1000 * 10
  }

  /** `generate_calendar_month_`: the month fetcher memoized under its salt, with the
      deployment's expire time. */
  method MemoizedMonthFetcher(kv: KvMemo.Kv, c: Collaborators, codec: KvMemo.Codec<seq<Event>, KvMemo.Bytes>,
                              isDenoDeploy: bool)
    returns (m: KvMemo.Memoizer<seq<Event>>)
    ensures fresh(m) && m.kv == kv && m.codec == codec
    ensures m.salt == MonthSalt && m.expireIn == ExpireTime(isDenoDeploy)
    ensures forall id, year, month :: m.fn([id, year, month]) == MonthEvents(c, id, year, month)
    ensures forall xs :: m.fn(xs) == MonthEvents(c, Element(xs, 0), Element(xs, 1), Element(xs, 2))
    ensures KvMemo.RoundTrips(codec) && (forall xs :: KvMemo.MemoKey(MonthSalt, xs) !in kv.data) ==> m.Valid()
  {
    m := new KvMemo.Memoizer(kv, MonthSalt, xs => MonthEvents(c, Element(xs, 0), Element(xs, 1), Element(xs, 2)),
                             codec, ExpireTime(isDenoDeploy));
  }
}
