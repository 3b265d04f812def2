# viterbi-ical: the fetch, cache and aggregate core in Dafny

viterbi-ical serves a calendar feed built from the month pages of the USC Viterbi event
listing. A request for a calendar id walks a window of 25 months, from the month one year
before today to the month one year after it. Each month goes through a memoized fetcher.
That fetcher builds the month's URL, reads the listed items and turns each usable item into
a calendar event. Results are cached in a key-value store under `[salt, id, year, month]`
and expire after a configured age. This project models four pieces of that pipeline and
proves what they promise.

- `KvMemo` (kv_memo.ts). The TTL memoizer `kv_memoize` / `inner` is a `Memoizer` class over a
  `Kv` class, whose `map` field is the store.
  - The clock is an explicit input: `now` is the time an entry's age is checked, and
    `storedAt` is the time a new entry is written.
  - The JSON, UTF-8 and gzip stages form a `Codec` pair. Their round trip is a hypothesis
    (`RoundTrips`), and `PayloadRoundTrips` composes it from the three stages.
  - The recursive method `Inner` is proved equal to the specification function `Memo`.
    `Memo` folds the path "expired, delete, look up again" into the miss path, so the
    producer runs at most once.
  - `Call` behaves as `Memo` says, and a valid memoizer is transparent: it returns what the
    producer gives. `MemoRun` specifies calls made one after another on the same store.
- `CalendarMonth` (generate_calendar_month.ts, parameters.ts). The month fetcher is an
  imperative loop over the page's items. Three collaborators are inputs to it: the remote
  site, URL resolution and the calendar library's acceptance of an event. The loop is proved
  equal to `MonthEvents`, and the lemmas state which items yield events and in what order.
  The memoized wrapper uses the salt "generate_calendar_month" and the deployment's expire
  time.
- `Server` (server.ts, `generate_calendar` only). The window loop over first-of-month dates
  calls the memoized fetcher with a four-digit year and a two-digit month. The calendar and
  the store afterwards are proved to be those of the memoized calls for the window's 25
  requests, made in window order. On a valid memoizer, the calendar is the concatenation of
  the fetcher's own replies.
- `DateRanges` and `JsString` (parse_daterange.ts). `parseDateRange` is modelled with the
  JavaScript semantics of `includes`, `split` and array destructuring, including the
  "undefined" that a template literal writes for a missing element. The date library's
  `fromFormat` is kept symbolic as `FromFormat(text, format)`.

## Model

| member | source | states |
|---|---|---|
| JsString.IndexOfFrom | parse_daterange.ts:19 | the result is the first position at or after `from` where the separator occurs, and `None` only when it occurs nowhere there |
| JsString.IncludesIff | parse_daterange.ts:19 | `includes` holds exactly when the separator occurs somewhere in the string |
| JsString.Head | parse_daterange.ts:25-26 | element 0 of a split is the prefix of the input that ends where the separator first occurs (all of the input when it does not occur), and it does not contain the separator |
| JsString.Tail | parse_daterange.ts:25-26 | there is a remainder exactly when the separator occurs; the input is head + separator + remainder |
| JsString.Split | parse_daterange.ts:25-26 | a split has at least one part; it has a second part exactly when the separator occurs; part 0 is the text before the first separator and part 1 the text up to the next one |
| JsString.JoinSplit | parse_daterange.ts:25-26 | joining the parts of a split with the separator gives back the input |
| JsString.SplitPartsFree | parse_daterange.ts:25-26 | no part of a split contains the separator |
| DateRanges.ParseDateRange | parse_daterange.ts:16-44 | all-day exactly when " @ " does not occur, parsed with "EEE, MMM dd, yyyy"; otherwise timed, with start and end each parsed from the date before the first " @ ", one space, and the start or end time of the range, using "EEE, MMM dd, yyyy hh:mm a" |
| DateRanges.ParseTimedText | parse_daterange.ts:24-42 | the listing's "date @ start - end" text parses to the timed range whose start and end share the date prefix |
| DateRanges.ParseAllDayText | parse_daterange.ts:19-23 | a date without "@" parses to the all-day range of that date |
| DateRanges.AllDayExample | parse_daterange.ts:19-23 | "Wed, Mar 05, 2025" is an all-day range |
| KvMemo.MemoKeyInjective | kv_memo.ts:15 | two calls share an entry if and only if their salts and arguments are equal |
| KvMemo.ThenRoundTrips | kv_memo.ts:28-37 | decoding in reverse order undoes a chain of encoders when each stage round-trips |
| KvMemo.PayloadRoundTrips | kv_memo.ts:28-37 | gunzip, decode and parse undo stringify, encode and gzip when each stage does |
| KvMemo.HitSkipsProducer | kv_memo.ts:17-31 | an entry with a generation time and an age of at most `expireIn` (equal counts as fresh) is decoded and returned; the producer does not run and the store is unchanged |
| KvMemo.MissRunsProducerOnce | kv_memo.ts:20-41 | a missing entry, or one with no generation time or an age above `expireIn`, makes the producer run exactly once; its result is returned unchanged; the key then maps to the encoded result generated at `storedAt`; no other key changes |
| KvMemo.HitAfterStore | kv_memo.ts:20-40 | a second call no later than `expireIn` after a miss is a hit that returns the same value without running the producer or changing the store |
| KvMemo.MemoTransparent | kv_memo.ts:14-43 | with a round-tripping codec and coherent entries, every call returns the producer's value for its arguments and leaves the store coherent |
| KvMemo.MemoStoreStep | kv_memo.ts:14-43 | one call, hit or miss, adds its own key to the store if missing and changes no other key |
| KvMemo.MemoRunKeys | kv_memo.ts:14-43 | after calls made one after another, the keys are exactly those there before and those of the calls; every key no call uses keeps its entry |
| KvMemo.MemoRunTransparent | kv_memo.ts:14-43 | with a round-tripping codec and coherent entries, every call of a sequence of calls returns the producer's value for its arguments, and the store stays coherent |
| KvMemo.Kv.constructor | kv_memo.ts:3 | the opened store holds whatever entries it held before, from earlier runs included |
| KvMemo.Kv.Get | kv_memo.ts:16 | the lookup finds an entry exactly when the key is present, and returns that entry |
| KvMemo.Kv.Set | kv_memo.ts:40 | the key maps to the new entry; every other key is unchanged |
| KvMemo.Kv.Delete | kv_memo.ts:25 | the key is removed; every other key is unchanged |
| KvMemo.Memoizer.constructor | kv_memo.ts:9-13 | the memoizer keeps the store, salt, producer, codec and expiry; the expiry defaults to 10000 ms |
| KvMemo.Memoizer.Inner | kv_memo.ts:14-43 | the result, the new store and the number of producer runs are those of `Memo`: a fresh hit decodes, an expired entry is deleted and recomputed, a miss produces and stores |
| KvMemo.Memoizer.Call | kv_memo.ts:44 | the memoized function: the result, the new store and the number of producer runs are those of `Memo`; if the memoizer was valid, it returns the producer's value and stays valid |
| CalendarMonth.MonthUrlInjective | generate_calendar_month.ts:21-23 | with a four-character year and a two-character month, the URL "…calendar=<id>&date=<month>/01/<year>" determines id, year and month |
| CalendarMonth.ToEvent | generate_calendar_month.ts:33-55 | an item yields an event only with a non-empty title and date label, a link that resolves and an event the library accepts; the event's range is the parsed label, and its summary, location, description and url are the title, location, details and link; no href means no url |
| CalendarMonth.ToEventSomeIff | generate_calendar_month.ts:45 | an item yields an event if and only if it is well formed and nothing throws for it |
| CalendarMonth.KeptAppend | generate_calendar_month.ts:31-59 | the events of a concatenation of items are the concatenation of their events, so a failing item affects only itself |
| CalendarMonth.KeptSelects | generate_calendar_month.ts:31-59 | the month's events are exactly the events of the items that yield one, at strictly increasing item positions |
| CalendarMonth.GenerateCalendarMonth | generate_calendar_month.ts:11-65 | the loop returns `MonthEvents`; an unavailable page or one without a listing yields no events |
| CalendarMonth.MemoizedMonthFetcher | generate_calendar_month.ts:66-70 | a new memoizer over the given store with salt "generate_calendar_month" and the deployment's expire time, whose producer is the month fetcher, with "undefined" for a missing argument; with a round-tripping codec and no entry yet under the salt, it is valid |
| Server.PlusYears | server.ts:39-40 | adding years keeps a valid date with the same month, moves the month index by 12 per year, and keeps the day clamped to the length of the target month |
| Server.PlusMonths | server.ts:63 | adding months keeps a valid date, moves the month index by that many months, and keeps the day clamped to the length of the target month |
| Server.WindowEnds | server.ts:38-40 | the window starts on the first day of the month 12 months before today's month and ends on the first day of the month 12 months after it |
| Server.NotAfterMonthStarts | server.ts:48 | on first days of months, `currentDate <= endDate` is month-index order |
| Server.NextMonth | server.ts:63 | one step of the loop moves to the first day of the next month |
| Server.NextMonthIsPlusMonths | server.ts:63 | on the first day of a month, the clamping `plus({ months: 1 })` is that step |
| Server.MonthAfter | server.ts:47-63 | the `k`th date of the loop is a first day whose month index is the start's plus `k` |
| Server.MonthStartsAt | server.ts:47-63 | the dates visited are the months after the start, in order |
| Server.DigitsRoundTrip | server.ts:49-50 | decimal digits read back as the number written |
| Server.FormatYearRoundTrip | server.ts:49 | a year up to 9999 is written with exactly four digits and reads back as itself |
| Server.FormatMonthRoundTrip | server.ts:50 | a month is written with exactly two digits, "01" to "12", and reads back as itself |
| Server.WindowRequestsShape | server.ts:47-63 | there are 25 requests; each has the unchanged id, a four-digit year and a two-digit month from 1 to 12; the month index each denotes is the window start plus its position, so the months ascend strictly and none repeats |
| Server.FlattenAppend | server.ts:59-61 | concatenating months concatenates their events, without removing any |
| Server.FlattenCount | server.ts:59-61 | the number of events is the sum of the months' counts, so nothing is de-duplicated |
| Server.CollectedSnoc | server.ts:52-61 | fetching one more month through the memoizer appends exactly that call's reply to the events, and leaves the store as that call leaves it |
| Server.RequestsSnoc | server.ts:47-56 | visiting one more month adds exactly that month's request, after the others |
| Server.CalendarTransparent | server.ts:37-71 | with a round-tripping codec and coherent entries, the memoized window gives the events of the fetcher's own replies, in window order, and the store stays coherent |
| Server.AddEvents | server.ts:59-61 | adding a month's events appends them in their order |
| Server.GenerateCalendar | server.ts:37-71 | each month of the window is a call of the memoized fetcher, in window order, on the store the previous call left; the calendar is the concatenation of those replies and the store is the one the last call leaves; on a valid memoizer the calendar is the fetcher's own replies, concatenated, and the memoizer stays valid |

## Left out

- The HTTP front end (routes, static page, headers, port) is plumbing and is not modelled.
- `DateTime.now()` and the time zone are inputs. `now` is a local calendar date. `clock` is the millisecond time that the memoizer sees. All 25 monthly calls of one request use the same `clock`.
- Deno KV is a `map` held by the `Kv` class. The store's own `{ expireIn }` eviction is a second mechanism and is not modelled. Store failures are not modelled either.
- JSON, `TextEncoder`/`TextDecoder` and gzip are an abstract `Codec`. Its round trip is a hypothesis of `Memoizer.Valid`, not a proved fact.
- `fetch`, the HTML parser and the CSS selections are not modelled. The month's page is a `Page` value: unavailable, no listing, or the already extracted fields of each item. `new URL(...)` and the calendar library's `createEvent` are inputs that may fail for an item.
- The date library's parsing is symbolic (`FromFormat`). Invalid dates, time zones and the 12-hour clock are not modelled.
- The iCalendar serialization is not modelled. That covers `toJSON`, `ical(json)`, `toString` and `length`. A calendar is the sequence of its events, and the round trip from a month's JSON back to its events is taken as the identity.
- Logging and concurrent requests sharing the store are not modelled.
- shared.ts (the time zone constant) is not part of this model.
- Memoizer.Call: the value returned equals the producer's only when the memoizer was valid, that is, the codec round-trips and every entry under the salt holds the encoding of the producer's value. In other words, the remote site is treated as a fixed snapshot while cached; without that, the contract gives the reply as `Memo` does.
- Server.GenerateCalendar: the calendar is the fetcher's own replies only when the memoizer was valid, as for `Memoizer.Call`; without that, the contract gives the replies as `MemoRun` does.
- Server.GenerateCalendar: the loop advances with `NextMonth`, which `NextMonthIsPlusMonths` proves equal to `plus({ months: 1 })` on first days of months.
- Server.GenerateCalendar: years are natural numbers and `now` is in year 1 or later.
- Server.WindowRequestsShape: the four-digit year holds only up to year 9998 for `now`, because "yyyy" writes five digits from year 10000.
- Store read failures: a failing `kv.get` rejects the whole call; the model has no store errors.
