# gst-log-viewer query engine, in Dafny

This project models the query engine of gst-log-viewer, a web viewer for
GStreamer debug logs. An uploaded log becomes a *session*: a list of parsed
entries (timestamp in nanoseconds, process id, thread, level, category,
file, line, function, message, and an optional object name). Three HTTP
handlers read a session:

- `get_logs` filters the entries and returns one page of the result.
- `get_timeline` filters them the same way and counts them per fixed-width
  time bucket.
- `get_filter_options` lists the distinct values of every field a filter can
  constrain.

The modules follow the source:

- `Models` (`models.dfy`): the entry, the `LogFilter` record and its serde
  defaults, the response records, `SerializableEntry::from`, and the
  error and reply shapes.
- `Text` (`text.dfy`): `str::trim` (Unicode White_Space), `ends_with`, and
  decimal digit strings.
- `Filter` (`filter.dfy`): the filter closure that both `get_logs` and
  `get_timeline` contain, and the order-preserving selection it makes.
- `Query` (`query.dfy`): pagination and `get_logs`.
- `Timeline` (`timeline.dfy`): interval parsing, unit conversion, min and
  max, the bucket map and the sort.
- `Options` (`options.dfy`): `get_filter_options`.

Abstractions and modelling choices:

- The regular-expression engine is a parameter, `Filter.Regex`. It says
  whether a pattern compiles and whether a compiled pattern matches a text.
- The display format of a `ClockTime` is a parameter `U64 -> string`.
- The session table is a parameter `map<string, seq<Entry>>`.
- The `categories` values of the raw query string are a parameter.
- What axum's query extractor produced is a parameter: the parsed fields, or
  the text of its rejection.
- Integers are unbounded. Where 64-bit arithmetic can wrap, the model says
  so: a release build is assumed, where arithmetic wraps modulo 2^64.
- An integer division by zero in the source is the reply `Panicked`. This
  happens for `per_page=0`, and for a bucket width of zero once an entry is
  bucketed.
- Level names are the derived `Debug` rendering of gstreamer's `DebugLevel`:
  `"Error"`, `"Warning"`, `"Fixme"`, `"Info"`, `"Debug"`, `"Log"`, `"Trace"`
  and `"Memdump"`. A GStreamer log line shows the level as the upper-case
  tag `DEBUG`, but the filter compares `format!("{:?}", entry.level)`, the
  `Debug` name `"Debug"`, case-sensitively. A `level=DEBUG` request therefore
  selects nothing (`Filter.UpperCaseLevelSelectsNothing`).
- A page past the end is empty. As written, `end - start` (query.rs:208)
  wraps around in that case. Nothing is left after `skip(start)`, though,
  so `take` of any count gives the empty page. `Query.PageSlice` therefore
  returns `[]` there, and `Query.PageSliceAsWritten` shows the wrapped
  count explicitly.
- `HashMap` and `HashSet` iteration order is not modelled:
  - The timeline's bucket vector is specified by its unique sorted result.
    `Timeline.HistogramUnique` proves it unique.
  - Each options list is specified as a duplicate-free listing of a set, in
    any order.

## Model

| member | source | states |
|---|---|---|
| Models.LevelNameInjective | src/models/mod.rs:120 | distinct levels render as distinct `Debug` names, so a rendered name identifies its level |
| Models.Deserialize | src/models/mod.rs:49-78 | absent `page` becomes 1, absent `per_page` 100, absent `use_microseconds` false; the skipped `categories` start empty; every other field is copied |
| Models.FromEntryInjective | src/models/mod.rs:114-128 | the conversion formats the timestamp with the display function, copies pid, thread, category, file, line, function, message and object unchanged, and renders the level by name; two entries with equal timestamps convert alike exactly when they are equal |
| Models.Render | src/handlers/query.rs:205-210 | the page is converted entry by entry, in order, one output per entry |
| Text.TrimIsCore | src/handlers/query.rs:105 | `trim` keeps a contiguous piece of the input with no white space at either end, and cuts off only white space |
| Text.TrimIdempotent | src/handlers/query.rs:105 | trimming a trimmed string changes nothing |
| Filter.CategoryFound | src/handlers/query.rs:97-124 | the category loop sets `found` exactly when some listed category equals the entry's category, exactly or after trimming |
| Filter.EntryPasses | src/handlers/query.rs:78-177 | the closure, early returns in order, accepts an entry exactly when every present criterion holds: level by name, categories, message regex, pid, thread, object, function regex |
| Filter.Filtered | src/handlers/query.rs:76-178 | the result is no longer than the input and every entry in it passes |
| Filter.FilterEntries | src/handlers/query.rs:76-178 | the filtering pass computes `Filtered` |
| Filter.FilteredIsSelection | src/handlers/query.rs:76-178 | the result is the subsequence at strictly increasing indices, and an index is selected exactly when its entry passes |
| Filter.PassingIndicesMembership | src/handlers/query.rs:76-178 | an index is selected exactly when its entry passes |
| Filter.PassingIndicesAscending | src/handlers/query.rs:76-178 | the selected indices are strictly increasing, so the selection keeps the entries' order |
| Filter.FilteredAtIndices | src/handlers/query.rs:76-178 | the result has one entry per selected index, and its j-th entry is the entry at the j-th selected index |
| Filter.FilteredMembership | src/handlers/query.rs:76-178 | an entry is in the result exactly when it is in the session and passes |
| Filter.FilteredConcat | src/handlers/query.rs:76-178 | filtering distributes over concatenation of entry lists |
| Filter.FilteredIdempotent | src/handlers/query.rs:76-178 | filtering a filtered list again changes nothing |
| Filter.FilteredNoCriteria | src/handlers/query.rs:76-178 | a filter with no criterion returns every entry in order |
| Filter.LevelCriterionSelectsLevel | src/handlers/query.rs:80-84 | a level criterion holding a level's name passes exactly the entries of that level, i.e. exactly those whose serialized level is that name |
| Filter.UpperCaseLevelSelectsNothing | src/handlers/query.rs:80-84 | the criterion `"DEBUG"` passes no entry, since names compare case-sensitively |
| Filter.CategoryEqIsTrimEq | src/handlers/query.rs:103-116 | a category matches exactly when the two trimmed strings are equal; the exact comparison adds nothing |
| Filter.UncompilableMessageRegexIgnored | src/handlers/query.rs:128-137 | a message pattern that does not compile gives the result of no message criterion |
| Filter.UncompilableFunctionRegexIgnored | src/handlers/query.rs:165-174 | a function pattern that does not compile gives the result of no function criterion |
| Query.ClampPage | src/handlers/query.rs:188 | the page is at least 1, a page of 1 or more is kept, and page 0 becomes 1 |
| Query.ClampPerPage | src/handlers/query.rs:189 | the page size is at most 1000, a size up to 1000 is kept, and a larger size becomes 1000 |
| Query.TotalPages | src/handlers/query.rs:191 | the page count is the ceiling of total over page size: the pages cover the total, one page fewer would not, and it is 0 exactly when there are no entries |
| Query.PageSlice | src/handlers/query.rs:193-210 | the page holds at most `per_page` entries, namely those from offset `(page-1)*per_page` on, as many as remain up to `per_page`, and none past the end |
| Query.PagesArePrefix | src/handlers/query.rs:193-210 | pages 1 to k together are the first `k*per_page` entries |
| Query.PagesReconstruct | src/handlers/query.rs:191-210 | pages 1 to `total_pages` concatenated are the filtered sequence |
| Query.PageEmptyIffBeyondLast | src/handlers/query.rs:191-210 | a page is empty exactly when its number exceeds `total_pages` |
| Query.PageSliceAsWrittenAgrees | src/handlers/query.rs:193-208 | the source's wrapping slice equals `PageSlice` whenever `page*per_page` fits in 64 bits |
| Query.PageOffsetWraps | src/handlers/query.rs:193 | page 2^61+1 of size 8 of a one-entry result is past the only page, yet the source's offset wraps to 0 and returns that entry |
| Query.RequestFilter | src/handlers/query.rs:23-42 | the filter is the deserialized query with its categories replaced by the raw query string's `categories` values, in order |
| Query.GetLogs | src/handlers/query.rs:23-217 | a rejected query is BAD_REQUEST with serde's message, an unknown session NOT_FOUND before any filtering, size 0 a panic; otherwise `total` is the filtered count, `page` the clamped page, `total_pages` their ceiling, and the entries are that page, converted |
| Query.DefaultPaging | src/models/mod.rs:60-63 | with neither `page` nor `per_page` given, the first 100 filtered entries are returned |
| Timeline.ToMilliseconds | src/handlers/timeline.rs:12-15 | nanoseconds to milliseconds, rounding down |
| Timeline.ToMicroseconds | src/handlers/timeline.rs:17-21 | nanoseconds to microseconds, rounding down |
| Timeline.UnitOf | src/handlers/timeline.rs:68-77 | exactly the suffixes `us`, `ms`, `s`, `m` name a unit |
| Timeline.IntervalParts | src/handlers/timeline.rs:53-55 | a match splits the interval into a non-empty digit run and one unit suffix, with nothing else |
| Timeline.IntervalPartsComplete | src/handlers/timeline.rs:53-55 | every digit run followed by a unit suffix matches, with those captures |
| Timeline.ParseInterval | src/handlers/timeline.rs:52-84 | a string outside the pattern is BAD_REQUEST "Invalid interval format: "; a well-formed string succeeds exactly when the digits' value times the unit's microseconds is below 2^64, and is otherwise BAD_REQUEST "Invalid interval value: "; a success is that product |
| Timeline.ParseIntervalRoundTrip | src/handlers/timeline.rs:52-84 | a decimal number followed by a unit parses back to that number of units in microseconds |
| Timeline.ParseIntervalAsWrittenAgrees | src/handlers/timeline.rs:56-72 | the source's wrapping parser agrees with `ParseInterval` whenever the product fits in 64 bits |
| Timeline.IntervalProductWraps | src/handlers/timeline.rs:56-72 | an interval of 2^61 milliseconds (digits of value 2^61, as in `"2305843009213693952ms"`) parses to 0 in the source and is rejected by `ParseInterval` with "Invalid interval value" |
| Timeline.DefaultIntervalIsOneSecond | src/handlers/timeline.rs:29-35 | the default interval `"1s"` parses to 1000000 microseconds |
| Timeline.MicrosecondsIffMicroUnit | src/handlers/timeline.rs:211 | a well-formed interval ends with `us` exactly when its unit is microseconds |
| Timeline.MillisecondWidthExact | src/handlers/timeline.rs:253-255 | in millisecond mode the bucket width times 1000 is the interval, and it is positive for a positive value |
| Timeline.MinOr0 | src/handlers/timeline.rs:214-242 | the minimum is 0 for no timestamps and otherwise a timestamp no larger than any |
| Timeline.MaxOr0 | src/handlers/timeline.rs:214-242 | the maximum is 0 for no timestamps and otherwise a timestamp no smaller than any |
| Timeline.BucketKey | src/handlers/timeline.rs:248-256 | a bucket start lies on the grid of multiples of the width above the minimum, between the minimum and the timestamp, and the timestamp lies within one width of it |
| Timeline.BucketKeys | src/handlers/timeline.rs:247-256 | one bucket start per timestamp, in order |
| Timeline.OccurrencesPositive | src/handlers/timeline.rs:258 | a start has a positive count exactly when some timestamp falls in its bucket |
| Timeline.CountBuckets | src/handlers/timeline.rs:245-259 | the map holds exactly the bucket starts that occur, each with its number of entries |
| Timeline.SortedKeys | src/handlers/timeline.rs:262-268 | the keys listed in strictly ascending order, each once |
| Timeline.SortBuckets | src/handlers/timeline.rs:262-268 | the vector is strictly ascending by start and holds every pair of the map, each once |
| Timeline.Bucketize | src/handlers/timeline.rs:245-268 | counting and sorting yield the timeline of the bucket starts (`IsHistogram`) |
| Timeline.HistogramTotal | src/handlers/timeline.rs:245-268 | the counts add up to the number of filtered entries |
| Timeline.HistogramCoversTimes | src/handlers/timeline.rs:248-259 | every entry's timestamp lies in the interval of some emitted bucket |
| Timeline.HistogramWithinSpan | src/handlers/timeline.rs:248-259 | every bucket starts at or after the given lower bound and at or before the maximum |
| Timeline.HistogramBounds | src/handlers/timeline.rs:214-259 | every timestamp lies in some bucket's interval, and every bucket starts within `[min_timestamp, max_timestamp]` |
| Timeline.HistogramUnique | src/handlers/timeline.rs:262-268 | there is only one timeline of a list of bucket starts, so the sort's output is determined |
| Timeline.AscendingUnique | src/handlers/timeline.rs:268 | two strictly ascending lists with the same elements are equal |
| Timeline.GetTimeline | src/handlers/timeline.rs:87-275 | a rejected query is BAD_REQUEST, an unknown session NOT_FOUND before the interval is parsed, a bad interval BAD_REQUEST, a zero width with entries a panic; otherwise min, max and the histogram of the filtered timestamps |
| Timeline.FiveHundredMillisecondExample | src/handlers/timeline.rs:245-268 | with 500 ms buckets anchored at the minimum 0, entries at 0, 400 and 900 ms give exactly the buckets (0, 2) and (500, 1) |
| Options.CollectMembership | src/handlers/options.rs:67-75 | a value is collected exactly when some entry has it; objects come only from entries that have one |
| Options.ListOf | src/handlers/options.rs:81-87 | the list holds each element of the set exactly once |
| Options.GetFilterOptions | src/handlers/options.rs:13-90 | no `session_id` is BAD_REQUEST, an unknown session NOT_FOUND, an empty session NOT_FOUND, each with its message; otherwise each list is a duplicate-free listing of the values its field takes |
| Options.LevelOptionSelects | src/handlers/options.rs:69 | every offered level, as the only criterion, selects some entry |
| Options.CategoryOptionSelects | src/handlers/options.rs:68 | every offered category, as the only criterion, selects some entry |
| Options.PidOptionSelects | src/handlers/options.rs:70 | every offered pid, as the only criterion, selects some entry |
| Options.ThreadOptionSelects | src/handlers/options.rs:71 | every offered thread, as the only criterion, selects some entry |
| Options.ObjectOptionSelects | src/handlers/options.rs:72-74 | every offered object, as the only criterion, selects some entry |
| Options.LevelOptionsAtMostEight | src/handlers/options.rs:69 | only the eight level names can be offered |

## Left out

- The log-line tokenizer belongs to the external `gst_log_parser` crate and
  is not part of this model. `Entry` is taken as already parsed.
- The regular-expression engine is abstract. So is the `ClockTime` display
  format used for `SerializableEntry.ts`.
- Upload and ingestion (`upload.rs`) are left out. The session table is an
  input.
- The `RwLock` around the session table, and concurrency in general, are
  left out.
- HTTP plumbing is left out: routing, serde's parsing of the query string
  and the text of its rejections, and `url::form_urlencoded` decoding. The
  decoded `categories` values are an input.
- `get_filter_options` reads its query as a map. Which of several
  `session_id` values the extractor keeps is not modelled.
- Logging and `Instant` timing are left out.
- `ApiError` to HTTP response conversion is left out.
- `min_timestamp`, `max_timestamp` and `use_microseconds` are carried in
  `LogFilter` but not applied: no handler uses them.
- `Timeline.IntervalParts`: the pattern's `\d` also matches non-ASCII
  Unicode digits. `parse::<u64>` then rejects those, with "Invalid interval
  value". The model recognises ASCII digits only, so such strings get
  "Invalid interval format".
- The order of the options lists and of the map's iteration is not modelled
  (`HashSet` and `HashMap`).
- `Timeline.SortBuckets` computes the sorted vector by repeatedly taking
  the smallest key. It does not sort a vector in place. Because the keys are
  distinct, the result is the one `sort_by_key` produces.
- Overflow panics of a debug build are not modelled. Wrap-around modulo 2^64
  is modelled only in `Query.PageSliceAsWritten` and
  `Timeline.ParseIntervalAsWritten`. The handlers use the corrected
  `Query.PageSlice` and `Timeline.ParseInterval`. `Query.TotalPages`
  computes `total + per_page - 1` exactly, since that sum cannot leave the
  64-bit range for a list that fits in memory.
- Query.GetLogs: uses the corrected `Query.PageSlice`, so it differs from
  the source when `(page - 1) * per_page` wraps. For
  `page=2305843009213693953&per_page=8` on one filtered entry, the source
  returns that entry while `GetLogs` returns no entries (see ## Findings).
- Timeline.GetTimeline: uses the corrected `Timeline.ParseInterval`, so it
  differs from the source when the interval's microseconds wrap. For
  `interval=2305843009213693952ms` with at least one entry, the source
  divides by zero and panics, while `GetTimeline` is BAD_REQUEST
  "Invalid interval value" (see ## Findings).

## Findings

| source | as written | input that shows it | evidently intended | confidence | as-written member | corrected member |
|---|---|---|---|---|---|---|
| src/handlers/query.rs:193 | `start = (page - 1) * per_page` wraps around modulo 2^64 in a release build | `page=2305843009213693953&per_page=8` on a one-entry result: the offset wraps to 0 and the only entry is returned again | every page past `total_pages` is empty | not executed | Query.PageSliceAsWritten, Query.PageOffsetWraps | Query.PageSlice |
| src/handlers/timeline.rs:70 | `value * 1_000` (and the `s` and `m` products) wrap around modulo 2^64 | `interval=2305843009213693952ms`: parsed as 0 µs, so bucketing any entry divides by zero | an interval whose microseconds exceed the `u64` range is rejected like an oversized value, with "Invalid interval value" | not executed | Timeline.ParseIntervalAsWritten, Timeline.IntervalProductWraps | Timeline.ParseInterval |
