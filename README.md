# Circ monitoring core in Dafny

This is a model of the bookkeeping at the centre of Circ's `app.py`.

Circ watches a camera and runs an object detector on every frame. It
collects the labels seen in a window, and at the end of each sampling
interval it closes the window into an event. Events go into a log that
holds at most 1000 of them. Questions such as "what happened in the last
10 minutes?" are answered by parsing a time range out of the question and
filtering the log.

The model has six modules, one per file:

- `options.dfy`, module `Options`: the `Option` type.
- `counting.dfy`, module `Counting`: a `collections.Counter` of labels, as a map from label to count. It proves that counting a sequence adds each label's number of occurrences.
- `event_log.dfy`, module `EventLog`: the event record, the `deque(maxlen=1000)` append with eviction of the oldest entry, and the inclusive range filter of `query_events`.
- `time_query.dfy`, module `TimeQuery`: `parse_time_query` as a scanner over the characters of the query.
  - It tries the relative grammar `last <digits> (second|minute|hour)s?`, ignoring case, first.
  - Then it tries the absolute grammar `between HH:MM and HH:MM`, with exact case.
  - It gives an interval, no match, the clock error raised by `strptime`, or the overflow raised when the start of a relative interval would fall before `datetime.min`.
- `aggregator.dfy`, module `Aggregator`: the global state of `app.py` as one object, the class `Monitor`.
  - Its fields are the window set, the running totals, the event log, the sampling interval and the time of the last flush.
  - Its methods are the steps that change them: one detection, one frame, the flush of `update_frontend`, the camera loop, and `set_interval`.
- `queries.dfy`, module `Queries`: the `/query_events` handler without its transport. That is the empty-query guard, the parse and the filter.

Clock readings are integer seconds passed in by the caller:

- `now` stands for `time.time()` and `datetime.now()`.
- `stamp` stands for the flush timestamp at second precision.
- `stamp`, and so every event timestamp, and the times of `TimeQuery` are all seconds counted from `datetime.min` (0001-01-01 00:00:00), so the filter of `query_events` compares them on one scale. `MaxTime` is `datetime.max` (9999-12-31 23:59:59).
- A calendar day is 86400 seconds, and `Midnight(now)` is `now.date()`.

## Model

| member | source | states |
|---|---|---|
| Counting.Increment | app.py:50 | `c[label] += 1` adds the label to the keys, raises its count by one, and leaves every other count alone |
| Counting.CountAll | app.py:47-50 | the totals after the labels of a batch are counted one after the other; what that means is stated by `CountAllCounts`, `CountAllGrows` and `CountAllConcat` below |
| Counting.CountAllCounts | app.py:47-50 | after counting a sequence of labels, the known labels are the old ones plus those of the sequence, and each count has grown by the label's number of occurrences (duplicates in one frame each count) |
| Counting.CountAllGrows | app.py:50 | counting never lowers a count and never forgets a label |
| Counting.CountAllConcat | app.py:47-50 | counting two batches one after the other is the same as counting them together |
| Counting.CounterOfDistinct | app.py:90 | a Counter built from the labels of a set has exactly those labels as keys, each with count 1 |
| EventLog.Append | app.py:81 | an append leaves at most 1000 events with the new one last; below capacity the log just grows, and at capacity only the oldest event is dropped and the order of the rest is kept |
| EventLog.AppendAll | app.py:81 | the log after a run of flushes, each appending one event to the bounded deque; what that means is stated by `AppendAllKeepsNewest`, `NewestConcat`, `OverflowDropsOldest` and `AppendAllSnoc` |
| EventLog.AppendAllKeepsNewest | app.py:20 | any number of appends to a log within capacity leaves exactly the newest 1000 of all events, in order |
| EventLog.NewestConcat | app.py:20 | trimming to capacity before further appends makes no difference once trimmed again |
| EventLog.OverflowDropsOldest | app.py:20 | appending 1001 events to an empty log keeps all but the first |
| EventLog.AppendAllSnoc | app.py:81 | a run of appends followed by one more append is the longer run |
| EventLog.Query | app.py:137 | the filter returns no more events than are stored, and an event is in the answer exactly when it is stored and `start <= timestamp <= end` |
| EventLog.QueryConcat | app.py:137 | the filter keeps stored order: filtering a concatenation concatenates the filtered parts |
| EventLog.QueryMultiplicity | app.py:137 | a qualifying event is returned as many times as it is stored, and any other event never |
| EventLog.QueryAll | app.py:137 | when every stored event qualifies, the filter returns the whole log |
| EventLog.QueryIdempotent | app.py:137 | filtering the answer again with the same bounds changes nothing |
| EventLog.QueryAfterAppend | app.py:137 | one appended event shows up at the end of the answer exactly when it qualifies |
| TimeQuery.RelativeAt | app.py:152 | the relative pattern at one position: `last `, a digit run, a space and a unit word, in any ASCII case; what that means is stated by `RelativeMatch`, `RelativeGroups`, `DigitRun`, `UnitAt` and `NoLetterLNoRelative` |
| TimeQuery.AbsoluteAt | app.py:167 | the absolute pattern at one position, `between dd:dd and dd:dd` with exact case; what that means is stated by `AbsoluteQueryMatch` and `NoLetterBNoAbsolute` |
| TimeQuery.Decimal | app.py:154 | `int()` of the digit run, read in base 10; `DecimalShowNat` states that it inverts `str` on every natural number |
| TimeQuery.DigitRun | app.py:152 | `\d+` is greedy: it takes every digit, and the character after the run is not a digit |
| TimeQuery.DecimalShowNat | app.py:154 | `int(str(n)) == n` for every natural number n |
| TimeQuery.UnitAt | app.py:152 | the unit found is the one whose word starts there, ignoring case, and none is found exactly when none of the three words starts there |
| TimeQuery.RelativeGroups | app.py:154-155 | the amount group of a relative match is a non-empty run of digits |
| TimeQuery.Search | app.py:152 | `re.search` finds the leftmost position where the pattern matches, and finds nothing exactly when it matches nowhere |
| TimeQuery.SearchFailsEverywhere | app.py:153 | a failed search means that the grammar matches at no position |
| TimeQuery.RelativeRange | app.py:162-163 | `end_time - delta` gives an interval of exactly the span that ends now exactly when its start is not before `datetime.min`, and the overflow otherwise |
| TimeQuery.AbsoluteRange | app.py:168-175 | the two clocks of an absolute match read through `strptime` on today's date, with the end moved a day on when it is earlier; what that means is stated by `ParseAbsoluteCase`, `AbsoluteRoundTrip`, `ExampleOvernight` and `ExampleHourOutOfRange` |
| TimeQuery.Parse | app.py:148-178 | `parse_time_query`; what it promises is stated by `ParseOutcome`, `ParseFirstRelative`, `ParseFirstAbsolute`, `RelativeRoundTrip` and `AbsoluteRoundTrip` |
| TimeQuery.Midnight | app.py:171 | the start of today is at most `now`, less than a day before it, and a whole number of days |
| TimeQuery.ParseOutcome | app.py:148-178 | the parse result: a relative match anywhere wins and gives an interval ending now, or the overflow; the overflow comes only from a relative match and the clock error only from an absolute one; without a relative match, an absolute match gives an interval starting today and spanning less than a day, or the clock error; no match exactly when neither grammar matches anywhere; every interval is ordered |
| TimeQuery.ParseRelativeCase | app.py:153-164 | once the relative search succeeds, the result is an ordered interval ending now, or the overflow |
| TimeQuery.ParseAbsoluteCase | app.py:166-176 | with no relative match and an absolute match, the result is the clock error or an interval that starts today and spans less than a day |
| TimeQuery.RelativeMatch | app.py:152 | `last `, a digit run, a space and a unit word, in any case, form a relative match whose groups are that digit run and that unit |
| TimeQuery.ParseFirstRelative | app.py:152-164 | the leftmost relative match decides the result: `(now - N*u, now)` with u being 1, 60 or 3600 seconds, or the overflow when `N*u` reaches back before `datetime.min` |
| TimeQuery.RelativeRoundTrip | app.py:152-164 | `last <n> <unit>`, after any text without an `l` and before any text at all, parses to `(now - n*u, now)` when `n*u <= now`, and to the overflow otherwise |
| TimeQuery.NoLetterLNoRelative | app.py:152 | a query without the letter l has no relative match |
| TimeQuery.NoLetterBNoAbsolute | app.py:167 | a query without a lower-case b has no absolute match |
| TimeQuery.AbsoluteQueryMatch | app.py:167 | `between HH:MM and HH:MM` placed in any text matches there, and both clocks read back as written |
| TimeQuery.ParseFirstAbsolute | app.py:166-176 | without a relative match, the leftmost absolute match decides the result |
| TimeQuery.AbsoluteRoundTrip | app.py:167-176 | `between A and B`, with no relative match around it, parses to today's A..B, moved to tomorrow's B when B is earlier than A, or to the clock error when A or B is not a valid 24-hour time |
| TimeQuery.NoLettersNoMatch | app.py:177-178 | a query with neither an l nor a b parses to no interval |
| TimeQuery.ExampleLastTenMinutes | app.py:152-164 | `last 10 minutes` is `(now - 600, now)` for any clock reading at least ten minutes after `datetime.min` |
| TimeQuery.ExampleQuestion | app.py:152-164 | `What happened in the last 10 minutes?` is `(now - 600, now)` for any clock reading at least ten minutes after `datetime.min` |
| TimeQuery.ExampleUpperCase | app.py:152 | `LAST 2 HOURS` is `(now - 7200, now)`: the relative grammar ignores case |
| TimeQuery.ExampleBetween | app.py:167-176 | `between 14:00 and 15:00` is today 14:00 to 15:00 |
| TimeQuery.ExampleBetweenInQuestion | app.py:167-176 | `What happened between 14:00 and 15:00?` is today 14:00 to 15:00 |
| TimeQuery.ExampleOvernight | app.py:174-175 | `between 23:00 and 01:00` is today 23:00 to tomorrow 01:00 |
| TimeQuery.ExampleHourOutOfRange | app.py:171-172 | `between 25:00 and 01:00` raises the clock error |
| TimeQuery.ExampleUnrelated | app.py:177-178 | `what happened yesterday` parses to no interval |
| TimeQuery.ExampleCapitalBetween | app.py:167 | `Between 14:00 and 15:00` parses to no interval: the absolute grammar keeps case |
| TimeQuery.ExampleRelativeWins | app.py:152-164 | in `between 14:00 and 15:00 or the last 5 minutes` the relative grammar wins: `(now - 300, now)` |
| TimeQuery.ExampleBeforeYearOne | app.py:162-163 | at every clock reading up to `datetime.max`, `last 100000000 hours` reaches back before `datetime.min` and overflows |
| Aggregator.LabelsOf | app.py:48 | the labels of a frame are the detections' `obj[0]`, one per detection, in order |
| Aggregator.ListOf | app.py:79 | `list(set)` holds every element of the set exactly once and nothing else |
| Aggregator.Monitor.constructor | app.py:20-34 | start-up: empty window, totals and log, interval 60 seconds, last flush at the start time |
| Aggregator.Monitor.Observe | app.py:48-50 | one detection adds its label to the window and raises its total by one; nothing else changes |
| Aggregator.Monitor.Record | app.py:47-50 | a frame's labels all join the window, and the totals become the old totals counted on with every label of the frame; the log, interval and clock are unchanged |
| Aggregator.Monitor.UpdateFrontend | app.py:72-105 | a flush appends one event stamped now that lists the window's labels exactly once each (even when the window is empty); it reports counts with exactly the window's labels, each 1, together with the unchanged totals; then it empties the window |
| Aggregator.Monitor.ProcessFrame | app.py:44-56 | after recording a frame, a flush happens exactly when `now - last_update_time >= sampling_frequency`; it logs one event with the window's labels once each, reports exactly those labels, each counted 1, and afterwards the last flush is at now; otherwise the window keeps growing and the log and clock stay as they were; the totals count the frame either way |
| Aggregator.Monitor.Stream | app.py:38-56 | the camera loop processes frames up to the first failed read and stops there; its flushes (the frame each was made at, its stamp, the labels it closed and the totals it reported, in order) and the window, clock and totals it leaves are exactly those of the schedule `Sample` of the frames read, from the old window, clock, interval and totals; the log is the old log with one event per flush appended, and each flush matches its event and its update: the same timestamp, the closed labels as the event's labels and as the keys of the update's counts, each counted 1, and the flush's totals as the update's totals; a flush made at frame j reports the old totals plus every detection of the frames up to and including j, a frame that was read; the totals left count every detection of every frame read; there is at most one flush per frame; when nothing was flushed, the window holds every label read and the log and clock are unchanged |
| Aggregator.Monitor.Feed | app.py:44-56 | one pass of the camera loop: the frame's detections are counted in the totals; a flush happens exactly when `now - last_update_time >= sampling_frequency`; it adds the flush made at this frame, with the frame's stamp, the old window plus the frame's labels and the totals after the frame, together with one logged event and one reported update that match it, then empties the window and sets the clock to the frame's `now`; without it the window gains the frame's labels and the log, clock, flushes and updates stay; either way the loop state it leaves continues the same schedule `SampleFrom` from the next frame |
| Aggregator.SampleFrom | app.py:47-56 | the flush schedule of the camera loop as values: each frame read adds its labels to the window and its detections to the totals, and when the interval has elapsed since the last flush the window is closed at the frame's index with its stamp and the totals, and the clock restarts; what it yields is stated by `SampleKeepsAcc`, `SampleNoFlush`, `SampleCovers`, `SampleCounts` and `SampleTotals` |
| Aggregator.SampleKeepsAcc | app.py:54-56 | later frames never undo a flush: the schedule only adds flushes after those already made |
| Aggregator.SampleNoFlush | app.py:47-56 | a schedule without a flush leaves the window holding every label read and the clock unchanged |
| Aggregator.SampleCovers | app.py:47-56 | no label is lost or invented: the windows flushed and the window left open together hold exactly the old window's labels and those of every frame read, and each flushed window is made of them |
| Aggregator.SampleCounts | app.py:47-50 | the totals a run leaves are the totals before it counted on with every detection of every frame read, whether or not windows were flushed on the way |
| Aggregator.SampleTotals | app.py:47-56 | each flush reports `dict(total_object_counts)` as it stands after the frame the flush was made at: the totals before the run plus every detection of the frames up to and including that frame, which comes before the first frame not read |
| Aggregator.Monitor.SetInterval | app.py:180-187 | a new interval takes effect, restarts the clock at now and empties the window, while the totals and the log are kept; a value `int()` rejects changes nothing |
| Queries.QueryEvents | app.py:116-146 | the handler as written; what each query gets is stated by `QueryEventsOutcome` |
| Queries.QueryEventsRecovered | app.py:129-131 | the handler with both errors that escape it answered by the fixed message instead; `RecoveredNeverFails` states how it relates to the handler as written |
| Queries.QueryEventsOutcome | app.py:116-146 | the guard answers exactly the missing or empty queries; an unparsed query gets the fixed message; the clock error and the overflow escape as a failure, and exactly they do; a summary covers exactly the interval the parse gave, which is ordered, and holds the log filtered to it, that is exactly the stored events inside it; a query with a relative match is summarised up to now unless the parse overflows |
| Queries.UnmatchedNotUnderstood | app.py:130-131 | a query that neither grammar matches anywhere gets the fixed message |
| Queries.ExampleLastTenMinutesReply | app.py:128-137 | the help text's example question is answered from the events of the last ten minutes |
| Queries.ExampleOutOfRangeFails | app.py:171-172 | `between 25:00 and 01:00` makes the handler fail instead of answering |
| Queries.ExampleBeforeYearOneFails | app.py:162-163 | `last 100000000 hours` makes the handler fail instead of answering, at every clock reading up to `datetime.max` |
| Queries.RecoveredNeverFails | app.py:130-131 | the corrected handler never fails: it gives the fixed message where the handler as written fails, and agrees with it everywhere else |
| Queries.ExampleOutOfRangeRecovered | app.py:130-131 | the corrected handler answers `between 25:00 and 01:00` with the fixed message |
| Queries.ExampleBeforeYearOneRecovered | app.py:129-131 | the corrected handler answers `last 100000000 hours` with the fixed message |

Facts about the code that the model keeps:

- The `between` search at app.py:167 passes no `re.IGNORECASE`, so case matters there, as `ExampleCapitalBetween` shows. The relative search at app.py:152 ignores case.
- One query can match both grammars. The relative search runs first, so it wins, as `ExampleRelativeWins` shows.
- `set_interval` (app.py:183) stores any integer as the interval, including zero and negative ones, and so does `SetInterval`.
- The filter at app.py:137 includes both ends of the interval, and so does `InRange`.
- Two errors of `parse_time_query` escape the handler: the clock error of `strptime` and the overflow of `end_time - delta`. See the findings below.

## Left out

- Camera capture, the detector, drawing of boxes, JPEG encoding and multipart framing (app.py:16-17, 39-44, 58-70) are devices and foreign libraries. A frame is given as a list of detections, and a failed read as `None`.
- Flask routing, request decoding, `jsonify`, the Socket.IO emits and the log strings (app.py:84-87, 96-102, 107-114) are transport and UI. An `Update` holds the window counts once, although the message repeats them in `time_series_data`.
- Queries.QueryEvents: the natural-language summary is not modelled, because `summarize_events` in src/llm_summary.py is an HTTP call to a hosted model. A summary reply holds the interval and the events it would be given. src/llm_summary.py and src/notification.py are not part of this model.
- Queries.QueryEvents: the query is a string or missing. A JSON body that is not an object, and a query value of another JSON type, are not modelled.
- Timestamps are whole seconds of local wall-clock time. That leaves out microseconds in `datetime.now()` and `time.time()`, the timestamp's string round trip through `strftime`/`strptime` (app.py:74, 137), time zones and daylight-saving changes.
- TimeQuery.Parse: digits and case folding are ASCII. Python's `\d` also accepts other Unicode decimal digits, and `re.IGNORECASE` also matches `ſ` (U+017F) for `s`, and `ı` (U+0131) and `İ` (U+0130) for `i`. `group(2).lower()` keeps `ſ` and `ı` and turns `İ` into the two characters `i̇`, so by reading app.py:155-161, `last 5 ſeconds`, `last 5 mınutes` or `last 5 mİnutes` would be taken as hours. Neither is modelled.
- TimeQuery.Parse: `int()` of a digit string longer than 4300 characters raises in CPython, even when leading zeros make its value small. This is not modelled; the model reads the digits with arbitrary precision.
- TimeQuery.Parse: the overflow of `end_time - delta` at app.py:163 is modelled for clock readings up to `datetime.max`. An amount past the 999999999 days that `timedelta` holds raises `OverflowError` already at app.py:157-161; the model gives the same overflow there, because such a span reaches back before `datetime.min` from any such clock. A clock beyond `datetime.max` and `end_time += timedelta(days=1)` at app.py:174 on 9999-12-31 are not modelled.
- Aggregator.ListOf: the iteration order of a Python set is not modelled; the model proves only that the list holds each label once.
- Aggregator.Monitor.SetInterval: a form value that `int()` rejects is passed in as `None`. The parsing of the value is not modelled.
- Concurrency between the streaming generator, several `/video_feed` clients and the request handlers is not modelled; each method runs alone.

## Findings

| source | as written | input that shows it | evidently intended | confidence | as-written member | corrected member |
|---|---|---|---|---|---|---|
| app.py:171-172 | `strptime` raises `ValueError` for an hour above 23 or a minute above 59, and neither `parse_time_query` nor `query_events` catches it, so the request fails with a server error | the query `between 25:00 and 01:00` | the fixed "couldn't understand the time range" reply that a query without a recognised time range gets | high that it fails; not executed | Queries.ExampleOutOfRangeFails | Queries.QueryEventsRecovered |
| app.py:162-163 | `end_time - delta` raises `OverflowError` when the start would fall before `datetime.min`, and nothing catches it, so the request fails with a server error | the query `last 100000000 hours` at any clock reading; `last 20000000 hours` already at a clock in the year 2026 | the same fixed reply | high that it fails; not executed | Queries.ExampleBeforeYearOneFails | Queries.QueryEventsRecovered |
