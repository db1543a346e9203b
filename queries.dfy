/**
 * The `/query_events` handler of app.py:116-146 without its transport: the
 * empty-query guard, the time-range parse and the range filter over the
 * event log. The natural-language summary written from the filtered events
 * is outside the model, so a successful reply carries the interval and the
 * events that would be summarised.
 */
module Queries {
  import opened Options
  import opened EventLog
  import opened TimeQuery

  /**
   * What the handler answers.
   * NoQuery and NotUnderstood are its two fixed messages; ServerError is
   * the exception that escapes it; Summary holds what `summarize_events`
   * is given.
   */
  datatype Reply =
    | NoQuery
    | NotUnderstood
    | ServerError
    | Summary(start: int, end: int, events: seq<Event>)

  /** `not query` for a missing key or a string value. */
  predicate Blank(query: Option<string>)
  {
    query.None? || query.value == ""
  }

  /**
   * The handler as written. `strptime` rejects an out-of-range clock, and
   * `now - delta` overflows before `datetime.min`, inside
   * `parse_time_query`; nothing on the way catches either error, so the
   * request fails.
   */
  function QueryEvents(query: Option<string>, now: int, log: seq<Event>): Reply
  {
    if Blank(query) then NoQuery
    else match Parse(query.value, now)
      case NoMatch => NotUnderstood
      case InvalidTime => ServerError
      case OutOfRange => ServerError
      case Range(start, end) => Summary(start, end, Query(log, start, end))
  }

  /**
   * The handler with both errors turned into the reply for a query it
   * cannot understand, which is what the handler gives for a query without
   * a recognised time range.
   */
  function QueryEventsRecovered(query: Option<string>, now: int, log: seq<Event>): Reply
  {
    if Blank(query) then NoQuery
    else match Parse(query.value, now)
      case NoMatch => NotUnderstood
      case InvalidTime => NotUnderstood
      case OutOfRange => NotUnderstood
      case Range(start, end) => Summary(start, end, Query(log, start, end))
  }

  /**
   * Which reply each query gets: the guard answers exactly the blank
   * queries; a summary covers exactly the interval the parse gave, which is
   * well ordered, and holds the log filtered to it, that is exactly the
   * stored events inside it, in order; and a query in which the relative
   * grammar matches is answered with an interval that ends now unless the
   * parse overflows.
   */
  lemma QueryEventsOutcome(query: Option<string>, now: int, log: seq<Event>)
    ensures var r := QueryEvents(query, now, log);
            && (r.NoQuery? <==> Blank(query))
            && (r.NotUnderstood? <==> !Blank(query) && Parse(query.value, now).NoMatch?)
            && (r.ServerError? <==> !Blank(query) && (Parse(query.value, now).InvalidTime? || Parse(query.value, now).OutOfRange?))
            && (r.Summary? ==>
                  && !Blank(query) && Parse(query.value, now) == Range(r.start, r.end)
                  && r.events == Query(log, r.start, r.end)
                  && r.start <= r.end
                  && |r.events| <= |log|
                  && forall e :: e in r.events <==> e in log && InRange(e, r.start, r.end))
            && (!Blank(query) && (exists p: nat :: RelativeAt(query.value, p)) ==>
                  (r.Summary? && r.end == now) || (r.ServerError? && Parse(query.value, now).OutOfRange?))
  {
    if !Blank(query) {
      ParseOutcome(query.value, now);
    }
  }

  /**
   * A query that neither grammar matches anywhere, however long, gets the
   * fixed message and never reaches the log.
   */
  lemma UnmatchedNotUnderstood(query: string, now: int, log: seq<Event>)
    requires query != []
    requires forall p: nat :: !RelativeAt(query, p)
    requires forall p: nat :: !AbsoluteAt(query, p)
    ensures QueryEvents(Some(query), now, log) == NotUnderstood
  {
    ParseOutcome(query, now);
  }

  /** The example question of the handler's help text is answered with the last ten minutes of the log. */
  lemma ExampleLastTenMinutesReply(now: int, log: seq<Event>)
    requires 600 <= now
    ensures QueryEvents(Some("What happened in the last 10 minutes?"), now, log)
         == Summary(now - 600, now, Query(log, now - 600, now))
  {
    ExampleQuestion(now);
    SummaryOfRange("What happened in the last 10 minutes?", now, log, now - 600, now);
  }

  /**
   * QueryEvents unfolded for a query the parse gives an interval: a proof
   * step that keeps the solver from unfolding the query's literal text.
   */
  lemma SummaryOfRange(query: string, now: int, log: seq<Event>, start: int, end: int)
    requires query != "" && Parse(query, now) == Range(start, end)
    ensures QueryEvents(Some(query), now, log) == Summary(start, end, Query(log, start, end))
  {
  }

  /** An hour past 23 in the absolute grammar makes the handler fail instead of answering. */
  lemma ExampleOutOfRangeFails(now: int, log: seq<Event>)
    ensures QueryEvents(Some("between 25:00 and 01:00"), now, log) == ServerError
  {
    ExampleHourOutOfRange(now);
  }

  /** A relative span reaching back before `datetime.min` makes the handler fail instead of answering. */
  lemma ExampleBeforeYearOneFails(now: int, log: seq<Event>)
    requires now <= MaxTime
    ensures QueryEvents(Some("last 100000000 hours"), now, log) == ServerError
  {
    ExampleBeforeYearOne(now);
  }

  /**
   * The corrected handler never fails, gives the fixed message where the
   * handler as written fails, and agrees with it on every other query.
   */
  lemma RecoveredNeverFails(query: Option<string>, now: int, log: seq<Event>)
    ensures QueryEventsRecovered(query, now, log) != ServerError
    ensures QueryEvents(query, now, log) == ServerError ==> QueryEventsRecovered(query, now, log) == NotUnderstood
    ensures QueryEvents(query, now, log) != ServerError ==> QueryEventsRecovered(query, now, log) == QueryEvents(query, now, log)
  {
  }

  /** The corrected handler answers the out-of-range example with the fixed message. */
  lemma ExampleOutOfRangeRecovered(now: int, log: seq<Event>)
    ensures QueryEventsRecovered(Some("between 25:00 and 01:00"), now, log) == NotUnderstood
  {
    ExampleHourOutOfRange(now);
  }

  /** The corrected handler answers the overflowing example with the fixed message. */
  lemma ExampleBeforeYearOneRecovered(now: int, log: seq<Event>)
    requires now <= MaxTime
    ensures QueryEventsRecovered(Some("last 100000000 hours"), now, log) == NotUnderstood
  {
    ExampleBeforeYearOne(now);
  }
}
