/**
 * The event log of app.py: `deque(maxlen=1000)` of flush events
 * (app.py:20, app.py:77-81) and the range filter of `query_events`
 * (app.py:137).
 */
module EventLog {

  /**
   * One flush: its second-precision wall-clock timestamp and the labels of
   * the window, listed once each in the set's iteration order.
   */
  datatype Event = Event(timestamp: int, objects: seq<string>)

  /** `maxlen` of the deque. */
  const Capacity: nat := 1000

  /** The newest Capacity entries of s, in their order. */
  function Newest(s: seq<Event>): seq<Event>
  {
    if |s| <= Capacity then s else s[|s| - Capacity..]
  }

  /**
   * `event_log.append(e)`: push at the tail; at capacity the deque first
   * drops its head.
   */
  function Append(log: seq<Event>, e: Event): (r: seq<Event>)
    ensures |r| <= Capacity && r != [] && r[|r| - 1] == e
    ensures |log| < Capacity ==> r == log + [e]
    ensures |log| == Capacity ==> r == log[1..] + [e]
  {
    Newest(log + [e])
  }

  /** Appending es one at a time. */
  function AppendAll(log: seq<Event>, es: seq<Event>): seq<Event>
    decreases |es|
  {
    if es == [] then log else AppendAll(Append(log, es[0]), es[1..])
  }

  /** The newest entries of the newest entries plus one more are the newest of all. */
  lemma NewestAppend(s: seq<Event>, e: Event)
    ensures Newest(Newest(s) + [e]) == Newest(s + [e])
  {
    if |s| > Capacity {
      assert Newest(s) + [e] == s[|s| - Capacity..] + [e];
      assert (s + [e])[|s| + 1 - Capacity..] == (s[|s| - Capacity..] + [e])[1..];
    }
  }

  /**
   * However many events are appended to a log within capacity, the log ends
   * up holding exactly the newest Capacity of all events, in order.
   */
  lemma {:induction false} AppendAllKeepsNewest(log: seq<Event>, es: seq<Event>)
    requires |log| <= Capacity
    ensures AppendAll(log, es) == Newest(log + es)
    decreases |es|
  {
    if es == [] {
      assert log + es == log;
    } else {
      var first := log + [es[0]];
      UnfoldAppendAll(log, es);
      AppendAllKeepsNewest(Newest(first), es[1..]);
      ConsConcat(log, es);
      NewestConcat(first, es[1..]);
    }
  }

  lemma UnfoldAppendAll(log: seq<Event>, es: seq<Event>)
    requires es != []
    ensures AppendAll(log, es) == AppendAll(Newest(log + [es[0]]), es[1..])
    ensures |Newest(log + [es[0]])| <= Capacity
  {
  }

  lemma ConsConcat(log: seq<Event>, es: seq<Event>)
    requires es != []
    ensures (log + [es[0]]) + es[1..] == log + es
  {
  }

  /** Appending es and then e is appending es + [e]. */
  lemma {:induction false} AppendAllSnoc(log: seq<Event>, es: seq<Event>, e: Event)
    ensures AppendAll(log, es + [e]) == Append(AppendAll(log, es), e)
    decreases |es|
  {
    if es == [] {
      assert es + [e] == [e];
      assert [e][1..] == [];
    } else {
      assert (es + [e])[1..] == es[1..] + [e];
      AppendAllSnoc(Append(log, es[0]), es[1..], e);
    }
  }

  /** Trimming before appending more changes nothing once trimmed again. */
  lemma {:induction false} NewestConcat(s: seq<Event>, t: seq<Event>)
    ensures Newest(Newest(s) + t) == Newest(s + t)
    decreases |t|
  {
    if t == [] {
      assert Newest(s) + t == Newest(s);
      assert s + t == s;
    } else {
      var init, last := t[..|t| - 1], t[|t| - 1];
      assert t == init + [last];
      NewestConcat(s, init);
      assert Newest(s) + t == (Newest(s) + init) + [last];
      assert s + t == (s + init) + [last];
      NewestAppend(Newest(s) + init, last);
      NewestAppend(s + init, last);
    }
  }

  /** Appending Capacity + 1 events to an empty log keeps all but the first. */
  lemma OverflowDropsOldest(es: seq<Event>)
    requires |es| == Capacity + 1
    ensures AppendAll([], es) == es[1..]
  {
    AppendAllKeepsNewest([], es);
    assert [] + es == es;
  }

  /** The filter condition of app.py:137, inclusive at both ends. */
  predicate InRange(e: Event, start: int, end: int)
  {
    start <= e.timestamp <= end
  }

  /**
   * `[event for event in event_log if start <= ts <= end]`: the stored events
   * inside the closed interval, and only those.
   */
  function Query(log: seq<Event>, start: int, end: int): (r: seq<Event>)
    ensures |r| <= |log|
    ensures forall e :: e in r <==> e in log && InRange(e, start, end)
    decreases |log|
  {
    if log == [] then []
    else (if InRange(log[0], start, end) then [log[0]] else []) + Query(log[1..], start, end)
  }

  /**
   * The filter keeps stored order: filtering a concatenation is the
   * concatenation of the filtered parts.
   */
  lemma {:induction false} QueryConcat(a: seq<Event>, b: seq<Event>, start: int, end: int)
    ensures Query(a + b, start, end) == Query(a, start, end) + Query(b, start, end)
    decreases |a|
  {
    if a == [] {
      assert a + b == b;
    } else {
      assert (a + b)[1..] == a[1..] + b;
      QueryConcat(a[1..], b, start, end);
    }
  }

  /** Each qualifying event is returned as often as it is stored; others never. */
  lemma {:induction false} QueryMultiplicity(log: seq<Event>, start: int, end: int, e: Event)
    ensures multiset(Query(log, start, end))[e] == if InRange(e, start, end) then multiset(log)[e] else 0
    decreases |log|
  {
    if log != [] {
      assert log == [log[0]] + log[1..];
      QueryMultiplicity(log[1..], start, end, e);
    }
  }

  /** A query over a log whose every event qualifies returns the whole log. */
  lemma {:induction false} QueryAll(log: seq<Event>, start: int, end: int)
    requires forall i :: 0 <= i < |log| ==> InRange(log[i], start, end)
    ensures Query(log, start, end) == log
    decreases |log|
  {
    if log != [] {
      QueryAll(log[1..], start, end);
    }
  }

  /** Querying the answer again with the same bounds returns the same answer. */
  lemma QueryIdempotent(log: seq<Event>, start: int, end: int)
    ensures Query(Query(log, start, end), start, end) == Query(log, start, end)
  {
    var r := Query(log, start, end);
    forall i | 0 <= i < |r|
      ensures InRange(r[i], start, end)
    {
      assert r[i] in r;
    }
    QueryAll(r, start, end);
  }

  /** The filter reads the log and nothing else: one appended event shows up only if it qualifies. */
  lemma QueryAfterAppend(log: seq<Event>, e: Event, start: int, end: int)
    ensures Query(log + [e], start, end)
         == Query(log, start, end) + (if InRange(e, start, end) then [e] else [])
  {
    QueryConcat(log, [e], start, end);
    assert [e][1..] == [];
  }
}
