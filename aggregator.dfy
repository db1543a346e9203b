/**
 * The sampling state of app.py: the globals that `generate_frames`,
 * `update_frontend` and `set_interval` update (app.py:20-34), as one
 * object. Clock readings are integer seconds passed in by the caller:
 * `now` stands for `time.time()` and `stamp` for `datetime.now()`
 * truncated to the second, as the `"%Y-%m-%d %H:%M:%S"` timestamp keeps it.
 * A `stamp`, and so an event's timestamp, counts seconds from
 * `datetime.min` (0001-01-01 00:00:00) like the times of TimeQuery, so
 * the query filter compares the two on one scale.
 */
module Aggregator {
  import opened Options
  import opened Counting
  import opened EventLog

  /** One detection as the detector reports it, `(label, confidence, (x, y, w, h))`; `name` is the label. */
  datatype Detection = Detection(name: string, confidence: real, x: int, y: int, w: int, h: int)

  /** One camera frame that was read successfully: its detections and the two clock readings. */
  datatype Frame = Frame(objects: seq<Detection>, now: int, stamp: int)

  /**
   * The payload of the `update` message of a flush (app.py:93-100):
   * the counts of the window just closed and the running totals.
   */
  datatype Update = Update(timestamp: int, objectCounts: Counter, totalObjectCounts: Counter)

  /** The labels of a frame's detections, in the detector's order (`obj[0]`). */
  function LabelsOf(objects: seq<Detection>): (labels: seq<string>)
    ensures |labels| == |objects|
    ensures forall i :: 0 <= i < |objects| ==> labels[i] == objects[i].name
  {
    seq(|objects|, i requires 0 <= i < |objects| => objects[i].name)
  }

  /** The labels of the frames before the first one the camera fails to read, frame after frame. */
  function LabelsRead(frames: seq<Option<Frame>>): seq<string>
  {
    LabelsFrom(frames, 0)
  }

  /** LabelsRead of the frames from index i on. */
  function LabelsFrom(frames: seq<Option<Frame>>, i: nat): seq<string>
    requires i <= |frames|
    decreases |frames| - i
  {
    if i == |frames| || frames[i].None? then [] else LabelsOf(frames[i].value.objects) + LabelsFrom(frames, i + 1)
  }

  /** The labels of the frames before index n that were read, frame after frame. */
  function LabelsUpTo(frames: seq<Option<Frame>>, n: nat): seq<string>
    requires n <= |frames|
  {
    if n == 0 then []
    else LabelsUpTo(frames, n - 1) + (if frames[n - 1].Some? then LabelsOf(frames[n - 1].value.objects) else [])
  }

  /**
   * `list(s)` of a set of labels (app.py:79): every element once, in an
   * order the set chooses.
   */
  method ListOf(s: set<string>) returns (xs: seq<string>)
    ensures Distinct(xs)
    ensures Elements(xs) == s
    ensures |xs| == |s|
  {
    xs := [];
    var rest := s;
    while rest != {}
      invariant rest !! Elements(xs)
      invariant rest + Elements(xs) == s
      invariant Distinct(xs)
      invariant |xs| + |rest| == |s|
      decreases |rest|
    {
      var x :| x in rest;
      DistinctSnoc(xs, x);
      ElementsSnoc(xs, x);
      xs := xs + [x];
      rest := rest - {x};
    }
  }

  class Monitor {
    /** `current_window_objects`: the labels seen since the last flush. */
    var window: set<string>
    /** `total_object_counts`: one count per detection since start-up. */
    var totalCounts: Counter
    /** `event_log`. */
    var log: seq<Event>
    /** `sampling_frequency`, in seconds. */
    var samplingFrequency: int
    /** `last_update_time`. */
    var lastUpdate: int
    /** Every label recorded since start-up, in order: what the totals are the counts of. */
    ghost var seen: seq<string>

    ghost predicate Valid()
      reads this
    {
      && |log| <= Capacity
      && totalCounts == CountAll(map[], seen)
      && window <= totalCounts.Keys
    }

    /** The module-level initialisation of app.py:20-34, at clock reading startTime. */
    constructor(startTime: int)
      ensures Valid()
      ensures window == {} && totalCounts == map[] && log == []
      ensures samplingFrequency == 60 && lastUpdate == startTime
      ensures seen == []
    {
      window := {};
      totalCounts := map[];
      log := [];
      samplingFrequency := 60;
      lastUpdate := startTime;
      seen := [];
    }

    /**
     * One detection (app.py:48-50): its label joins the window and its
     * total goes up by one.
     */
    method Observe(name: string)
      requires Valid()
      modifies this
      ensures Valid()
      ensures window == old(window) + {name}
      ensures totalCounts == Increment(old(totalCounts), name)
      ensures seen == old(seen) + [name]
      ensures log == old(log) && samplingFrequency == old(samplingFrequency) && lastUpdate == old(lastUpdate)
    {
      CountAllSnoc(map[], seen, name);
      window := window + {name};
      totalCounts := Increment(totalCounts, name);
      seen := seen + [name];
    }

    /**
     * The detection loop of app.py:47-50: each label joins the window, and
     * its total goes up once per detection.
     */
    method Record(objects: seq<Detection>)
      requires Valid()
      modifies this
      ensures Valid()
      ensures window == old(window) + Elements(LabelsOf(objects))
      ensures totalCounts == CountAll(old(totalCounts), LabelsOf(objects))
      ensures seen == old(seen) + LabelsOf(objects)
      ensures log == old(log) && samplingFrequency == old(samplingFrequency) && lastUpdate == old(lastUpdate)
    {
      ghost var labels, start := LabelsOf(objects), seen;
      for i := 0 to |objects|
        invariant Valid()
        invariant window == old(window) + Elements(labels[..i])
        invariant seen == start + labels[..i]
        invariant log == old(log) && samplingFrequency == old(samplingFrequency) && lastUpdate == old(lastUpdate)
      {
        ghost var before := labels[..i];
        Observe(objects[i].name);
        assert labels[..i + 1] == before + [objects[i].name];
        ElementsSnoc(before, objects[i].name);
      }
      assert labels[..|objects|] == labels;
      CountAllConcat(map[], start, labels);
    }

    /**
     * `update_frontend` (app.py:72-105): log one event holding the window's
     * labels once each, report the window's counts and the totals, and
     * empty the window. The totals and the interval are untouched.
     */
    method UpdateFrontend(stamp: int) returns (update: Update)
      requires Valid()
      modifies this
      ensures Valid()
      ensures |log| > 0 && log == Append(old(log), log[|log| - 1])
      ensures var e := log[|log| - 1];
              e.timestamp == stamp && Distinct(e.objects) && Elements(e.objects) == old(window)
      ensures update.timestamp == stamp
      ensures update.objectCounts.Keys == old(window)
      ensures forall k :: k in update.objectCounts ==> update.objectCounts[k] == 1
      ensures update.totalObjectCounts == totalCounts
      ensures window == {}
      ensures totalCounts == old(totalCounts) && seen == old(seen)
      ensures samplingFrequency == old(samplingFrequency) && lastUpdate == old(lastUpdate)
    {
      var objects := ListOf(window);
      var event := Event(stamp, objects);
      log := Append(log, event);
      CounterOfDistinct(objects);
      var windowCounts := CountAll(map[], objects);
      update := Update(stamp, windowCounts, totalCounts);
      window := {};
    }

    /**
     * One pass of the loop of `generate_frames` for a frame read
     * successfully (app.py:44-56): record the detections, then flush when
     * the interval has elapsed since the last flush, and only then restart
     * the interval at `now`.
     */
    method ProcessFrame(frame: Frame) returns (update: Option<Update>)
      requires Valid()
      modifies this
      ensures Valid()
      ensures totalCounts == CountAll(old(totalCounts), LabelsOf(frame.objects))
      ensures seen == old(seen) + LabelsOf(frame.objects)
      ensures samplingFrequency == old(samplingFrequency)
      ensures update.Some? <==> frame.now - old(lastUpdate) >= old(samplingFrequency)
      ensures update.None? ==>
                && window == old(window) + Elements(LabelsOf(frame.objects))
                && log == old(log) && lastUpdate == old(lastUpdate)
      ensures update.Some? ==>
                && window == {} && lastUpdate == frame.now
                && |log| > 0 && log == Append(old(log), log[|log| - 1])
                && var e := log[|log| - 1];
                && e.timestamp == frame.stamp && Distinct(e.objects)
                && Elements(e.objects) == old(window) + Elements(LabelsOf(frame.objects))
                && update.value.timestamp == frame.stamp
                && update.value.objectCounts.Keys == old(window) + Elements(LabelsOf(frame.objects))
                && (forall k :: k in update.value.objectCounts ==> update.value.objectCounts[k] == 1)
                && update.value.totalObjectCounts == totalCounts
    {
      Record(frame.objects);
      if frame.now - lastUpdate >= samplingFrequency {
        var u := UpdateFrontend(frame.stamp);
        lastUpdate := frame.now;
        update := Some(u);
      } else {
        update := None;
      }
    }

    /**
     * The loop of `generate_frames` (app.py:39-56): process frames until
     * the first one the camera fails to read (`None`), then stop. The
     * flushes, and the window, clock and totals left at the end, are those
     * of the schedule Sample computes from the frames read. Each flush
     * logged one event (`flushed`, appended to the old log in order) and
     * reported one update, and Matches ties the three: the same timestamp,
     * the closed window's labels as the event's labels and as the keys of
     * the update's counts, each counted 1, and the flush's totals as the
     * update's totals. A flush made at frame j reports the old totals plus
     * every detection of the frames up to and including j. Without a flush
     * the window holds every label read, and the log and clock are as
     * before.
     */
    method Stream(frames: seq<Option<Frame>>)
      returns (read: nat, updates: seq<Update>, ghost flushed: seq<Event>, ghost flushes: seq<Flush>)
      requires Valid()
      modifies this
      ensures Valid()
      ensures read <= |frames|
      ensures forall i :: 0 <= i < read ==> frames[i].Some?
      ensures read < |frames| ==> frames[read].None?
      ensures Sample(frames, old(window), old(lastUpdate), old(samplingFrequency), old(totalCounts))
           == Sampling(flushes, window, lastUpdate, totalCounts)
      ensures |updates| == |flushed| == |flushes| <= read
      ensures forall k :: 0 <= k < |flushes| ==> Matches(flushes[k], updates[k], flushed[k])
      ensures forall k :: 0 <= k < |flushes| ==>
                flushes[k].at < read && flushes[k].totals == CountAll(old(totalCounts), LabelsUpTo(frames, flushes[k].at + 1))
      ensures LabelsUpTo(frames, read) == LabelsRead(frames)
      ensures totalCounts == CountAll(old(totalCounts), LabelsRead(frames))
      ensures samplingFrequency == old(samplingFrequency)
      ensures log == AppendAll(old(log), flushed)
      ensures updates == [] ==>
                && window == old(window) + Elements(LabelsRead(frames))
                && log == old(log) && lastUpdate == old(lastUpdate)
    {
      read, updates, flushed, flushes := 0, [], [], [];
      ghost var w0, log0, clock0, interval0, counts0 := window, log, lastUpdate, samplingFrequency, totalCounts;
      ghost var outcome := Sample(frames, w0, clock0, interval0, counts0);
      while read < |frames| && frames[read].Some?
        invariant Streaming(frames, read, log0, outcome, updates, flushed, flushes)
        invariant samplingFrequency == interval0
        decreases |frames| - read
      {
        updates, flushed, flushes := Feed(frames, read, updates, flushed, flushes, log0, outcome);
        read := read + 1;
      }
      StreamOutcome(frames, read, w0, clock0, interval0, counts0, window, lastUpdate, totalCounts, flushes);
    }

    /**
     * The state of the camera loop after the frames before read: all of
     * them were read, the log grew from log0 by the flushed events, each
     * matching its flush and its update, and the schedule from frame read
     * on, continued from the current window, clock and totals and from the
     * flushes made so far, is the outcome of the whole run.
     */
    ghost predicate Streaming(frames: seq<Option<Frame>>, read: nat, log0: seq<Event>, outcome: Sampling,
                              updates: seq<Update>, flushed: seq<Event>, flushes: seq<Flush>)
      reads this
    {
      && Valid()
      && read <= |frames| && SomeUpTo(frames, read)
      && |updates| == |flushed| == |flushes| <= read
      && log == AppendAll(log0, flushed)
      && (forall k :: 0 <= k < |flushes| ==> Matches(flushes[k], updates[k], flushed[k]))
      && SampleFrom(frames, read, window, lastUpdate, samplingFrequency, totalCounts, flushes) == outcome
    }

    /**
     * One pass of the camera loop inside Stream, for the frame at read:
     * ProcessFrame, with the update it reports, the event it logs and the
     * flush it makes appended to updates, flushed and flushes. log0 is the
     * log before the loop. The frame's detections are counted; the flush
     * happens exactly when the interval has elapsed, closes the old window
     * plus the frame's labels at this frame with its stamp and the totals
     * after it, empties the window and restarts the clock at the frame's
     * `now`. Streaming at the next frame says that the new event and update
     * match the flush. It is one step of the schedule SampleFrom: the loop
     * state it leaves, continued from the next frame, has the same outcome
     * as the one it found.
     */
    method Feed(frames: seq<Option<Frame>>, read: nat, updates: seq<Update>, ghost flushed: seq<Event>,
                ghost flushes: seq<Flush>, ghost log0: seq<Event>, ghost outcome: Sampling)
      returns (updates': seq<Update>, ghost flushed': seq<Event>, ghost flushes': seq<Flush>)
      requires read < |frames| && frames[read].Some?
      requires Streaming(frames, read, log0, outcome, updates, flushed, flushes)
      modifies this
      ensures Streaming(frames, read + 1, log0, outcome, updates', flushed', flushes')
      ensures seen == old(seen) + LabelsOf(frames[read].value.objects)
      ensures samplingFrequency == old(samplingFrequency)
      ensures totalCounts == CountAll(old(totalCounts), LabelsOf(frames[read].value.objects))
      ensures |flushes'| == |flushes| + 1 <==> frames[read].value.now - old(lastUpdate) >= old(samplingFrequency)
      ensures |flushes'| == |flushes| ==>
                && updates' == updates && flushed' == flushed && flushes' == flushes
                && window == old(window) + Elements(LabelsOf(frames[read].value.objects))
                && lastUpdate == old(lastUpdate) && log == old(log)
      ensures |flushes'| == |flushes| + 1 ==>
                && flushes' == flushes + [Flush(read, frames[read].value.stamp,
                                                old(window) + Elements(LabelsOf(frames[read].value.objects)), totalCounts)]
                && updates'[..|updates|] == updates && flushed'[..|flushed|] == flushed
                && window == {} && lastUpdate == frames[read].value.now
    {
      var frame := frames[read].value;
      SampleStep(frames, read, window, lastUpdate, samplingFrequency, totalCounts, flushes);
      var update := ProcessFrame(frame);
      updates', flushed', flushes' := updates, flushed, flushes;
      if update.Some? {
        var e := log[|log| - 1];
        var f := Flush(read, frame.stamp, Elements(e.objects), totalCounts);
        AppendAllSnoc(log0, flushed, e);
        MatchesSnoc(flushes, updates, flushed, f, update.value, e);
        updates', flushed', flushes' := updates + [update.value], flushed + [e], flushes + [f];
        assert updates'[..|updates|] == updates && flushed'[..|flushed|] == flushed;
      }
    }

    /**
     * `set_interval` (app.py:180-187). `None` stands for a form value that
     * `int()` rejects: the request fails before any global changes.
     * Otherwise the new interval takes effect, the interval restarts at
     * `now` and the window is discarded; totals and log are kept.
     */
    method SetInterval(interval: Option<int>, now: int)
      requires Valid()
      modifies this
      ensures Valid()
      ensures interval.None? ==>
                && window == old(window) && samplingFrequency == old(samplingFrequency)
                && lastUpdate == old(lastUpdate)
      ensures interval.Some? ==>
                && samplingFrequency == interval.value && lastUpdate == now && window == {}
      ensures totalCounts == old(totalCounts) && seen == old(seen) && log == old(log)
    {
      if interval.Some? {
        samplingFrequency := interval.value;
        lastUpdate := now;
        window := {};
      }
    }
  }

  /** The first n frames were all read successfully. */
  ghost predicate SomeUpTo(frames: seq<Option<Frame>>, n: nat)
    requires n <= |frames|
  {
    n == 0 || (frames[n - 1].Some? && SomeUpTo(frames, n - 1))
  }

  /**
   * What one flush closes: the index of the frame it was made at, its
   * timestamp, the labels of the window and the totals it reports.
   */
  datatype Flush = Flush(at: nat, stamp: int, labels: set<string>, totals: Counter)

  /** The flushes of a run of frames, in order, and the window, clock and totals left after it. */
  datatype Sampling = Sampling(flushes: seq<Flush>, window: set<string>, clock: int, totals: Counter)

  /**
   * The flush schedule of the camera loop (app.py:47-56) from frame i on,
   * for window, clock (the time of the last flush) and totals before it,
   * with acc the flushes so far. Each frame read adds its labels to the
   * window and counts its detections in the totals; when
   * `now - clock >= interval` the window is closed at the frame's index
   * with its stamp and the totals and emptied, and the clock restarts at
   * the frame's `now`.
   */
  function SampleFrom(frames: seq<Option<Frame>>, i: nat, window: set<string>, clock: int, interval: int,
                      totals: Counter, acc: seq<Flush>): Sampling
    requires i <= |frames|
    decreases |frames| - i
  {
    if i == |frames| || frames[i].None? then Sampling(acc, window, clock, totals)
    else
      var f := frames[i].value;
      var w, t := window + Elements(LabelsOf(f.objects)), CountAll(totals, LabelsOf(f.objects));
      if f.now - clock >= interval then SampleFrom(frames, i + 1, {}, f.now, interval, t, acc + [Flush(i, f.stamp, w, t)])
      else SampleFrom(frames, i + 1, w, clock, interval, t, acc)
  }

  /**
   * SampleFrom unfolded for one frame read: a proof step that keeps the
   * solver from unfolding the schedule further than it needs.
   */
  lemma SampleStep(frames: seq<Option<Frame>>, i: nat, window: set<string>, clock: int, interval: int,
                   totals: Counter, acc: seq<Flush>)
    requires i < |frames| && frames[i].Some?
    ensures var f := frames[i].value;
            var w, t := window + Elements(LabelsOf(f.objects)), CountAll(totals, LabelsOf(f.objects));
            SampleFrom(frames, i, window, clock, interval, totals, acc)
              == if f.now - clock >= interval then SampleFrom(frames, i + 1, {}, f.now, interval, t, acc + [Flush(i, f.stamp, w, t)])
                 else SampleFrom(frames, i + 1, w, clock, interval, t, acc)
  {
  }

  /** The flush schedule of all the frames read. */
  function Sample(frames: seq<Option<Frame>>, window: set<string>, clock: int, interval: int, totals: Counter): Sampling
  {
    SampleFrom(frames, 0, window, clock, interval, totals, [])
  }

  /** The labels of every window a run of flushes closed. */
  function Union(fs: seq<Flush>): set<string>
    decreases |fs|
  {
    if fs == [] then {} else Union(fs[..|fs| - 1]) + fs[|fs| - 1].labels
  }

  lemma UnionSnoc(fs: seq<Flush>, f: Flush)
    ensures Union(fs + [f]) == Union(fs) + f.labels
  {
    assert (fs + [f])[..|fs|] == fs;
  }

  /** Every window closed is part of the union. */
  lemma {:induction false} UnionHolds(fs: seq<Flush>, k: nat)
    requires k < |fs|
    ensures fs[k].labels <= Union(fs)
    decreases |fs|
  {
    if k < |fs| - 1 {
      UnionHolds(fs[..|fs| - 1], k);
    }
  }

  /** The schedule only adds flushes after the ones already made. */
  lemma {:induction false} SampleKeepsAcc(frames: seq<Option<Frame>>, i: nat, window: set<string>, clock: int,
                                          interval: int, totals: Counter, acc: seq<Flush>)
    requires i <= |frames|
    ensures var r := SampleFrom(frames, i, window, clock, interval, totals, acc);
            |acc| <= |r.flushes| && r.flushes[..|acc|] == acc
    decreases |frames| - i
  {
    if i < |frames| && frames[i].Some? {
      var f := frames[i].value;
      var w, t := window + Elements(LabelsOf(f.objects)), CountAll(totals, LabelsOf(f.objects));
      if f.now - clock >= interval {
        var acc' := acc + [Flush(i, f.stamp, w, t)];
        SampleKeepsAcc(frames, i + 1, {}, f.now, interval, t, acc');
        var r := SampleFrom(frames, i + 1, {}, f.now, interval, t, acc');
        assert r.flushes[..|acc|] == r.flushes[..|acc'|][..|acc|];
      } else {
        SampleKeepsAcc(frames, i + 1, w, clock, interval, t, acc);
      }
    }
  }

  lemma {:induction false} SampleNoFlushFrom(frames: seq<Option<Frame>>, i: nat, window: set<string>, clock: int,
                                             interval: int, totals: Counter, acc: seq<Flush>)
    requires i <= |frames|
    ensures var r := SampleFrom(frames, i, window, clock, interval, totals, acc);
            r.flushes == acc ==> r.window == window + Elements(LabelsFrom(frames, i)) && r.clock == clock
    decreases |frames| - i
  {
    if i == |frames| || frames[i].None? {
      assert Elements([]) == {};
    } else {
      var f := frames[i].value;
      var w, t := window + Elements(LabelsOf(f.objects)), CountAll(totals, LabelsOf(f.objects));
      ElementsConcat(LabelsOf(f.objects), LabelsFrom(frames, i + 1));
      if f.now - clock >= interval {
        SampleKeepsAcc(frames, i + 1, {}, f.now, interval, t, acc + [Flush(i, f.stamp, w, t)]);
      } else {
        SampleNoFlushFrom(frames, i + 1, w, clock, interval, t, acc);
      }
    }
  }

  /**
   * Without a flush the window ends holding every label read, and the
   * clock of the last flush is unchanged.
   */
  lemma SampleNoFlush(frames: seq<Option<Frame>>, window: set<string>, clock: int, interval: int, totals: Counter)
    ensures var r := Sample(frames, window, clock, interval, totals);
            r.flushes == [] ==> r.window == window + Elements(LabelsRead(frames)) && r.clock == clock
  {
    SampleNoFlushFrom(frames, 0, window, clock, interval, totals, []);
  }

  lemma {:induction false} SampleCoversFrom(frames: seq<Option<Frame>>, i: nat, window: set<string>, clock: int,
                                            interval: int, totals: Counter, acc: seq<Flush>)
    requires i <= |frames|
    ensures var r := SampleFrom(frames, i, window, clock, interval, totals, acc);
            Union(r.flushes) + r.window == Union(acc) + window + Elements(LabelsFrom(frames, i))
    decreases |frames| - i
  {
    if i == |frames| || frames[i].None? {
      assert Elements([]) == {};
    } else {
      var f := frames[i].value;
      var w, t := window + Elements(LabelsOf(f.objects)), CountAll(totals, LabelsOf(f.objects));
      ElementsConcat(LabelsOf(f.objects), LabelsFrom(frames, i + 1));
      if f.now - clock >= interval {
        UnionSnoc(acc, Flush(i, f.stamp, w, t));
        SampleCoversFrom(frames, i + 1, {}, f.now, interval, t, acc + [Flush(i, f.stamp, w, t)]);
      } else {
        SampleCoversFrom(frames, i + 1, w, clock, interval, t, acc);
      }
    }
  }

  /**
   * No label is lost and none is invented: the windows closed by the
   * flushes, together with the window left open, hold exactly the labels
   * of the window before and of every frame read; so each flushed window
   * is made of those labels.
   */
  lemma SampleCovers(frames: seq<Option<Frame>>, window: set<string>, clock: int, interval: int, totals: Counter)
    ensures var r := Sample(frames, window, clock, interval, totals);
            && Union(r.flushes) + r.window == window + Elements(LabelsRead(frames))
            && forall k :: 0 <= k < |r.flushes| ==> r.flushes[k].labels <= window + Elements(LabelsRead(frames))
  {
    SampleCoversFrom(frames, 0, window, clock, interval, totals, []);
    var r := Sample(frames, window, clock, interval, totals);
    forall k | 0 <= k < |r.flushes|
      ensures r.flushes[k].labels <= window + Elements(LabelsRead(frames))
    {
      UnionHolds(r.flushes, k);
    }
  }

  lemma {:induction false} SampleCountsFrom(frames: seq<Option<Frame>>, i: nat, window: set<string>, clock: int,
                                            interval: int, totals: Counter, acc: seq<Flush>)
    requires i <= |frames|
    ensures SampleFrom(frames, i, window, clock, interval, totals, acc).totals == CountAll(totals, LabelsFrom(frames, i))
    decreases |frames| - i
  {
    if i < |frames| && frames[i].Some? {
      var f := frames[i].value;
      var w, t := window + Elements(LabelsOf(f.objects)), CountAll(totals, LabelsOf(f.objects));
      CountAllConcat(totals, LabelsOf(f.objects), LabelsFrom(frames, i + 1));
      if f.now - clock >= interval {
        SampleCountsFrom(frames, i + 1, {}, f.now, interval, t, acc + [Flush(i, f.stamp, w, t)]);
      } else {
        SampleCountsFrom(frames, i + 1, w, clock, interval, t, acc);
      }
    }
  }

  /**
   * The totals left after a run count every detection of every frame
   * read, on top of the totals before it, flushes or not.
   */
  lemma SampleCounts(frames: seq<Option<Frame>>, window: set<string>, clock: int, interval: int, totals: Counter)
    ensures Sample(frames, window, clock, interval, totals).totals == CountAll(totals, LabelsRead(frames))
  {
    SampleCountsFrom(frames, 0, window, clock, interval, totals, []);
  }

  /** counts0 with the detections of the frames before index n that were read counted in, frame after frame. */
  function TotalsAt(frames: seq<Option<Frame>>, counts0: Counter, n: nat): Counter
    requires n <= |frames|
  {
    if n == 0 then counts0
    else if frames[n - 1].Some? then CountAll(TotalsAt(frames, counts0, n - 1), LabelsOf(frames[n - 1].value.objects))
    else TotalsAt(frames, counts0, n - 1)
  }

  /** TotalsAt counts the labels of the frames read before n. */
  lemma {:induction false} TotalsAtCounts(frames: seq<Option<Frame>>, counts0: Counter, n: nat)
    requires n <= |frames|
    ensures TotalsAt(frames, counts0, n) == CountAll(counts0, LabelsUpTo(frames, n))
  {
    if n > 0 {
      TotalsAtCounts(frames, counts0, n - 1);
      if frames[n - 1].Some? {
        CountAllConcat(counts0, LabelsUpTo(frames, n - 1), LabelsOf(frames[n - 1].value.objects));
      } else {
        assert LabelsUpTo(frames, n - 1) + [] == LabelsUpTo(frames, n - 1);
      }
    }
  }

  /** The flush f was made at a frame and carries counts0 plus the detections up to and including it. */
  ghost predicate FlushAfter(frames: seq<Option<Frame>>, counts0: Counter, f: Flush)
  {
    f.at < |frames| && f.totals == TotalsAt(frames, counts0, f.at + 1)
  }

  /**
   * The k-th flush of the schedule from frame i on, for totals that count
   * the detections of the frames before i, carries the totals after its
   * own frame; the k-th flush already made (in acc) is assumed to.
   */
  lemma {:induction false} SampleTotalsFrom(frames: seq<Option<Frame>>, i: nat, window: set<string>,
                                            clock: int, interval: int, counts0: Counter, totals: Counter,
                                            acc: seq<Flush>, k: nat)
    requires i <= |frames|
    requires totals == TotalsAt(frames, counts0, i)
    requires k < |acc| ==> FlushAfter(frames, counts0, acc[k])
    ensures var r := SampleFrom(frames, i, window, clock, interval, totals, acc);
            k < |r.flushes| ==> FlushAfter(frames, counts0, r.flushes[k])
    decreases |frames| - i
  {
    if i < |frames| && frames[i].Some? {
      var f := frames[i].value;
      var w, t := window + Elements(LabelsOf(f.objects)), CountAll(totals, LabelsOf(f.objects));
      if f.now - clock >= interval {
        var acc' := acc + [Flush(i, f.stamp, w, t)];
        assert k < |acc| ==> acc'[k] == acc[k];
        SampleTotalsFrom(frames, i + 1, {}, f.now, interval, counts0, t, acc', k);
      } else {
        SampleTotalsFrom(frames, i + 1, w, clock, interval, counts0, t, acc, k);
      }
    }
  }

  /**
   * The k-th flush of the schedule from frame i on is made at a frame
   * before n, the first frame not read, if the k-th flush already made
   * (in acc) is.
   */
  lemma {:induction false} SampleAtsFrom(frames: seq<Option<Frame>>, n: nat, i: nat, window: set<string>,
                                         clock: int, interval: int, totals: Counter, acc: seq<Flush>, k: nat)
    requires i <= n <= |frames| && (n == |frames| || frames[n].None?)
    requires k < |acc| ==> acc[k].at < n
    ensures var r := SampleFrom(frames, i, window, clock, interval, totals, acc);
            k < |r.flushes| ==> r.flushes[k].at < n
    decreases |frames| - i
  {
    if i < |frames| && frames[i].Some? {
      assert i < n;
      var f := frames[i].value;
      var w, t := window + Elements(LabelsOf(f.objects)), CountAll(totals, LabelsOf(f.objects));
      if f.now - clock >= interval {
        var acc' := acc + [Flush(i, f.stamp, w, t)];
        assert k < |acc| ==> acc'[k] == acc[k];
        SampleAtsFrom(frames, n, i + 1, {}, f.now, interval, t, acc', k);
      } else {
        SampleAtsFrom(frames, n, i + 1, w, clock, interval, t, acc, k);
      }
    }
  }

  /** SampleTotals for the k-th flush. */
  lemma SampleTotalsAt(frames: seq<Option<Frame>>, window: set<string>, clock: int, interval: int, totals: Counter,
                       n: nat, k: nat)
    requires n <= |frames| && (n == |frames| || frames[n].None?)
    requires k < |SampleFrom(frames, 0, window, clock, interval, totals, []).flushes|
    ensures var f := SampleFrom(frames, 0, window, clock, interval, totals, []).flushes[k];
            f.at < n && f.totals == CountAll(totals, LabelsUpTo(frames, f.at + 1))
  {
    SampleTotalsFrom(frames, 0, window, clock, interval, totals, totals, [], k);
    SampleAtsFrom(frames, n, 0, window, clock, interval, totals, [], k);
    FlushCounts(frames, totals, SampleFrom(frames, 0, window, clock, interval, totals, []).flushes[k]);
  }

  /** A flush satisfying FlushAfter carries the counts of the labels of the frames up to its own. */
  lemma FlushCounts(frames: seq<Option<Frame>>, counts0: Counter, f: Flush)
    requires FlushAfter(frames, counts0, f)
    ensures f.at < |frames| && f.totals == CountAll(counts0, LabelsUpTo(frames, f.at + 1))
  {
    TotalsAtCounts(frames, counts0, f.at + 1);
  }

  /**
   * Each flush reports the totals as they stood after the frame it was
   * made at: the totals before the run plus every detection of the frames
   * up to and including that one, which is one of the frames read.
   */
  lemma SampleTotals(frames: seq<Option<Frame>>, window: set<string>, clock: int, interval: int, totals: Counter, n: nat)
    requires n <= |frames| && (n == |frames| || frames[n].None?)
    ensures var r := Sample(frames, window, clock, interval, totals);
            forall k :: 0 <= k < |r.flushes| ==>
              r.flushes[k].at < n && r.flushes[k].totals == CountAll(totals, LabelsUpTo(frames, r.flushes[k].at + 1))
  {
    forall k | 0 <= k < |Sample(frames, window, clock, interval, totals).flushes|
      ensures var f := Sample(frames, window, clock, interval, totals).flushes[k];
              f.at < n && f.totals == CountAll(totals, LabelsUpTo(frames, f.at + 1))
    {
      SampleTotalsAt(frames, window, clock, interval, totals, n, k);
    }
  }

  /**
   * What the camera loop's invariant gives once the loop stops at frame
   * read, the first one not read: the schedule of all the frames is the
   * run of flushes made, each flush carries the totals after its frame,
   * the totals left count every detection read, and without a flush the
   * window holds every label read and the clock is unchanged.
   */
  lemma StreamOutcome(frames: seq<Option<Frame>>, read: nat, w0: set<string>, clock0: int, interval: int,
                      counts0: Counter, window: set<string>, clock: int, totals: Counter, flushes: seq<Flush>)
    requires read <= |frames| && SomeUpTo(frames, read) && (read == |frames| || frames[read].None?)
    requires SampleFrom(frames, read, window, clock, interval, totals, flushes) == Sample(frames, w0, clock0, interval, counts0)
    ensures LabelsUpTo(frames, read) == LabelsRead(frames)
    ensures forall i :: 0 <= i < read ==> frames[i].Some?
    ensures Sample(frames, w0, clock0, interval, counts0) == Sampling(flushes, window, clock, totals)
    ensures totals == CountAll(counts0, LabelsRead(frames))
    ensures forall k :: 0 <= k < |flushes| ==>
              flushes[k].at < read && flushes[k].totals == CountAll(counts0, LabelsUpTo(frames, flushes[k].at + 1))
    ensures flushes == [] ==> window == w0 + Elements(LabelsRead(frames)) && clock == clock0
  {
    LabelsUpToRead(frames, read);
    SomeUpToAll(frames, read);
    SampleTotals(frames, w0, clock0, interval, counts0, read);
    SampleNoFlush(frames, w0, clock0, interval, counts0);
    SampleCounts(frames, w0, clock0, interval, counts0);
  }

  /** The labels of the frames up to the first one not read are the labels read. */
  lemma LabelsUpToRead(frames: seq<Option<Frame>>, n: nat)
    requires n <= |frames| && SomeUpTo(frames, n) && (n == |frames| || frames[n].None?)
    ensures LabelsUpTo(frames, n) == LabelsRead(frames)
  {
    LabelsUpToFrom(frames, n);
  }

  lemma {:induction false} LabelsUpToFrom(frames: seq<Option<Frame>>, n: nat)
    requires n <= |frames| && SomeUpTo(frames, n)
    ensures LabelsUpTo(frames, n) + LabelsFrom(frames, n) == LabelsRead(frames)
  {
    if n > 0 {
      LabelsUpToFrom(frames, n - 1);
      var pre, labels := LabelsUpTo(frames, n - 1), LabelsOf(frames[n - 1].value.objects);
      assert LabelsFrom(frames, n - 1) == labels + LabelsFrom(frames, n);
      SeqAssoc(pre, labels, LabelsFrom(frames, n));
    }
  }

  /** SomeUpTo, index by index. */
  lemma {:induction false} SomeUpToAll(frames: seq<Option<Frame>>, n: nat)
    requires n <= |frames| && SomeUpTo(frames, n)
    ensures forall i :: 0 <= i < n ==> frames[i].Some?
  {
    if n > 0 {
      SomeUpToAll(frames, n - 1);
    }
  }

  /**
   * An update reported beside the event its flush logged: the same
   * timestamp, and the event's labels, once each, as the keys of the window
   * counts, every one of them 1.
   */
  ghost predicate Reported(u: Update, e: Event)
  {
    && e.timestamp == u.timestamp
    && Distinct(e.objects)
    && Elements(e.objects) == u.objectCounts.Keys
    && forall k :: k in u.objectCounts ==> u.objectCounts[k] == 1
  }

  /**
   * A flush, the update it reported and the event it logged agree: the
   * update is reported beside the event, and the flush's timestamp, labels
   * and totals are the event's timestamp, the event's labels and the
   * update's totals.
   */
  ghost predicate Matches(f: Flush, u: Update, e: Event)
  {
    && Reported(u, e)
    && f.stamp == e.timestamp
    && f.labels == Elements(e.objects)
    && f.totals == u.totalObjectCounts
  }

  /** One more flush, matching its update and event, extends a matching run. */
  lemma MatchesSnoc(fs: seq<Flush>, updates: seq<Update>, flushed: seq<Event>, f: Flush, u: Update, e: Event)
    requires |updates| == |flushed| == |fs|
    requires forall k :: 0 <= k < |fs| ==> Matches(fs[k], updates[k], flushed[k])
    requires Matches(f, u, e)
    ensures forall k :: 0 <= k < |fs| + 1 ==> Matches((fs + [f])[k], (updates + [u])[k], (flushed + [e])[k])
  {
    forall k | 0 <= k < |fs| + 1
      ensures Matches((fs + [f])[k], (updates + [u])[k], (flushed + [e])[k])
    {
      if k < |fs| {
        assert (fs + [f])[k] == fs[k] && (updates + [u])[k] == updates[k] && (flushed + [e])[k] == flushed[k];
      }
    }
  }

  lemma SeqAssoc(a: seq<string>, b: seq<string>, c: seq<string>)
    ensures a + (b + c) == (a + b) + c
  {
  }
}
