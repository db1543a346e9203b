/**
 * The label counters of app.py. A `collections.Counter` of labels is a
 * map from label to a positive count; looking up a missing label gives 0
 * without inserting it, and `c[label] += 1` stores the old count plus one.
 */
module Counting {

  type Counter = map<string, nat>

  /** The set of the elements of xs (`set(xs)`). */
  function Elements(xs: seq<string>): set<string>
  {
    set x | x in xs
  }

  /** `c[k]` on a Counter: the stored count, or 0 for a label never seen. */
  function Get(c: Counter, k: string): nat
  {
    if k in c then c[k] else 0
  }

  /** `c[k] += 1` (app.py:50): only label k changes, and it goes up by one. */
  function Increment(c: Counter, k: string): (r: Counter)
    ensures r.Keys == c.Keys + {k}
    ensures Get(r, k) == Get(c, k) + 1
    ensures forall j :: j != k ==> Get(r, j) == Get(c, j)
  {
    c[k := Get(c, k) + 1]
  }

  /** Counting every element of xs, in order, into c (`Counter.update` / `Counter(xs)`). */
  function CountAll(c: Counter, xs: seq<string>): Counter
    decreases |xs|
  {
    if xs == [] then c else CountAll(Increment(c, xs[0]), xs[1..])
  }

  /**
   * What counting means: the labels known afterwards are those known before
   * plus those of xs, and each count grows by the label's number of
   * occurrences in xs.
   */
  lemma {:induction false} CountAllCounts(c: Counter, xs: seq<string>)
    ensures CountAll(c, xs).Keys == c.Keys + Elements(xs)
    ensures forall k :: Get(CountAll(c, xs), k) == Get(c, k) + multiset(xs)[k]
    decreases |xs|
  {
    if xs != [] {
      assert xs == [xs[0]] + xs[1..];
      CountAllCounts(Increment(c, xs[0]), xs[1..]);
    }
  }

  /** Counting one more label is one `+= 1`. */
  lemma CountAllSnoc(c: Counter, xs: seq<string>, x: string)
    ensures CountAll(c, xs + [x]) == Increment(CountAll(c, xs), x)
  {
    CountAllConcat(c, xs, [x]);
  }

  /** b dominates a: every label a knows, b knows, with a count at least as large. */
  ghost predicate AtMost(a: Counter, b: Counter)
  {
    a.Keys <= b.Keys && forall k :: Get(a, k) <= Get(b, k)
  }

  predicate Distinct(xs: seq<string>)
  {
    forall i, j :: 0 <= i < j < |xs| ==> xs[i] != xs[j]
  }

  /** Appending a new element keeps a sequence free of repetitions. */
  lemma DistinctSnoc(xs: seq<string>, x: string)
    requires Distinct(xs) && x !in xs
    ensures Distinct(xs + [x])
  {
  }

  /** The elements of xs + [x] are those of xs and x. */
  lemma ElementsSnoc(xs: seq<string>, x: string)
    ensures Elements(xs + [x]) == Elements(xs) + {x}
  {
  }

  /** The elements of a concatenation are those of its parts. */
  lemma ElementsConcat(xs: seq<string>, ys: seq<string>)
    ensures Elements(xs + ys) == Elements(xs) + Elements(ys)
  {
  }

  /** Counting never lowers a count and never forgets a label. */
  lemma CountAllGrows(c: Counter, xs: seq<string>)
    ensures AtMost(c, CountAll(c, xs))
  {
    CountAllCounts(c, xs);
  }

  /** Counting xs and then ys is counting xs + ys. */
  lemma {:induction false} CountAllConcat(c: Counter, xs: seq<string>, ys: seq<string>)
    ensures CountAll(c, xs + ys) == CountAll(CountAll(c, xs), ys)
    decreases |xs|
  {
    if xs == [] {
      assert xs + ys == ys;
    } else {
      assert (xs + ys)[1..] == xs[1..] + ys;
      CountAllConcat(Increment(c, xs[0]), xs[1..], ys);
    }
  }

  /** A sequence without repetitions holds each element once. */
  lemma {:induction false} DistinctOccursOnce(xs: seq<string>)
    requires Distinct(xs)
    ensures forall k :: multiset(xs)[k] == if k in xs then 1 else 0
  {
    if xs != [] {
      var init, last := xs[..|xs| - 1], xs[|xs| - 1];
      assert xs == init + [last];
      assert Distinct(init);
      DistinctOccursOnce(init);
      assert last !in init;
    }
  }

  /**
   * `Counter(s)` over the elements of a set (app.py:90): every element is
   * counted exactly once, so every key maps to 1.
   */
  lemma CounterOfDistinct(xs: seq<string>)
    requires Distinct(xs)
    ensures CountAll(map[], xs).Keys == Elements(xs)
    ensures forall k :: k in CountAll(map[], xs) ==> CountAll(map[], xs)[k] == 1
  {
    DistinctOccursOnce(xs);
    CountAllCounts(map[], xs);
    var r := CountAll(map[], xs);
    forall k | k in r
      ensures r[k] == 1
    {
      assert Get(r, k) == multiset(xs)[k];
    }
  }
}
