/** Latency statistics of a benchmark, over the reals: interpolated percentiles. */
module Latency {
  import opened Outcomes

  ghost predicate Ascending(s: seq<real>) {
    forall i, j :: 0 <= i < j < |s| ==> s[i] <= s[j]
  }

  function Insert(s: seq<real>, x: real): seq<real> {
    if s == [] then [x] else if x <= s[0] then [x] + s else [s[0]] + Insert(s[1..], x)
  }

  /** `sorted(samples)`. */
  function Sorted(samples: seq<real>): seq<real> {
    if samples == [] then [] else Insert(Sorted(samples[1..]), samples[0])
  }

  lemma {:induction false} InsertAdds(s: seq<real>, x: real)
    ensures multiset(Insert(s, x)) == multiset(s) + multiset{x}
  {
    if s != [] && x > s[0] {
      InsertAdds(s[1..], x);
      assert s == [s[0]] + s[1..];
    }
  }

  lemma {:induction false} InsertKeepsOrder(s: seq<real>, x: real)
    requires Ascending(s)
    ensures Ascending(Insert(s, x))
    ensures forall y :: y in Insert(s, x) ==> y in s || y == x
  {
    if s != [] && x > s[0] {
      InsertKeepsOrder(s[1..], x);
      var r := Insert(s[1..], x);
      forall i | 0 <= i < |r|
        ensures s[0] <= r[i]
      {
        assert r[i] in r;
      }
    }
  }

  lemma {:induction false} SortedIsSorted(samples: seq<real>)
    ensures Ascending(Sorted(samples)) && multiset(Sorted(samples)) == multiset(samples)
    ensures |Sorted(samples)| == |samples|
  {
    if samples != [] {
      SortedIsSorted(samples[1..]);
      InsertAdds(Sorted(samples[1..]), samples[0]);
      InsertKeepsOrder(Sorted(samples[1..]), samples[0]);
      assert samples == [samples[0]] + samples[1..];
    }
    SameLength(Sorted(samples), samples);
  }

  lemma TailOf(s: seq<real>)
    requires s != []
    ensures multiset(s[1..]) == multiset(s) - multiset{s[0]}
  {
    assert s == [s[0]] + s[1..];
  }

  lemma SameLength(s: seq<real>, t: seq<real>)
    requires multiset(s) == multiset(t)
    ensures |s| == |t|
  {
    assert |multiset(s)| == |multiset(t)|;
  }

  lemma HeadIsLeast(s: seq<real>, t: seq<real>)
    requires Ascending(s) && t != [] && multiset(s) == multiset(t)
    ensures s != [] && s[0] <= t[0]
  {
    assert t[0] in multiset(t);
    var i :| 0 <= i < |s| && s[i] == t[0];
  }

  lemma SameHead(s: seq<real>, t: seq<real>)
    requires Ascending(s) && Ascending(t) && s != [] && t != [] && multiset(s) == multiset(t)
    ensures s[0] == t[0] && multiset(s[1..]) == multiset(t[1..])
  {
    HeadIsLeast(s, t);
    HeadIsLeast(t, s);
    TailOf(s);
    TailOf(t);
  }

  /** An ascending list is determined by what it holds. */
  lemma {:induction false} AscendingIsUnique(s: seq<real>, t: seq<real>)
    requires Ascending(s) && Ascending(t) && multiset(s) == multiset(t)
    ensures s == t
  {
    SameLength(s, t);
    if s != [] {
      SameHead(s, t);
      AscendingIsUnique(s[1..], t[1..]);
      assert forall i :: 0 < i < |s| ==> s[i] == s[1..][i - 1] && t[i] == t[1..][i - 1];
    }
  }

  // ---- Products of reals, one fact at a time.

  lemma TimesNonNegative(a: real, b: real)
    requires a >= 0.0 && b >= 0.0
    ensures a * b >= 0.0
  {
  }

  lemma TimesMonotone(n: real, p: real, q: real)
    requires n >= 0.0 && p <= q
    ensures n * p <= n * q
  {
    TimesNonNegative(n, q - p);
    assert n * (q - p) == n * q - n * p;
  }

  lemma TimesAtMost(n: real, q: real)
    requires n >= 0.0 && q <= 1.0
    ensures n * q <= n
  {
    TimesNonNegative(n, 1.0 - q);
    assert n * (1.0 - q) == n - n * q;
  }

  /** The weighted mean of two neighbours. */
  function Mix(a: real, b: real, w: real): real {
    a * (1.0 - w) + b * w
  }

  lemma MixFromBelow(a: real, b: real, w: real)
    ensures Mix(a, b, w) == a + (b - a) * w
  {
    assert a * (1.0 - w) == a - a * w;
    assert (b - a) * w == b * w - a * w;
  }

  lemma MixMonotone(a: real, b: real, v: real, w: real)
    requires a <= b && v <= w
    ensures Mix(a, b, v) <= Mix(a, b, w)
  {
    MixFromBelow(a, b, v);
    MixFromBelow(a, b, w);
    TimesMonotone(b - a, v, w);
  }

  lemma MixEnds(a: real, b: real)
    ensures Mix(a, b, 0.0) == a && Mix(a, b, 1.0) == b && Mix(a, b, 0.5) == (a + b) / 2.0
    ensures forall w :: Mix(a, a, w) == a
  {
    forall w
      ensures Mix(a, a, w) == a
    {
      MixFromBelow(a, a, w);
      assert (a - a) * w == 0.0 * w == 0.0;
    }
  }

  // ---- Percentiles.

  function Upper(ordered: seq<real>, lower: int): int {
    if lower + 1 < |ordered| - 1 then lower + 1 else |ordered| - 1
  }

  /** Linear interpolation between the neighbours of `position` in an ordered list. */
  function Interpolate(ordered: seq<real>, position: real): real
    requires 0.0 <= position <= (|ordered| - 1) as real
  {
    var lower := position.Floor;
    Mix(ordered[lower], ordered[Upper(ordered, lower)], position - lower as real)
  }

  function Position(n: nat, percentile: real): real
    requires n > 0
  {
    (n - 1) as real * percentile
  }

  lemma PositionInRange(n: nat, p: real, q: real)
    requires n > 0 && 0.0 <= p <= q <= 1.0
    ensures 0.0 <= Position(n, p) <= Position(n, q) <= (n - 1) as real
  {
    var m := (n - 1) as real;
    TimesNonNegative(m, p);
    TimesMonotone(m, p, q);
    TimesAtMost(m, q);
  }

  /** `_percentile` of a list already in order. */
  function PercentileOf(ordered: seq<real>, percentile: real): real
    requires ordered != [] && 0.0 <= percentile <= 1.0
  {
    PositionInRange(|ordered|, percentile, percentile);
    Interpolate(ordered, Position(|ordered|, percentile))
  }

  /** `_percentile`. */
  function Percentile(samples: seq<real>, percentile: real): real
    requires samples != [] && 0.0 <= percentile <= 1.0
  {
    SortedIsSorted(samples);
    PercentileOf(Sorted(samples), percentile)
  }

  /** The standard median: the middle sample, or the mean of the two in the middle. */
  function MedianOf(ordered: seq<real>): real
    requires ordered != []
  {
    var n := |ordered|;
    if n % 2 == 1 then ordered[n / 2] else (ordered[n / 2 - 1] + ordered[n / 2]) / 2.0
  }

  function Median(samples: seq<real>): real
    requires samples != []
  {
    SortedIsSorted(samples);
    MedianOf(Sorted(samples))
  }

  /** Interpolation stays between its two neighbours. */
  lemma InterpolateBetween(ordered: seq<real>, position: real)
    requires Ascending(ordered) && 0.0 <= position <= (|ordered| - 1) as real
    ensures var lower := position.Floor;
            ordered[lower] <= Interpolate(ordered, position) <= ordered[Upper(ordered, lower)]
  {
    var lower := position.Floor;
    var a, b := ordered[lower], ordered[Upper(ordered, lower)];
    MixMonotone(a, b, 0.0, position - lower as real);
    MixMonotone(a, b, position - lower as real, 1.0);
    MixEnds(a, b);
  }

  lemma InterpolateMonotone(ordered: seq<real>, p: real, q: real)
    requires Ascending(ordered) && 0.0 <= p <= q <= (|ordered| - 1) as real
    ensures Interpolate(ordered, p) <= Interpolate(ordered, q)
  {
    if p.Floor == q.Floor {
      var lower := p.Floor;
      MixMonotone(ordered[lower], ordered[Upper(ordered, lower)], p - lower as real, q - lower as real);
    } else {
      InterpolateBetween(ordered, p);
      InterpolateBetween(ordered, q);
    }
  }

  /** A higher percentile is never a smaller value. */
  lemma PercentileMonotone(samples: seq<real>, p: real, q: real)
    requires samples != [] && 0.0 <= p <= q <= 1.0
    ensures Percentile(samples, p) <= Percentile(samples, q)
  {
    SortedIsSorted(samples);
    var n := |Sorted(samples)|;
    PositionInRange(n, p, q);
    InterpolateMonotone(Sorted(samples), Position(n, p), Position(n, q));
  }

  /** The order in which samples were taken does not matter. */
  lemma PercentileIgnoresOrder(samples: seq<real>, others: seq<real>, p: real)
    requires samples != [] && others != [] && multiset(samples) == multiset(others) && 0.0 <= p <= 1.0
    ensures Percentile(samples, p) == Percentile(others, p) && Median(samples) == Median(others)
  {
    SortedIsSorted(samples);
    SortedIsSorted(others);
    AscendingIsUnique(Sorted(samples), Sorted(others));
  }

  lemma MiddlePosition(n: nat)
    requires n > 0
    ensures var position := Position(n, 0.5);
            if n % 2 == 1 then position == (n / 2) as real && position.Floor == n / 2
            else position == (n / 2 - 1) as real + 0.5 && position.Floor == n / 2 - 1
  {
    var k := n / 2;
    if n % 2 == 1 {
      assert n - 1 == 2 * k;
      assert (2 * k) as real * 0.5 == k as real;
    } else {
      assert n - 1 == 2 * (k - 1) + 1;
      assert (2 * (k - 1) + 1) as real * 0.5 == (k - 1) as real + 0.5;
    }
  }

  /** The 50th percentile is the median. */
  lemma HalfIsMedian(samples: seq<real>)
    requires samples != []
    ensures Percentile(samples, 0.5) == Median(samples)
  {
    SortedIsSorted(samples);
    var ordered := Sorted(samples);
    var n := |ordered|;
    PositionInRange(n, 0.5, 0.5);
    MiddlePosition(n);
    var lower := Position(n, 0.5).Floor;
    MixEnds(ordered[lower], ordered[Upper(ordered, lower)]);
  }

  /** The ends of the scale are the smallest and the largest sample. */
  lemma EndsAreExtremes(samples: seq<real>)
    requires samples != []
    ensures Percentile(samples, 0.0) in samples && Percentile(samples, 1.0) in samples
    ensures forall x :: x in samples ==> Percentile(samples, 0.0) <= x <= Percentile(samples, 1.0)
  {
    SortedIsSorted(samples);
    var ordered := Sorted(samples);
    EndsOfOrdered(ordered);
    assert ordered[0] in multiset(ordered) && ordered[|ordered| - 1] in multiset(ordered);
    forall x | x in samples
      ensures ordered[0] <= x <= ordered[|ordered| - 1]
    {
      assert x in multiset(ordered);
      var i :| 0 <= i < |ordered| && ordered[i] == x;
    }
  }

  lemma EndsOfOrdered(ordered: seq<real>)
    requires ordered != []
    ensures PercentileOf(ordered, 0.0) == ordered[0] && PercentileOf(ordered, 1.0) == ordered[|ordered| - 1]
  {
    var n := |ordered|;
    assert Position(n, 0.0) == 0.0 && Position(n, 1.0) == (n - 1) as real;
    MixEnds(ordered[0], ordered[Upper(ordered, 0)]);
    MixEnds(ordered[n - 1], ordered[n - 1]);
  }

  datatype LatencyStats = LatencyStats(
    sampleCount: nat, min: Option<real>, median: Option<real>, p95: Option<real>, max: Option<real>)

  function Least(samples: seq<real>): real
    requires samples != []
  {
    if |samples| == 1 then samples[0] else
      var rest := Least(samples[1..]);
      if samples[0] <= rest then samples[0] else rest
  }

  function Greatest(samples: seq<real>): real
    requires samples != []
  {
    if |samples| == 1 then samples[0] else
      var rest := Greatest(samples[1..]);
      if samples[0] >= rest then samples[0] else rest
  }

  /** `_latency_stats`. */
  function Stats(samples: seq<real>): LatencyStats {
    if samples == [] then LatencyStats(0, None, None, None, None)
    else LatencyStats(|samples|, Some(Least(samples)), Some(Median(samples)), Some(Percentile(samples, 0.95)),
                      Some(Greatest(samples)))
  }

  lemma {:induction false} LeastAndGreatest(samples: seq<real>)
    requires samples != []
    ensures Least(samples) in samples && Greatest(samples) in samples
    ensures forall x :: x in samples ==> Least(samples) <= x <= Greatest(samples)
  {
    if |samples| > 1 {
      LeastAndGreatest(samples[1..]);
      assert samples == [samples[0]] + samples[1..];
    }
  }

  /** What a percentile is: at `k + w` parts of the `n - 1` between the samples, in order, it
      is `w` of the way from the k-th to the next. So it is linear in between, and passes
      through every sample. */
  lemma PercentileIsLinear(samples: seq<real>, p: real, k: nat, w: real)
    requires k + 1 < |samples| && 0.0 <= p <= 1.0 && 0.0 <= w <= 1.0
    requires (|samples| - 1) as real * p == k as real + w
    ensures |Sorted(samples)| == |samples|
    ensures Percentile(samples, p) == Sorted(samples)[k] + (Sorted(samples)[k + 1] - Sorted(samples)[k]) * w
  {
    SortedHasLength(samples);
    PositionIs(|samples|, p, k as real + w);
    PercentileAt(samples, Sorted(samples), |samples|, p, k, w);
  }

  lemma PositionIs(n: nat, p: real, position: real)
    requires n > 0 && (n - 1) as real * p == position
    ensures Position(n, p) == position
  {
  }

  lemma SortedHasLength(samples: seq<real>)
    ensures |Sorted(samples)| == |samples|
  {
    SortedIsSorted(samples);
  }

  lemma PercentileAt(samples: seq<real>, ordered: seq<real>, n: nat, p: real, k: nat, w: real)
    requires ordered == Sorted(samples) && |ordered| == |samples| == n
    requires k + 1 < n && 0.0 <= p <= 1.0 && 0.0 <= w <= 1.0
    requires Position(n, p) == k as real + w
    ensures Percentile(samples, p) == ordered[k] + (ordered[k + 1] - ordered[k]) * w
  {
    PositionInRange(|ordered|, p, p);
    InterpolateAt(ordered, k, w);
  }

  lemma InterpolateAt(ordered: seq<real>, k: nat, w: real)
    requires k + 1 < |ordered| && 0.0 <= w <= 1.0
    ensures 0.0 <= k as real + w <= (|ordered| - 1) as real
    ensures Interpolate(ordered, k as real + w) == ordered[k] + (ordered[k + 1] - ordered[k]) * w
  {
    if w < 1.0 {
      assert (k as real + w).Floor == k;
      MixFromBelow(ordered[k], ordered[k + 1], w);
    } else {
      assert (k as real + w).Floor == k + 1;
      MixEnds(ordered[k + 1], ordered[Upper(ordered, k + 1)]);
    }
  }

  /** Every summary gives the least sample, the 50th and the 95th percentile, and the greatest
      sample; and no summary of no samples gives any. */
  lemma StatsExactly(samples: seq<real>)
    ensures var s := Stats(samples);
            if samples == [] then s.min.None? && s.median.None? && s.p95.None? && s.max.None?
            else
              && s.min == Some(Percentile(samples, 0.0)) && s.median == Some(Percentile(samples, 0.5))
              && s.p95 == Some(Percentile(samples, 0.95)) && s.max == Some(Percentile(samples, 1.0))
  {
    if samples != [] {
      ExtremesAreEnds(samples);
      HalfIsMedian(samples);
    }
  }

  lemma ExtremesAreEnds(samples: seq<real>)
    requires samples != []
    ensures Least(samples) == Percentile(samples, 0.0) && Greatest(samples) == Percentile(samples, 1.0)
  {
    LeastAndGreatest(samples);
    EndsAreExtremes(samples);
  }

  /** In every summary the four figures are in order. */
  lemma StatsAreOrdered(samples: seq<real>)
    requires samples != []
    ensures var s := Stats(samples);
            s.min.value <= s.median.value <= s.p95.value <= s.max.value
    ensures Stats(samples).min.value == Percentile(samples, 0.0) && Stats(samples).max.value == Percentile(samples, 1.0)
  {
    ExtremesAreEnds(samples);
    HalfIsMedian(samples);
    PercentileMonotone(samples, 0.0, 0.5);
    PercentileMonotone(samples, 0.5, 0.95);
    PercentileMonotone(samples, 0.95, 1.0);
  }
}
