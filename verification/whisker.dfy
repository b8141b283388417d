/**
 The statistics half of `createWhiskerChart` (extension/content.js): the six
 exclusive buckets, the interpolated percentile `calcPercentile`, and the box
 reported for each bucket.
 */
module Whisker {
  import opened Wrappers
  import opened Seqs
  import opened Series
  import opened Windows
  import opened PeriodStats

  lemma ProductNonNegative(x: real, y: real)
    requires x >= 0.0 && y >= 0.0
    ensures x * y >= 0.0
  {
  }

  /** `a + f * (b - a)` for `0 <= f <= 1` lies between `a` and `b`. */
  lemma LerpBetween(a: real, b: real, f: real)
    requires a <= b && 0.0 <= f <= 1.0
    ensures a <= a + f * (b - a) <= b
  {
    ProductNonNegative(f, b - a);
    ProductNonNegative(1.0 - f, b - a);
    assert (1.0 - f) * (b - a) == (b - a) - f * (b - a);
  }

  /** `a + f * (b - a)` grows with `f` when `a <= b`. */
  lemma LerpMonotone(a: real, b: real, f: real, g: real)
    requires a <= b && f <= g
    ensures a + f * (b - a) <= a + g * (b - a)
  {
    ProductNonNegative(g - f, b - a);
    assert (g - f) * (b - a) == g * (b - a) - f * (b - a);
  }

  /** `Math.ceil(idx)` for a non-negative `idx`. */
  function Ceil(idx: real): int
  {
    if idx.Floor as real == idx then idx.Floor else idx.Floor + 1
  }

  /**
   The value at fractional position `idx` of a sorted list: the element itself
   at a whole index, else linear interpolation between its two neighbours.
   */
  function Interpolate(sorted: seq<real>, idx: real): real
    requires 0.0 <= idx <= (|sorted| - 1) as real
  {
    var lower, upper := idx.Floor, Ceil(idx);
    if lower == upper then sorted[lower]
    else sorted[lower] + (idx - lower as real) * (sorted[upper] - sorted[lower])
  }

  /** The interpolated value lies between the neighbours it interpolates. */
  lemma InterpolateBetween(sorted: seq<real>, idx: real)
    requires Sorted(sorted)
    requires 0.0 <= idx <= (|sorted| - 1) as real
    ensures sorted[idx.Floor] <= Interpolate(sorted, idx) <= sorted[Ceil(idx)]
  {
    if idx.Floor != Ceil(idx) {
      LerpBetween(sorted[idx.Floor], sorted[Ceil(idx)], idx - idx.Floor as real);
    }
  }

  /** Interpolation over a sorted list is monotone in the position. */
  lemma InterpolateMonotone(sorted: seq<real>, i: real, j: real)
    requires Sorted(sorted)
    requires 0.0 <= i <= j <= (|sorted| - 1) as real
    ensures Interpolate(sorted, i) <= Interpolate(sorted, j)
  {
    InterpolateBetween(sorted, i);
    InterpolateBetween(sorted, j);
    if i.Floor == j.Floor {
      if i.Floor != Ceil(i) {
        var lo := i.Floor;
        assert Ceil(j) == lo + 1 && Ceil(i) == lo + 1;
        LerpMonotone(sorted[lo], sorted[lo + 1], i - lo as real, j - lo as real);
      }
    } else {
      assert Ceil(i) <= j.Floor;
    }
  }

  /** `(p / 100) * (sorted.length - 1)`: the fractional position of percentile `p`. */
  function PercentileIndex(p: real, last: nat): (idx: real)
    requires 0.0 <= p <= 100.0
    ensures 0.0 <= idx <= last as real
    ensures p == 0.0 ==> idx == 0.0
    ensures p == 100.0 ==> idx == last as real
  {
    var f := p / 100.0;
    assert 0.0 <= f <= 1.0;
    ProductNonNegative(f, last as real);
    ProductNonNegative(1.0 - f, last as real);
    assert (1.0 - f) * last as real == last as real - f * last as real;
    f * last as real
  }

  /** Every position of a sorted list interpolates to a value between its ends. */
  lemma InterpolateWithinEnds(sorted: seq<real>, idx: real)
    requires Sorted(sorted) && |sorted| > 0
    requires 0.0 <= idx <= (|sorted| - 1) as real
    ensures sorted[0] <= Interpolate(sorted, idx) <= sorted[|sorted| - 1]
    ensures idx == 0.0 ==> Interpolate(sorted, idx) == sorted[0]
    ensures idx == (|sorted| - 1) as real ==> Interpolate(sorted, idx) == sorted[|sorted| - 1]
  {
    InterpolateBetween(sorted, idx);
  }

  /** `calcPercentile(arr, p)` for `p` in [0, 100]. */
  function Percentile(arr: seq<real>, p: real): (r: real)
    requires |arr| > 0 && 0.0 <= p <= 100.0
    ensures MinOf(arr) <= r <= MaxOf(arr)
    ensures p == 0.0 ==> r == MinOf(arr)
    ensures p == 100.0 ==> r == MaxOf(arr)
  {
    var sorted := Sort(arr);
    var idx := PercentileIndex(p, |arr| - 1);
    SortedEnds(arr);
    InterpolateWithinEnds(sorted, idx);
    Interpolate(sorted, idx)
  }

  /** At a whole index the percentile is exactly that element of the sorted list. */
  lemma PercentileAtWholeIndex(arr: seq<real>, p: real, k: nat)
    requires |arr| > 0 && 0.0 <= p <= 100.0
    requires PercentileIndex(p, |arr| - 1) == k as real
    ensures k < |arr| && Percentile(arr, p) == Sort(arr)[k]
  {
  }

  /** A larger `p` never gives a smaller percentile. */
  lemma PercentileMonotone(arr: seq<real>, p: real, q: real)
    requires |arr| > 0 && 0.0 <= p <= q <= 100.0
    ensures Percentile(arr, p) <= Percentile(arr, q)
  {
    var last := |arr| - 1;
    var i, j := PercentileIndex(p, last), PercentileIndex(q, last);
    ProductNonNegative(q / 100.0 - p / 100.0, last as real);
    assert (q / 100.0 - p / 100.0) * last as real == j - i;
    InterpolateMonotone(Sort(arr), i, j);
  }

  /** One column of the chart: its name and how far back it reaches. */
  datatype BucketDef = BucketDef(name: string, days: Days)

  /** The chart's columns, All on the left, most recent on the right. */
  const Buckets: seq<BucketDef> := [
    BucketDef("All", Infinite),
    BucketDef("3Y", Finite(1095)),
    BucketDef("1Y", Finite(365)),
    BucketDef("3M", Finite(90)),
    BucketDef("1M", Finite(30)),
    BucketDef("1W", Finite(7))
  ]

  /**
   The inline filter for bucket `i`: the first (infinite) bucket keeps what is
   older than the next bucket's reach, the last keeps what is newer than its
   own, and a middle one keeps what lies between its reach and the next one's.
   */
  predicate InBucket(p: Point, buckets: seq<BucketDef>, i: nat, today: int)
    requires i < |buckets|
  {
    var b := buckets[i];
    if b.days.Infinite? then
      Before(p.day, if i + 1 < |buckets| then buckets[i + 1].days else Finite(0), today)
    else if i + 1 == |buckets| then AtOrAfter(p.day, b.days, today)
    else AtOrAfter(p.day, b.days, today) && Before(p.day, buckets[i + 1].days, today)
  }

  function BucketData(data: seq<Point>, buckets: seq<BucketDef>, i: nat, today: int): seq<Point>
    requires i < |buckets|
  {
    Filter(data, p => InBucket(p, buckets, i, today))
  }

  /** The chart's buckets select the same points as the windows of `calculateStats`. */
  lemma BucketsMatchStatsWindows(data: seq<Point>, i: nat, today: int)
    requires i < |Buckets|
    ensures |StatsWindows| == |Buckets|
    ensures BucketData(data, Buckets, i, today)
         == FilterByDaysExclusive(data, StatsWindows[i].start, StatsWindows[i].end, today)
  {
    var w := StatsWindows[i];
    FilterExtensional(data, p => InBucket(p, Buckets, i, today), p => InWindow(p, w.start, w.end, today));
  }

  /** A column: `NoData` is the `{label, min: null}` the code pushes for a sparse bucket. */
  datatype Box =
    | NoData(name: string)
    | Box(name: string, min: real, q1: real, median: real, q3: real, max: real, count: nat)

  /** The box for one bucket's prices. */
  function MakeBox(name: string, prices: seq<real>): (b: Box)
    ensures b.name == name
    ensures b.NoData? <==> |prices| < 2
    ensures b.Box? ==> b.count == |prices|
    ensures b.Box? ==> b.min <= b.q1 <= b.median <= b.q3 <= b.max
    ensures b.Box? ==>
      && b.q1 == Percentile(prices, 25.0)
      && b.median == Percentile(prices, 50.0)
      && b.q3 == Percentile(prices, 75.0)
    ensures b.Box? ==> b.min in prices && b.max in prices
    ensures b.Box? ==> forall i :: 0 <= i < |prices| ==> b.min <= prices[i] <= b.max
  {
    if |prices| < 2 then NoData(name)
    else
      PercentileMonotone(prices, 25.0, 50.0);
      PercentileMonotone(prices, 50.0, 75.0);
      Box(name, MinOf(prices), Percentile(prices, 25.0), Percentile(prices, 50.0),
          Percentile(prices, 75.0), MaxOf(prices), |prices|)
  }

  /** The boxes of `createWhiskerChart`; None for the early return on empty data. */
  function WhiskerBoxes(data: seq<Point>, today: int): (r: Option<seq<Box>>)
    ensures r.None? <==> |data| == 0
    ensures r.Some? ==> |r.value| == |Buckets|
    ensures r.Some? ==> forall i :: 0 <= i < |Buckets| ==>
      && r.value[i].name == Buckets[i].name
      && (r.value[i].NoData? <==> |BucketData(data, Buckets, i, today)| < 2)
      && (r.value[i].Box? ==> r.value[i].count == |BucketData(data, Buckets, i, today)|)
      && (r.value[i].Box? ==> r.value[i].min <= r.value[i].q1 <= r.value[i].median <= r.value[i].q3 <= r.value[i].max)
      && r.value[i] == MakeBox(Buckets[i].name, Prices(BucketData(data, Buckets, i, today)))
  {
    if |data| == 0 then None
    else Some(seq(|Buckets|, i requires 0 <= i < |Buckets| =>
      MakeBox(Buckets[i].name, Prices(BucketData(data, Buckets, i, today)))))
  }
}
