/**
 The userscript's statistics and recommendation (`calculateStats` and
 `getRecommendation`, galaxus-price-analyzer.user.js): mean, median,
 variance, extremes, current price, price position and short-term trend.
 */
module LegacyStats {
  import opened Wrappers
  import opened Seqs
  import opened Rounding
  import opened Tiers

  /** An element of `prices`: a bare number or an object with a `price`. */
  datatype Sample = Bare(v: real) | Priced(price: real)

  /** `typeof p === 'object' ? p.price : p`. */
  function ValueOf(s: Sample): real
  {
    match s
    case Bare(v) => v
    case Priced(p) => p
  }

  function Values(samples: seq<Sample>): (r: seq<real>)
    ensures |r| == |samples|
    ensures forall i :: 0 <= i < |samples| ==> r[i] == ValueOf(samples[i])
  {
    seq(|samples|, i requires 0 <= i < |samples| => ValueOf(samples[i]))
  }

  /** The median of the sorted values: the middle one, or the mean of the two middle ones. */
  function Median(values: seq<real>): real
    requires |values| > 0
  {
    var sorted := Sort(values);
    var n := |values|;
    if n % 2 == 0 then (sorted[n / 2 - 1] + sorted[n / 2]) / 2.0 else sorted[n / 2]
  }

  /** `avgSquaredDiff`: the mean squared deviation from the mean. */
  function Variance(values: seq<real>): real
    requires |values| > 0
  {
    var mean := Mean(values);
    Mean(seq(|values|, i requires 0 <= i < |values| => (values[i] - mean) * (values[i] - mean)))
  }

  /** `values.slice(-3)`: the last three values, or all of them when fewer. */
  function LastThree(values: seq<real>): (r: seq<real>)
    ensures |r| == if |values| < 3 then |values| else 3
  {
    if |values| <= 3 then values else values[|values| - 3..]
  }

  /** The last recent value minus the first one, 0 for a single value. */
  function Trend(values: seq<real>): real
  {
    var recent := LastThree(values);
    if |recent| >= 2 then recent[|recent| - 1] - recent[0] else 0.0
  }

  /** `calculateStats`' result. `variance` stands in for `stdDev`, its square root. */
  datatype Stats = Stats(
    mean: real, median: real, variance: real, min: real, max: real,
    current: real, pricePosition: Option<int>, trend: real, count: nat)

  /**
   `Math.round(((current - min) / (max - min)) * 100)`; None is the NaN a flat
   history (max == min) produces.
   */
  function Position(current: real, min: real, max: real): Option<int>
  {
    if max == min then None else Some(RoundHalfUp((current - min) / (max - min) * 100.0))
  }

  /** `calculateStats(prices)`; None stands for `null` both as argument and as result. */
  function CalculateStats(prices: Option<seq<Sample>>): (r: Option<Stats>)
    ensures r.None? <==> prices.None? || |prices.value| == 0
    ensures r.Some? ==> var values := Values(prices.value);
      && r.value.count == |values|
      && r.value.current == values[|values| - 1]
      && r.value.mean == RoundCents(Mean(values))
      && r.value.median == RoundCents(Median(values))
      && r.value.min == RoundCents(MinOf(values))
      && r.value.max == RoundCents(MaxOf(values))
      && r.value.min <= r.value.mean <= r.value.max
      && r.value.min <= r.value.median <= r.value.max
      && r.value.variance == Variance(values)
      && r.value.variance >= 0.0
      && r.value.pricePosition == Position(values[|values| - 1], MinOf(values), MaxOf(values))
      && (r.value.pricePosition.None? <==> MinOf(values) == MaxOf(values))
      && (r.value.pricePosition.Some? ==> 0 <= r.value.pricePosition.value <= 100)
      && r.value.trend == RoundCents(Trend(values))
  {
    if prices.None? || |prices.value| == 0 then None
    else
      var values := Values(prices.value);
      var lo, hi := MinOf(values), MaxOf(values);
      StatsBounds(values);
      Some(Stats(
        RoundCents(Mean(values)), RoundCents(Median(values)), Variance(values),
        RoundCents(lo), RoundCents(hi), values[|values| - 1],
        Position(values[|values| - 1], lo, hi),
        RoundCents(Trend(values)), |values|))
  }

  /** The facts `CalculateStats` reports, gathered for one list of values. */
  lemma StatsBounds(values: seq<real>)
    requires |values| > 0
    ensures RoundCents(MinOf(values)) <= RoundCents(Mean(values)) <= RoundCents(MaxOf(values))
    ensures RoundCents(MinOf(values)) <= RoundCents(Median(values)) <= RoundCents(MaxOf(values))
    ensures Variance(values) >= 0.0
    ensures var p := Position(values[|values| - 1], MinOf(values), MaxOf(values));
      p.Some? ==> 0 <= p.value <= 100
  {
    MeanBetweenMinMax(values);
    MedianBetweenMinMax(values);
    VarianceNonNegative(values);
    RoundedBetween(MinOf(values), Mean(values), MaxOf(values));
    RoundedBetween(MinOf(values), Median(values), MaxOf(values));
    PositionWithin(values[|values| - 1], MinOf(values), MaxOf(values));
  }

  /** A current price inside the range has a position in [0, 100]. */
  lemma PositionWithin(current: real, min: real, max: real)
    requires min <= current <= max
    ensures Position(current, min, max).Some? ==> 0 <= Position(current, min, max).value <= 100
  {
    if min != max {
      PercentOfRange(current, min, max);
    }
  }

  lemma RoundedBetween(lo: real, x: real, hi: real)
    requires lo <= x <= hi
    ensures RoundCents(lo) <= RoundCents(x) <= RoundCents(hi)
  {
    RoundCentsMonotone(lo, x);
    RoundCentsMonotone(x, hi);
  }

  /** The median lies between the smallest and the largest value. */
  lemma MedianBetweenMinMax(values: seq<real>)
    requires |values| > 0
    ensures MinOf(values) <= Median(values) <= MaxOf(values)
  {
    var sorted, n := Sort(values), |values|;
    SortedEnds(values);
    if n % 2 == 0 {
      assert sorted[0] <= sorted[n / 2 - 1] <= sorted[n - 1];
      assert sorted[0] <= sorted[n / 2] <= sorted[n - 1];
    } else {
      assert sorted[0] <= sorted[n / 2] <= sorted[n - 1];
    }
  }

  /** A mean of squares is never negative. */
  lemma VarianceNonNegative(values: seq<real>)
    requires |values| > 0
    ensures Variance(values) >= 0.0
  {
    var mean := Mean(values);
    var squares := seq(|values|, i requires 0 <= i < |values| => (values[i] - mean) * (values[i] - mean));
    forall i | 0 <= i < |squares|
      ensures 0.0 <= squares[i]
    {
      var d := values[i] - mean;
      assert squares[i] == d * d;
      if d < 0.0 {
        assert (-d) * (-d) == d * d;
      }
    }
    SumAtLeast(squares, 0.0);
    DivideLowerBound(Sum(squares), |squares| as real, 0.0);
  }

  /** The head of a sorted list is its least element. */
  lemma SortedHeadLeast(a: seq<real>, x: real)
    requires Sorted(a) && x in multiset(a)
    ensures a[0] <= x
  {
    var i :| 0 <= i < |a| && a[i] == x;
    assert a[0] <= a[i];
  }

  /** Removing the head removes one occurrence of it. */
  lemma MultisetTail(a: seq<real>)
    requires |a| > 0
    ensures multiset(a[1..]) == multiset(a) - multiset{a[0]}
  {
    assert a == [a[0]] + a[1..];
  }

  /** Two sorted lists holding the same values are the same list. */
  lemma {:induction false} SortedUnique(a: seq<real>, b: seq<real>)
    requires Sorted(a) && Sorted(b) && multiset(a) == multiset(b)
    ensures a == b
  {
    if |a| > 0 {
      SameHeadSameTail(a, b);
      SortedUnique(a[1..], b[1..]);
      assert a == [a[0]] + a[1..] && b == [b[0]] + b[1..];
    } else {
      assert |b| == |multiset(b)| == 0;
    }
  }

  /** Sorted lists with the same values agree on their heads and on the values of their tails. */
  lemma SameHeadSameTail(a: seq<real>, b: seq<real>)
    requires Sorted(a) && Sorted(b) && multiset(a) == multiset(b) && |a| > 0
    ensures |b| > 0 && a[0] == b[0]
    ensures Sorted(a[1..]) && Sorted(b[1..]) && multiset(a[1..]) == multiset(b[1..])
  {
    assert |b| == |multiset(b)| == |a|;
    assert a[0] in multiset(a) && b[0] in multiset(b);
    SortedHeadLeast(a, b[0]);
    SortedHeadLeast(b, a[0]);
    MultisetTail(a);
    MultisetTail(b);
    SortedTail(a);
    SortedTail(b);
  }

  /** The median depends only on which values occur, not on their order. */
  lemma MedianOfPermutation(a: seq<real>, b: seq<real>)
    requires |a| > 0 && multiset(a) == multiset(b)
    ensures |b| == |a| && Median(a) == Median(b)
  {
    assert |b| == |multiset(b)| == |a|;
    SortedUnique(Sort(a), Sort(b));
  }

  /**
   On an already sorted list the median is read off directly: the middle
   element for an odd length, the mean of the two middle ones for an even one.
   */
  lemma MedianOfSorted(values: seq<real>)
    requires |values| > 0 && Sorted(values)
    ensures var n := |values|;
      Median(values) == if n % 2 == 0 then (values[n / 2 - 1] + values[n / 2]) / 2.0 else values[n / 2]
  {
    SortedUnique(Sort(values), values);
  }

  /** The trend compares the last value with the one two steps earlier, or the previous one. */
  lemma TrendCases(values: seq<real>)
    requires |values| > 0
    ensures |values| == 1 ==> Trend(values) == 0.0
    ensures |values| == 2 ==> Trend(values) == values[1] - values[0]
    ensures |values| >= 3 ==> Trend(values) == values[|values| - 1] - values[|values| - 3]
  {
  }

  /** `(current - mean) / mean * 100` as IEEE arithmetic yields it. */
  datatype Quotient = Num(x: real) | PlusInfinity | MinusInfinity | NotANumber

  /** The percent deviation; a zero mean divides by zero (the mean is taken as +0). */
  function Deviation(current: real, mean: real): (q: Quotient)
  {
    if mean != 0.0 then Num((current - mean) / mean * 100.0)
    else if current > 0.0 then PlusInfinity
    else if current < 0.0 then MinusInfinity
    else NotANumber
  }

  /** `getRecommendation(stats, allTimeStats)`; the second argument only feeds the text. */
  function GetRecommendation(stats: Stats): (t: Tier)
    ensures stats.mean != 0.0 ==> InBand(t, (stats.current - stats.mean) / stats.mean * 100.0)
    ensures stats.mean == 0.0 ==> t == (if stats.current > 0.0 then Wait else if stats.current < 0.0 then Good else Neutral)
  {
    match Deviation(stats.current, stats.mean)
    case Num(x) => Classify(x)
    case PlusInfinity => Wait         // +Infinity passes only `>= 10`
    case MinusInfinity => Good        // -Infinity passes `<= -10` first
    case NotANumber => Neutral        // NaN fails every comparison
  }
}
