/**
 Per-window summaries and the overall analysis of the extension
 (`calcStats` and `calculateStats`, extension/content.js). Every observation
 weighs once; amounts are rounded to cents as the code returns them.
 */
module PeriodStats {
  import opened Wrappers
  import opened Seqs
  import opened Rounding
  import opened Series
  import opened Windows

  /** `calcStats`' result; `None` stands for `null`. */
  datatype Summary = Summary(avg: Option<real>, min: Option<real>, max: Option<real>, count: nat)

  /** `prices.map(p => p.price)`. */
  function Prices(points: seq<Point>): (r: seq<real>)
    ensures |r| == |points|
    ensures forall i :: 0 <= i < |points| ==> r[i] == points[i].price
  {
    seq(|points|, i requires 0 <= i < |points| => points[i].price)
  }

  /** `calcStats(prices)`. */
  function CalcStats(points: seq<Point>): (r: Summary)
    ensures r.count == |points|
    ensures |points| == 0 ==> r.avg.None? && r.min.None? && r.max.None?
    ensures |points| > 0 ==> r.avg.Some? && r.min.Some? && r.max.Some?
    ensures |points| > 0 ==>
      && r.avg.value == RoundCents(Mean(Prices(points)))
      && r.min.value == RoundCents(MinOf(Prices(points)))
      && r.max.value == RoundCents(MaxOf(Prices(points)))
    ensures |points| > 0 ==> r.min.value <= r.avg.value <= r.max.value
    ensures |points| > 0 ==> forall i :: 0 <= i < |points| ==>
      r.min.value <= RoundCents(points[i].price) <= r.max.value
    ensures |points| > 0 ==> exists i :: 0 <= i < |points| && r.min.value == RoundCents(points[i].price)
    ensures |points| > 0 ==> exists i :: 0 <= i < |points| && r.max.value == RoundCents(points[i].price)
  {
    if |points| == 0 then Summary(None, None, None, 0)
    else
      var values := Prices(points);
      SummaryBounds(values);
      Summary(Some(RoundCents(Mean(values))), Some(RoundCents(MinOf(values))),
              Some(RoundCents(MaxOf(values))), |values|)
  }

  /** Before and after rounding, the mean lies between the extremes. */
  lemma SummaryBounds(values: seq<real>)
    requires |values| > 0
    ensures RoundCents(MinOf(values)) <= RoundCents(Mean(values)) <= RoundCents(MaxOf(values))
    ensures forall i :: 0 <= i < |values| ==>
      RoundCents(MinOf(values)) <= RoundCents(values[i]) <= RoundCents(MaxOf(values))
  {
    MeanBetweenMinMax(values);
    RoundCentsMonotone(MinOf(values), Mean(values));
    RoundCentsMonotone(Mean(values), MaxOf(values));
    forall i | 0 <= i < |values|
      ensures RoundCents(MinOf(values)) <= RoundCents(values[i]) <= RoundCents(MaxOf(values))
    {
      RoundCentsMonotone(MinOf(values), values[i]);
      RoundCentsMonotone(values[i], MaxOf(values));
    }
  }

  /** `calculateStats`' result. */
  datatype Analysis = Analysis(
    current: real,
    w1: Summary, m1: Summary, m3: Summary, y1: Summary, y3: Summary, all: Summary,
    pricePosition: int,
    count: nat)

  /** JavaScript truthiness of a number that may be `null`. */
  predicate Truthy(x: Option<real>)
  {
    x.Some? && x.value != 0.0
  }

  /** The override when it is truthy, otherwise the price of the last point (non-empty data). */
  function CurrentPrice(data: seq<Point>, override: Option<real>): real
    requires |data| > 0
  {
    if Truthy(override) then override.value else data[|data| - 1].price
  }

  /**
   The position of `current` in the range of all prices, as a rounded percentage;
   `min` and `max` are the rounded extremes `calcStats` reports, and a range that
   rounds to nothing gives 50.
   */
  function PricePosition(current: real, min: real, max: real): (r: int)
    ensures min == max ==> r == 50
    ensures min != max ==> var pct := (current - min) / (max - min) * 100.0;
      pct - 0.5 < r as real <= pct + 0.5
    ensures min < max && min <= current <= max ==> 0 <= r <= 100
  {
    if max != min then
      PercentWithin(current, min, max);
      RoundHalfUp((current - min) / (max - min) * 100.0)
    else 50
  }

  /** A price inside a non-empty range sits at a percentage in [0, 100] of it. */
  lemma PercentWithin(current: real, min: real, max: real)
    requires min != max
    ensures min < max && min <= current <= max ==>
      0 <= RoundHalfUp((current - min) / (max - min) * 100.0) <= 100
  {
    if min < max && min <= current <= max {
      PercentOfRange(current, min, max);
    }
  }

  /** `calculateStats(allData, currentPriceOverride)` on points seen from `today`. */
  function CalculateStats(data: seq<Point>, override: Option<real>, today: int): (r: Option<Analysis>)
    ensures r.None? <==> |data| == 0
    ensures r.Some? ==> r.value.count == |data|
    ensures r.Some? ==>
      r.value.all.count + r.value.y3.count + r.value.y1.count
      + r.value.m3.count + r.value.m1.count + r.value.w1.count == |data|
    ensures r.Some? ==> r.value.current == RoundCents(CurrentPrice(data, override))
    ensures r.Some? && CalcStats(data).min == CalcStats(data).max ==> r.value.pricePosition == 50
    ensures r.Some? ==>
      r.value.pricePosition == PricePosition(CurrentPrice(data, override), CalcStats(data).min.value, CalcStats(data).max.value)
    ensures r.Some? ==>
      && r.value.all == CalcStats(FilterByDaysExclusive(data, Infinite, Finite(1095), today))
      && r.value.y3 == CalcStats(FilterByDaysExclusive(data, Finite(1095), Finite(365), today))
      && r.value.y1 == CalcStats(FilterByDaysExclusive(data, Finite(365), Finite(90), today))
      && r.value.m3 == CalcStats(FilterByDaysExclusive(data, Finite(90), Finite(30), today))
      && r.value.m1 == CalcStats(FilterByDaysExclusive(data, Finite(30), Finite(7), today))
      && r.value.w1 == CalcStats(FilterByDaysExclusive(data, Finite(7), Finite(0), today))
  {
    if |data| == 0 then None
    else
      var total := CalcStats(data);
      WindowCountsSum(data, today);
      Some(Analysis(
        RoundCents(CurrentPrice(data, override)),
        CalcStats(FilterByDaysExclusive(data, Finite(7), Finite(0), today)),
        CalcStats(FilterByDaysExclusive(data, Finite(30), Finite(7), today)),
        CalcStats(FilterByDaysExclusive(data, Finite(90), Finite(30), today)),
        CalcStats(FilterByDaysExclusive(data, Finite(365), Finite(90), today)),
        CalcStats(FilterByDaysExclusive(data, Finite(1095), Finite(365), today)),
        CalcStats(FilterByDaysExclusive(data, Infinite, Finite(1095), today)),
        PricePosition(CurrentPrice(data, override), total.min.value, total.max.value),
        |data|))
  }

  /**
   Without an override and with every price a whole number of cents, the
   reported position lies in [0, 100] (exactly 50 for a flat history).
   */
  lemma PricePositionInRange(data: seq<Point>, today: int)
    requires |data| > 0
    requires forall i :: 0 <= i < |data| ==> WholeCents(data[i].price)
    ensures 0 <= CalculateStats(data, None, today).value.pricePosition <= 100
  {
    var values := Prices(data);
    var last := data[|data| - 1].price;
    assert last == values[|values| - 1];
    RoundCentsOfWholeCents(MinOf(values));
    RoundCentsOfWholeCents(MaxOf(values));
    var total := CalcStats(data);
    assert total.min.value == MinOf(values) && total.max.value == MaxOf(values);
  }
}
