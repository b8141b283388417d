/**
 `getRecommendation` of the extension (extension/content.js): the current
 price against the 3M window's average, or the All window's when the 3M one
 is missing.
 */
module Recommendation {
  import opened Wrappers
  import opened Tiers
  import opened PeriodStats

  /** The advice: `NotEnoughData` is the neutral "not enough data" answer. */
  datatype Advice = NotEnoughData | Advice(tier: Tier, diff: real)

  /** The 3M window's average when truthy, else the All window's when truthy. */
  function ReferenceAverage(stats: Analysis): Option<real>
  {
    if Truthy(stats.m3.avg) then stats.m3.avg
    else if Truthy(stats.all.avg) then stats.all.avg
    else None
  }

  /** `getRecommendation(stats)`. */
  function GetRecommendation(stats: Analysis): (r: Advice)
    ensures r.NotEnoughData? <==> !Truthy(stats.m3.avg) && !Truthy(stats.all.avg)
    ensures r.Advice? ==>
      var reference := if Truthy(stats.m3.avg) then stats.m3.avg.value else stats.all.avg.value;
      && reference != 0.0
      && r.diff == (stats.current - reference) / reference * 100.0
      && InBand(r.tier, r.diff)
  {
    match ReferenceAverage(stats)
    case None => NotEnoughData
    case Some(avg) =>
      var diff := (stats.current - avg) / avg * 100.0;
      Advice(Classify(diff), diff)
  }

  /** With a 3M average at hand, the All window is never consulted. */
  lemma RecentWindowPreferred(stats: Analysis, all: Summary)
    requires Truthy(stats.m3.avg)
    ensures GetRecommendation(stats) == GetRecommendation(stats.(all := all))
  {
  }
}
