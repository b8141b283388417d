# Galaxus price analyzer — price statistics core in Dafny

The Galaxus price analyzer is a browser extension (`extension/content.js`) with an
older userscript (`galaxus-price-analyzer.user.js`). It finds a product's price
history on a Galaxus page, summarises it over time windows and advises whether to
buy now or wait. This project models the pure part of that pipeline:

- `findInObject`, the bounded-depth search for a history array inside a page's
  embedded JSON (`Json`);
- `normalizeData`, which turns the array it finds into `{date, price}` points
  (`Series`);
- `filterByDaysExclusive` and the six exclusive windows All/3Y/1Y/3M/1M/1W of the
  extension's `calculateStats` (`Windows`);
- `calcStats` and `calculateStats` of the extension (`PeriodStats`);
- the statistics half of `createWhiskerChart`: the inline bucket filter, the
  interpolated percentile `calcPercentile` and the box per bucket (`Whisker`);
- the shared −10/−5/10/5 tier ladder (`Tiers`), the extension's
  `getRecommendation` (`Recommendation`), and the userscript's `calculateStats`
  and `getRecommendation` (`LegacyStats`);
- the loop in `extractFromVisibleChart` that keeps only chart points whose x is
  more than half a pixel from the last kept one (`ChartPoints`).

Dates are whole day numbers on a fixed calendar, and "today" is a parameter.
Prices are exact `real`s. `Math.round` is modelled as rounding half up,
`floor(x + 0.5)`, and `Math.round(x * 100) / 100` as rounding to cents with that
rule (`Rounding`). The statistics weight every observation once, as both
source files do: neither file weights observations by duration, sorts or
de-duplicates the series, or subdivides a window, and a whisker bucket needs at
least two points.

`Seqs` holds the generic sequence machinery: filter, subsequence, sum, extremes,
mean and insertion sort. `Wrappers` holds `Option`.

## Model

| member | source | states |
|---|---|---|
| Json.FirstHit | extension/content.js:196-200 | present exactly when some key names a non-empty array on this node; it is then the array of the first such key in `keys` order |
| Json.FindInObject | extension/content.js:193-208 | null beyond depth 15 or on a non-object; any result is a non-empty array stored under one of the keys in this node or a descendant within the depth limit; a hit on the node itself wins over every child |
| Json.ForInOrder | extension/content.js:202 | the children are visited in a permutation of the written positions, ascending by enumeration key: array index keys by numeric value, then the other keys |
| Json.ForInOrderRule | extension/content.js:202 | an array index key is visited before any other key, array index keys in ascending numeric order, other keys in written order |
| Json.IndexKeySearchedFirst | extension/content.js:202-205 | in `{"a": {"priceHistory": [1]}, "0": {"priceHistory": [2]}}` the search returns `[2]`, because key `"0"` is enumerated first |
| Json.FindInChildren | extension/content.js:202-205 | a result found among the children is a non-empty array stored within the parent's reach |
| Json.FindInChildrenFirst | extension/content.js:202-205 | the loop returns the answer of the first child, in enumeration order, whose search succeeds; every child before it answers null |
| Json.FindInObjectComplete | extension/content.js:193-208 | the search returns an array exactly when some node within the depth limit holds a hit, so nothing reachable is missed |
| Json.FindInChildrenComplete | extension/content.js:202-205 | the child loop from child `i` on succeeds exactly when one of those children holds a hit within reach |
| Series.NormalizeData | extension/content.js:486-492 | null for a non-array; a TypeError outcome for a null element; otherwise an order-preserving subsequence of the mapped items whose length is the number of mapped items with a positive price, every price positive, and every such item kept |
| Series.UndatedItemIsToday | extension/content.js:489 | an item without a truthy `date` or `Date` is dated today |
| Series.InclusiveAmountPreferred | extension/content.js:490 | a truthy numeric `price.amountIncl` is the price, whatever the other fields hold |
| Windows.FilterByDaysExclusive | extension/content.js:495-521 | a subsequence of the input; every kept point is inside the window (`date < end` for an infinite start, `date >= start` for end 0, `start <= date < end` otherwise); no point inside the window is dropped; the length is the number of input points inside the window |
| Windows.WindowsPartition | extension/content.js:542-547 | each point lies in exactly one of the six windows ∞–1095, 1095–365, 365–90, 90–30, 30–7 and 7–0 |
| Windows.WindowCountsSum | extension/content.js:542-547 | the six window sizes add up to the number of points |
| Seqs.Filter | extension/content.js:491 | keeps exactly the elements satisfying the test, each one an input element, with the count as its length |
| Seqs.MeanBetweenMinMax | extension/content.js:525-528 | the mean of a non-empty list lies between its minimum and maximum |
| Seqs.Sort | extension/content.js:624 | the result is sorted, is a permutation of the input and has the same length |
| Seqs.SortedEnds | extension/content.js:624 | the first sorted element is the minimum and the last one is the maximum |
| Rounding.RoundHalfUp | extension/content.js:565 | the integer is within half a unit of its argument, ties rounded up |
| Rounding.RoundCents | extension/content.js:529-532 | the result is a whole number of cents within half a cent of its argument |
| Rounding.RoundCentsMonotone | extension/content.js:529-532 | rounding to cents preserves order |
| Rounding.PercentOfRange | galaxus-price-analyzer.user.js:441 | a value inside a non-empty range rounds to a percentage of it between 0 and 100 |
| PeriodStats.CalcStats | extension/content.js:523-535 | count is the number of points; empty input gives null avg/min/max; otherwise avg, min and max are the mean, minimum and maximum of the prices rounded to cents, min ≤ avg ≤ max, every rounded price lies within [min, max], and min and max are attained |
| PeriodStats.SummaryBounds | extension/content.js:526-533 | after rounding to cents, min ≤ mean ≤ max and every price lies between min and max |
| PeriodStats.PricePosition | extension/content.js:559-565 | 50 when the rounded min equals the rounded max; otherwise the nearest integer to `(current − min)/(max − min)·100`, within [0, 100] when current is in range |
| PeriodStats.CalculateStats | extension/content.js:537-567 | null exactly for empty data; count is the number of points; the six window counts add up to it; each of all, y3, y1, m3, m1 and w1 is the summary of its window; current is the truthy override or else the last price, rounded to cents; the position is the PricePosition of that current price in the rounded overall range, 50 for a flat history |
| PeriodStats.PricePositionInRange | extension/content.js:556-565 | with whole-cent prices and no override, the reported position lies in [0, 100] |
| Whisker.PercentileIndex | extension/content.js:625 | the fractional index lies in [0, n−1]; it is 0 for p = 0 and n−1 for p = 100 |
| Whisker.Percentile | extension/content.js:623-630 | the result lies between the smallest and the largest element; p = 0 gives the minimum and p = 100 the maximum |
| Whisker.PercentileAtWholeIndex | extension/content.js:626-628 | at a whole index the result is exactly that element of the sorted list |
| Whisker.PercentileMonotone | extension/content.js:623-630 | a larger p never gives a smaller percentile |
| Whisker.BucketsMatchStatsWindows | extension/content.js:632-659 | the chart's inline bucket filter keeps exactly the points `filterByDaysExclusive` keeps for the matching window |
| Whisker.MakeBox | extension/content.js:661-676 | no data exactly below two prices; otherwise q1, median and q3 are the interpolated 25th, 50th and 75th percentiles of the bucket's prices, min ≤ q1 ≤ median ≤ q3 ≤ max, count is the bucket size, and min and max are prices that bound all the others |
| Whisker.WhiskerBoxes | extension/content.js:605-679 | nothing for empty data; otherwise six boxes named All…1W, box `i` being MakeBox of bucket `i`'s prices: empty exactly when the bucket holds fewer than two points, else with the bucket's size as count and min ≤ q1 ≤ median ≤ q3 ≤ max |
| Tiers.Classify | extension/content.js:759-763 | the tier's band contains the deviation |
| Tiers.ClassifyExactlyOne | extension/content.js:759-763 | the ladder returns a tier exactly when the deviation is in that tier's band, so exactly one tier fits |
| Tiers.ClassifyMonotone | extension/content.js:759-763 | a larger deviation never yields a more favourable tier |
| Recommendation.GetRecommendation | extension/content.js:755-764 | "not enough data" exactly when neither the 3M nor the All average is truthy; otherwise the reference is the 3M average when truthy, else the All average, and the tier's band contains `(current − ref)/ref·100` |
| Recommendation.RecentWindowPreferred | extension/content.js:756 | with a truthy 3M average the All window does not affect the advice |
| LegacyStats.CalculateStats | galaxus-price-analyzer.user.js:413-460 | null exactly for null or empty input; count, current is the last value; mean, median, min and max are those of the values rounded to cents, with min ≤ mean ≤ max and min ≤ median ≤ max, variance is the mean squared deviation from the unrounded mean and is ≥ 0; the position is the nearest integer to `(current − min)/(max − min)·100` measured against the UNROUNDED min and max (the extension uses the rounded ones), absent (NaN) exactly for a flat history and otherwise in [0, 100]; trend is the rounded last-three trend |
| LegacyStats.StatsBounds | galaxus-price-analyzer.user.js:419-441 | mean and median lie between the extremes after rounding; the variance is non-negative; the position is in [0, 100] |
| LegacyStats.MedianBetweenMinMax | galaxus-price-analyzer.user.js:423-426 | the median lies between the minimum and the maximum |
| LegacyStats.MedianOfSorted | galaxus-price-analyzer.user.js:423-426 | on a sorted list the median is the middle element for an odd length and the mean of the two middle elements for an even length |
| LegacyStats.MedianOfPermutation | galaxus-price-analyzer.user.js:423-426 | the median depends only on the multiset of values, not their order |
| LegacyStats.SortedUnique | galaxus-price-analyzer.user.js:423 | two sorted lists holding the same values are equal, so the sorted list the median reads is unique |
| LegacyStats.VarianceNonNegative | galaxus-price-analyzer.user.js:429-430 | the mean squared deviation is non-negative |
| LegacyStats.PositionWithin | galaxus-price-analyzer.user.js:441 | a current price inside [min, max] has a position in [0, 100] when the range is not flat |
| LegacyStats.TrendCases | galaxus-price-analyzer.user.js:444-447 | the trend is 0 for one value, last minus first for two, and last minus the third-to-last otherwise |
| LegacyStats.GetRecommendation | galaxus-price-analyzer.user.js:538-567 | for a non-zero mean, the tier's band contains `(current − mean)/mean·100`; for a zero mean, the tier follows IEEE division: +∞ gives wait, −∞ gives good and NaN gives neutral |
| ChartPoints.UniqueX | extension/content.js:355-363 | a point is kept exactly when its x is more than 0.5 from the last kept x (−1 at first); the kept points are the flagged ones in order; each kept x is more than 0.5 from the previously kept x |
| ChartPoints.SelectIsSubseq | extension/content.js:355-363 | the kept points form a subsequence of the parsed points |

## Left out

- DOM scraping, tab clicking, network requests, timers, URL watching, the panel and SVG rendering, and the random history generators. These are browser I/O, concurrency or randomness. The drawing half of `createWhiskerChart` (from line 681) and the pixel-to-price mapping of `extractFromVisibleChart` belong to this group.
- Date parsing: `new Date(item.date)` is the parameter `dayOf`, which maps a date value to a day number. Unparseable date strings (Invalid Date) and time-of-day or timezone effects are not modelled. An infinite window bound is the one Invalid Date the model keeps, and no comparison with it holds.
- `parseFloat` of a string is the parameter `parseNum`. `parseFloat` of an array or an object is treated as NaN, and a NaN price is carried as 0 because the `> 0` filter drops both alike.
- JSON objects are assumed to have distinct keys: `Json.Lookup` returns the first member with a key, whereas `JSON.parse` keeps the last. `findInObject` reading a numeric key on an array (`arr["0"]`) is not modelled, because the searched keys are property names.
- Json.ForInOrderRule: states written order of two non-index keys as `<=` of positions rather than `<`, since distinctness of the visited positions is left implicit in the permutation clause of ForInOrder.
- Floating-point representation: all arithmetic is exact on reals. Rounding is exact half-up, and IEEE infinities and NaN appear only where the userscript divides by a zero mean or a flat range.
- LegacyStats.CalculateStats: reports the variance `avgSquaredDiff` in place of `stdDev`, its square root rounded to cents, because square roots are not available on reals. `null` elements of `prices`, which would throw, are not modelled.
- LegacyStats.GetRecommendation: a mean that rounds to −0 is treated as +0, so the sign of the infinite deviation follows the current price only.
- Whisker.Percentile: requires `0 <= p <= 100`. The code calls it only with 25, 50 and 75.
- `filterLast3Months` in the userscript uses calendar-month arithmetic and is not part of this model.
- The text of each recommendation, and the rounding `toFixed` applies to it, are presentation and are not modelled.
