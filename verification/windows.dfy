/**
 Exclusive time windows (`filterByDaysExclusive`, extension/content.js): a
 window keeps the points dated from `start` days ago up to, but excluding,
 `end` days ago, both counted back from `today`.
 */
module Windows {
  import opened Seqs
  import opened Series

  /** A day count that may be `Infinity`. */
  datatype Days = Infinite | Finite(n: nat)

  /**
   `day < today - days`. A cutoff `Infinity` days back is JavaScript's Invalid
   Date, which no comparison satisfies.
   */
  predicate Before(day: int, cutoff: Days, today: int)
  {
    cutoff.Finite? && day < today - cutoff.n
  }

  /** `day >= today - days`, with the same Invalid Date rule. */
  predicate AtOrAfter(day: int, cutoff: Days, today: int)
  {
    cutoff.Finite? && day >= today - cutoff.n
  }

  /** The test `filterByDaysExclusive(data, start, end)` applies to one point. */
  predicate InWindow(p: Point, start: Days, end: Days, today: int)
  {
    if start.Infinite? then Before(p.day, end, today)
    else if end == Finite(0) then AtOrAfter(p.day, start, today)
    else AtOrAfter(p.day, start, today) && Before(p.day, end, today)
  }

  /** `filterByDaysExclusive(data, start, end)`. */
  function FilterByDaysExclusive(data: seq<Point>, start: Days, end: Days, today: int): (r: seq<Point>)
    ensures IsSubseq(r, data)
    ensures forall i :: 0 <= i < |r| ==> r[i] in data && InWindow(r[i], start, end, today)
    ensures forall i :: 0 <= i < |data| && InWindow(data[i], start, end, today) ==> data[i] in r
    ensures |r| == Count(data, p => InWindow(p, start, end, today))
  {
    FilterIsSubseq(data, p => InWindow(p, start, end, today));
    Filter(data, p => InWindow(p, start, end, today))
  }

  datatype Window = Window(start: Days, end: Days)

  /** The six windows of `calculateStats`, oldest first: All, 3Y, 1Y, 3M, 1M, 1W. */
  const StatsWindows: seq<Window> := [
    Window(Infinite, Finite(1095)),
    Window(Finite(1095), Finite(365)),
    Window(Finite(365), Finite(90)),
    Window(Finite(90), Finite(30)),
    Window(Finite(30), Finite(7)),
    Window(Finite(7), Finite(0))
  ]

  /** Which of the six windows a day belongs to, counted from the oldest. */
  function WindowIndex(day: int, today: int): (k: nat)
    ensures k < |StatsWindows|
  {
    if day < today - 1095 then 0
    else if day < today - 365 then 1
    else if day < today - 90 then 2
    else if day < today - 30 then 3
    else if day < today - 7 then 4
    else 5
  }

  predicate InStatsWindow(p: Point, k: nat, today: int)
    requires k < |StatsWindows|
  {
    InWindow(p, StatsWindows[k].start, StatsWindows[k].end, today)
  }

  /** Every point lies in exactly one of the six windows. */
  lemma WindowsPartition(p: Point, today: int)
    ensures forall k :: 0 <= k < |StatsWindows| ==> (InStatsWindow(p, k, today) <==> k == WindowIndex(p.day, today))
  {
  }

  /** The window counts `calculateStats` builds add up to the number of points. */
  lemma {:induction false} WindowCountsSum(data: seq<Point>, today: int)
    ensures |FilterByDaysExclusive(data, Infinite, Finite(1095), today)|
          + |FilterByDaysExclusive(data, Finite(1095), Finite(365), today)|
          + |FilterByDaysExclusive(data, Finite(365), Finite(90), today)|
          + |FilterByDaysExclusive(data, Finite(90), Finite(30), today)|
          + |FilterByDaysExclusive(data, Finite(30), Finite(7), today)|
          + |FilterByDaysExclusive(data, Finite(7), Finite(0), today)|
          == |data|
  {
    if |data| > 0 {
      WindowCountsSum(data[1..], today);
      WindowsPartition(data[0], today);
    }
  }
}
