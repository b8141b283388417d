/**
 The buy/wait ladder both recommendation functions share: a percent deviation
 from a reference average is checked against -10, -5, 10 and 5 in that order
 (galaxus-price-analyzer.user.js and extension/content.js).
 */
module Tiers {

  datatype Tier = Good | Decent | Neutral | Caution | Wait

  /** The tier for a deviation of `diff` percent, tests in the code's order. */
  function Classify(diff: real): (t: Tier)
    ensures InBand(t, diff)
  {
    if diff <= -10.0 then Good
    else if diff <= -5.0 then Decent
    else if diff >= 10.0 then Wait
    else if diff >= 5.0 then Caution
    else Neutral
  }

  /** The deviation band each tier stands for. */
  predicate InBand(t: Tier, diff: real)
  {
    match t
    case Good => diff <= -10.0
    case Decent => -10.0 < diff <= -5.0
    case Neutral => -5.0 < diff < 5.0
    case Caution => 5.0 <= diff < 10.0
    case Wait => diff >= 10.0
  }

  /** The bands are disjoint, so the ladder picks the one band holding `diff`. */
  lemma ClassifyExactlyOne(t: Tier, diff: real)
    ensures Classify(diff) == t <==> InBand(t, diff)
  {
  }

  /** Cheapest first: the order of the tiers along the deviation axis. */
  function Rank(t: Tier): nat
  {
    match t
    case Good => 0
    case Decent => 1
    case Neutral => 2
    case Caution => 3
    case Wait => 4
  }

  /** A higher price relative to the reference never yields a more favourable tier. */
  lemma ClassifyMonotone(d1: real, d2: real)
    requires d1 <= d2
    ensures Rank(Classify(d1)) <= Rank(Classify(d2))
  {
  }
}
