/** The Dashboard page's four counters. Dates are day stamps and `today` is
    the day the page is rendered. */
module DashboardPage {
  import opened Types
  import Seqs
  import Stock

  datatype Stats = Stats(totalItems: nat, lowStock: nat, overStock: nat, needsStocktake: nat)

  /** Counted thirty days before today, strictly earlier. */
  predicate Stale(i: Item, today: int) {
    i.lastStocktakeDate < today - 30
  }

  /** `stats`. */
  function ComputeStats(items: seq<Item>, today: int): (r: Stats)
    ensures r.totalItems == |items|
    ensures r.lowStock == Seqs.Count(items, Stock.IsLow)
    ensures r.overStock == Seqs.Count(items, Stock.IsOver)
    ensures r.needsStocktake == Seqs.Count(items, (i: Item) => Stale(i, today))
    ensures r.lowStock <= r.totalItems && r.overStock <= r.totalItems && r.needsStocktake <= r.totalItems
  {
    Seqs.FilterLength(items, Stock.IsLow);
    Seqs.FilterLength(items, Stock.IsOver);
    Seqs.FilterLength(items, (i: Item) => Stale(i, today));
    Stats(|items|,
          |Seqs.Filter(items, Stock.IsLow)|,
          |Seqs.Filter(items, Stock.IsOver)|,
          |Seqs.Filter(items, (i: Item) => Stale(i, today))|)
  }

  /** When every item has ordered thresholds no item is both low and over, so
      the two alert counters together never exceed the total. */
  lemma AlertsBounded(items: seq<Item>, today: int)
    requires forall k :: 0 <= k < |items| ==> items[k].minThreshold <= items[k].maxThreshold
    ensures ComputeStats(items, today).lowStock + ComputeStats(items, today).overStock <= |items|
  {
    Seqs.FilterDisjointLength(items, Stock.IsLow, Stock.IsOver);
    Seqs.FilterLength(items, Stock.IsLow);
    Seqs.FilterLength(items, Stock.IsOver);
  }

  /** An item counted within the last thirty days is not stale; one counted
      before that is. This is the boundary at whole-day resolution only: the
      page compares full timestamps, so an item counted thirty calendar days
      ago at an earlier time of day than now is already stale there. */
  lemma StaleBoundary(i: Item, today: int)
    ensures i.lastStocktakeDate == today - 30 ==> !Stale(i, today)
    ensures i.lastStocktakeDate == today - 31 ==> Stale(i, today)
  {
  }
}
