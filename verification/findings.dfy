/** What the pages see when they read the in-memory field names off the
    store's item list. A row stored as fetched has only the column names, so
    `categoryId`, `minThreshold`, `maxThreshold` and `lastStocktakeDate` read
    as `undefined`; `undefined === id` is false and every `<` or `>` with
    `undefined` (or with the invalid date `new Date(undefined)`) is false. */
module Findings {
  import opened Wrappers
  import opened Types
  import Store
  import Stock
  import DashboardPage

  /** `item.quantity`: the same name in both shapes. */
  function Quantity(s: StoredItem): int {
    match s
    case Raw(r) => r.quantity
    case Mapped(i) => i.quantity
  }

  /** A camelCase field read off a stored item; `None` is `undefined`. */
  function CategoryIdSeen(s: StoredItem): (v: Option<string>)
    ensures s.Raw? <==> v.None?
  {
    match s
    case Raw(_) => None
    case Mapped(i) => Some(i.categoryId)
  }

  function MinSeen(s: StoredItem): (v: Option<int>)
    ensures s.Raw? <==> v.None?
  {
    match s
    case Raw(_) => None
    case Mapped(i) => Some(i.minThreshold)
  }

  function MaxSeen(s: StoredItem): (v: Option<int>)
    ensures s.Raw? <==> v.None?
  {
    match s
    case Raw(_) => None
    case Mapped(i) => Some(i.maxThreshold)
  }

  function LastStocktakeSeen(s: StoredItem): (v: Option<int>)
    ensures s.Raw? <==> v.None?
  {
    match s
    case Raw(_) => None
    case Mapped(i) => Some(i.lastStocktakeDate)
  }

  /** The pages' conditions as JavaScript evaluates them on a stored item. */
  predicate LowSeen(s: StoredItem) { MinSeen(s).Some? && Quantity(s) < MinSeen(s).value }
  predicate OverSeen(s: StoredItem) { MaxSeen(s).Some? && Quantity(s) > MaxSeen(s).value }
  predicate InCategorySeen(s: StoredItem, id: string) { CategoryIdSeen(s) == Some(id) }
  predicate StaleSeen(s: StoredItem, today: int) {
    LastStocktakeSeen(s).Some? && LastStocktakeSeen(s).value < today - 30
  }

  /** On the item shape the pages were written for, the conditions as read
      are the model's conditions. */
  lemma MappedSeenAsItem(i: Item, id: string, today: int)
    ensures LowSeen(Mapped(i)) <==> Stock.IsLow(i)
    ensures OverSeen(Mapped(i)) <==> Stock.IsOver(i)
    ensures InCategorySeen(Mapped(i), id) <==> i.categoryId == id
    ensures StaleSeen(Mapped(i), today) <==> DashboardPage.Stale(i, today)
  {
  }

  /** As written: after a successful `fetchItems` no cached item ever shows a
      Low or Over badge, matches a category filter, or counts as needing a
      stocktake, whatever the rows hold. */
  lemma FetchedItemsReadUnset(st: Store.State, rows: Option<seq<ItemRow>>, id: string, today: int)
    ensures
      var items := Store.FetchItems(st, Store.Ok(rows)).state.items;
      forall s :: s in items ==>
        !LowSeen(s) && !OverSeen(s) && !InCategorySeen(s, id) && !StaleSeen(s, today)
  {
    var items := Store.FetchItems(st, Store.Ok(rows)).state.items;
    forall s | s in items
      ensures s.Raw?
    {
      var i :| 0 <= i < |items| && items[i] == s;
    }
  }

  /** The input that shows it: one row with 5 units against a minimum of 10,
      in category "c", last counted on day 0. Its item is low, in "c" and
      overdue on day 100, yet after the fetch the page sees none of that. */
  lemma FetchedLowStockHidden()
    ensures
      var row := ItemRow("i1", "Milk", "c", 5, "l", 0, 0, 0, "", 10, 50);
      var items := Store.FetchItems(Store.Initial, Store.Ok(Some([row]))).state.items;
      && Stock.IsLow(FromRow(row)) && FromRow(row).categoryId == "c" && DashboardPage.Stale(FromRow(row), 100)
      && |items| == 1
      && !LowSeen(items[0]) && !InCategorySeen(items[0], "c") && !StaleSeen(items[0], 100)
  {
  }

  /** Corrected: after `FetchItemsMapped` each cached item shows exactly the
      badges, category and staleness of the row it came from. */
  lemma MappedFetchReadsRows(st: Store.State, rows: Option<seq<ItemRow>>, id: string, today: int)
    ensures
      var items := Store.FetchItemsMapped(st, Store.Ok(rows)).state.items;
      && |items| == |rows.GetOr([])|
      && forall k :: 0 <= k < |items| ==>
        var item := FromRow(rows.GetOr([])[k]);
        && (LowSeen(items[k]) <==> Stock.IsLow(item))
        && (OverSeen(items[k]) <==> Stock.IsOver(item))
        && (InCategorySeen(items[k], id) <==> item.categoryId == id)
        && (StaleSeen(items[k], today) <==> DashboardPage.Stale(item, today))
  {
    var items := Store.FetchItemsMapped(st, Store.Ok(rows)).state.items;
    forall k | 0 <= k < |items|
      ensures LowSeen(items[k]) <==> Stock.IsLow(FromRow(rows.GetOr([])[k]))
      ensures OverSeen(items[k]) <==> Stock.IsOver(FromRow(rows.GetOr([])[k]))
      ensures InCategorySeen(items[k], id) <==> FromRow(rows.GetOr([])[k]).categoryId == id
      ensures StaleSeen(items[k], today) <==> DashboardPage.Stale(FromRow(rows.GetOr([])[k]), today)
    {
      MappedSeenAsItem(FromRow(rows.GetOr([])[k]), id, today);
    }
  }
}
