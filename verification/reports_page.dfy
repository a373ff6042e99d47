/** The Reports page: the optional category filter and the status column. */
module ReportsPage {
  import opened Wrappers
  import opened Types
  import Seqs
  import Catalog
  import Stock

  /** `filteredItems`: every item without a filter, otherwise the items of
      the selected category. */
  function ReportItems(items: seq<Item>, selected: Option<string>): (r: seq<Item>)
    ensures !Catalog.IsSet(selected) ==> r == items
    ensures Catalog.IsSet(selected) ==> forall i :: i in r <==> i in items && i.categoryId == selected.value
  {
    if Catalog.IsSet(selected) then Catalog.InCategory(items, selected.value) else items
  }

  /** The report keeps the item list's order. */
  lemma ReportOrder(items: seq<Item>, selected: Option<string>)
    ensures Seqs.SubsequenceOf(ReportItems(items, selected), items)
  {
    if Catalog.IsSet(selected) {
      Catalog.InCategoryOrder(items, selected.value);
    } else {
      SubsequenceRefl(items);
    }
  }

  lemma {:induction false} SubsequenceRefl<T>(s: seq<T>)
    ensures Seqs.SubsequenceOf(s, s)
    decreases |s|
  {
    if s != [] {
      SubsequenceRefl(s[1..]);
    }
  }

  /** One report row: the item and the badges of its status column. */
  datatype ReportRow = ReportRow(item: Item, badges: seq<Stock.Badge>)

  /** The table body: one row per reported item, in order, whose status
      column shows Low, Over and Normal exactly as that item's own quantity
      and thresholds decide. A row with ordered thresholds carries exactly
      one badge. */
  function ReportTable(items: seq<Item>, selected: Option<string>): (rows: seq<ReportRow>)
    ensures |rows| == |ReportItems(items, selected)|
    ensures forall k :: 0 <= k < |rows| ==> rows[k].item == ReportItems(items, selected)[k]
    ensures forall k :: 0 <= k < |rows| ==> rows[k].badges == Stock.ReportBadges(rows[k].item)
    ensures forall k :: 0 <= k < |rows| ==>
      && (Stock.LowStock in rows[k].badges <==> rows[k].item.quantity < rows[k].item.minThreshold)
      && (Stock.OverStock in rows[k].badges <==> rows[k].item.quantity > rows[k].item.maxThreshold)
      && (Stock.Normal in rows[k].badges <==>
            rows[k].item.minThreshold <= rows[k].item.quantity <= rows[k].item.maxThreshold)
    ensures forall k :: 0 <= k < |rows| && rows[k].item.minThreshold <= rows[k].item.maxThreshold ==>
      |rows[k].badges| == 1
  {
    var shown := ReportItems(items, selected);
    var rows := seq(|shown|, k requires 0 <= k < |shown| => ReportRow(shown[k], Stock.ReportBadges(shown[k])));
    assert forall k :: 0 <= k < |rows| && rows[k].item.minThreshold <= rows[k].item.maxThreshold ==>
      |rows[k].badges| == 1 by {
      forall k | 0 <= k < |rows| && rows[k].item.minThreshold <= rows[k].item.maxThreshold {
        Stock.ExactlyOneWhenOrdered(rows[k].item);
      }
    }
    rows
  }

  /** An item has a row, carrying its own status badges, exactly when the
      report lists it: with a filter, exactly when it is an item of the
      selected category. */
  lemma ReportTableCovers(items: seq<Item>, selected: Option<string>, i: Item)
    ensures ReportRow(i, Stock.ReportBadges(i)) in ReportTable(items, selected) <==> i in ReportItems(items, selected)
    ensures Catalog.IsSet(selected) ==>
      (ReportRow(i, Stock.ReportBadges(i)) in ReportTable(items, selected) <==> i in items && i.categoryId == selected.value)
  {
    var rows := ReportTable(items, selected);
    var shown := ReportItems(items, selected);
    if i in shown {
      var k :| 0 <= k < |shown| && shown[k] == i;
      assert rows[k] == ReportRow(i, Stock.ReportBadges(i));
    }
  }
}
