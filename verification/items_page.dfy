/** The Items page: the category-and-search filter over the item list and the
    category-name column. */
module ItemsPage {
  import opened Wrappers
  import opened Types
  import opened Text
  import Seqs
  import Catalog
  import Store

  /** `needle` occurs in `text`, ignoring ASCII case. */
  predicate Mentions(text: string, needle: string) {
    Contains(Lower(text), Lower(needle))
  }

  /** The page's filter condition: in the selected category when one is set,
      and, unless the query is empty, mentioning the query in the name or the
      notes. */
  predicate Matches(item: Item, selected: Option<string>, query: string) {
    && (!Catalog.IsSet(selected) || item.categoryId == selected.value)
    && (query == "" || Mentions(item.name, query) || Mentions(item.notes, query))
  }

  /** `filteredItems`. */
  function FilteredItems(items: seq<Item>, selected: Option<string>, query: string): (r: seq<Item>)
    ensures forall i :: i in r <==> i in items && Matches(i, selected, query)
    ensures forall i :: i in r && Catalog.IsSet(selected) ==> i.categoryId == selected.value
    ensures !Catalog.IsSet(selected) && query == "" ==> r == items
  {
    Seqs.Filter(items, (i: Item) => Matches(i, selected, query))
  }

  /** The filtered list keeps the item list's order. */
  lemma FilteredOrder(items: seq<Item>, selected: Option<string>, query: string)
    ensures Seqs.SubsequenceOf(FilteredItems(items, selected, query), items)
  {
    Seqs.FilterSubsequence(items, (i: Item) => Matches(i, selected, query));
  }

  /** The empty-query shortcut changes nothing: every text mentions the empty
      query, so the search alone keeps an item exactly when its lower-cased
      name or notes contain the lower-cased query. */
  lemma SearchIsSubstring(item: Item, query: string)
    ensures (query == "" || Mentions(item.name, query) || Mentions(item.notes, query))
        <==> (Mentions(item.name, query) || Mentions(item.notes, query))
  {
    if query == "" {
      assert Lower(query) == [];
      ContainsEmpty(Lower(item.name));
    }
  }

  /** The search ignores the case of the query. */
  lemma SearchIgnoresCase(items: seq<Item>, selected: Option<string>, query: string)
    ensures FilteredItems(items, selected, Lower(query)) == FilteredItems(items, selected, query)
  {
    LowerIdempotent(query);
    forall i | i in items
      ensures Matches(i, selected, Lower(query)) == Matches(i, selected, query)
    {
      SearchIsSubstring(i, query);
      SearchIsSubstring(i, Lower(query));
    }
    FilterSameKept(items, (i: Item) => Matches(i, selected, Lower(query)), (i: Item) => Matches(i, selected, query));
  }

  lemma {:induction false} FilterSameKept(s: seq<Item>, p: Item -> bool, q: Item -> bool)
    requires forall i :: i in s ==> p(i) == q(i)
    ensures Seqs.Filter(s, p) == Seqs.Filter(s, q)
    decreases |s|
  {
    if s != [] {
      assert forall i :: i in s[1..] ==> i in s;
      FilterSameKept(s[1..], p, q);
    }
  }

  const Uncategorized := "Uncategorized"

  /** `getCategoryName`: the name of the first category with this id, falling
      back to "Uncategorized" when there is none or its name is empty. */
  function CategoryName(cats: seq<Category>, categoryId: string): (name: string)
    ensures name != ""
    ensures name == Uncategorized || exists c :: c in cats && c.id == categoryId && c.name == name
    ensures (forall c :: c in cats ==> c.id != categoryId) ==> name == Uncategorized
    ensures forall c :: UniqueIds(cats) && c in cats && c.id == categoryId ==>
      name == (if c.name == "" then Uncategorized else c.name)
    ensures forall k :: 0 <= k < |cats| && cats[k].id == categoryId && (forall j :: 0 <= j < k ==> cats[j].id != categoryId) ==>
      name == (if cats[k].name == "" then Uncategorized else cats[k].name)
  {
    Catalog.FindIsFirst(cats, categoryId);
    match Catalog.Find(cats, categoryId)
    case None => Uncategorized
    case Some(c) =>
      assert forall d :: UniqueIds(cats) && d in cats && d.id == categoryId ==> d == c by {
        forall d | UniqueIds(cats) && d in cats && d.id == categoryId
          ensures d == c
        {
          SameIdSame(cats, c, d);
        }
      }
      if c.name == "" then Uncategorized else c.name
  }

  /** `handleDeleteItem`: only after the user confirms, delete through the
      store, then re-fetch once more; a throwing delete skips the re-fetch. */
  function Delete(st: Store.State, id: string, confirmed: bool, reply: Store.Reply<()>,
                  refetch: Store.Reply<Option<seq<ItemRow>>>,
                  again: Store.Reply<Option<seq<ItemRow>>>): (r: Store.Step)
    ensures !confirmed ==> r == Store.Step(st, None, [])
    ensures confirmed ==> r.calls != [] && r.calls[0] == Store.ItemsDelete(id)
    ensures confirmed && reply.Err? ==>
      r.thrown == Some(reply.message) && r.calls == [Store.ItemsDelete(id)] && r.state.items == st.items
    ensures confirmed && reply.Ok? ==>
      && r.thrown == None && !r.state.isLoading
      && r.calls == [Store.ItemsDelete(id), Store.ItemsSelect, Store.ItemsSelect]
      && Store.OnlyChanged(st, r.state, {Store.ItemsField, Store.LoadingField, Store.ErrorField})
  {
    if !confirmed then Store.Step(st, None, [])
    else
      var deleted := Store.DeleteItem(st, id, reply, refetch);
      if deleted.thrown.Some? then deleted
      else
        var fetched := Store.FetchItems(deleted.state, again);
        Store.Step(fetched.state, None, deleted.calls + fetched.calls)
  }

  /** When the page's own re-fetch succeeds, the list shown is that re-fetch's
      rows with no error, whatever the store's re-fetch inside the delete
      returned: the second fetch alone decides the outcome. */
  lemma DeleteShowsLastFetch(st: Store.State, id: string, refetch: Store.Reply<Option<seq<ItemRow>>>,
                             other: Store.Reply<Option<seq<ItemRow>>>, rows: Option<seq<ItemRow>>)
    ensures Delete(st, id, true, Store.Ok(()), refetch, Store.Ok(rows)).state
         == Delete(st, id, true, Store.Ok(()), other, Store.Ok(rows)).state
    ensures Delete(st, id, true, Store.Ok(()), refetch, Store.Ok(rows)).state.items == Store.RawItems(rows)
    ensures Delete(st, id, true, Store.Ok(()), refetch, Store.Ok(rows)).state.error == None
  {
  }
}
