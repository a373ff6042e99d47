/** The lookups and filters the pages share: whether a category filter is
    set, the items of one category, and the category with a given id. */
module Catalog {
  import opened Wrappers
  import opened Types
  import Seqs

  /** A `string | null` filter value is in effect when it is neither null nor
      the empty string, as a JavaScript condition reads it. */
  predicate IsSet(filter: Option<string>) {
    filter.Some? && filter.value != ""
  }

  /** `items.filter(item => item.categoryId === id)`. */
  function InCategory(items: seq<Item>, id: string): (r: seq<Item>)
    ensures forall i :: i in r <==> i in items && i.categoryId == id
    ensures (forall k :: 0 <= k < |items| ==> items[k].categoryId == id) ==> r == items
  {
    Seqs.Filter(items, (i: Item) => i.categoryId == id)
  }

  /** The category list keeps the item list's order. */
  lemma InCategoryOrder(items: seq<Item>, id: string)
    ensures Seqs.SubsequenceOf(InCategory(items, id), items)
  {
    Seqs.FilterSubsequence(items, (i: Item) => i.categoryId == id);
  }

  /** `categories.find(c => c.id === id)`: the first category with that id. */
  function Find(cats: seq<Category>, id: string): (r: Option<Category>)
    ensures r.None? <==> forall c :: c in cats ==> c.id != id
    ensures r.Some? ==> r.value in cats && r.value.id == id
    ensures r.Some? ==> exists k :: 0 <= k < |cats| && cats[k] == r.value && forall j :: 0 <= j < k ==> cats[j].id != id
  {
    if cats == [] then None
    else if cats[0].id == id then Some(cats[0])
    else
      var r := Find(cats[1..], id);
      assert forall c :: c in cats <==> c == cats[0] || c in cats[1..];
      if r.Some? then
        var k :| 0 <= k < |cats[1..]| && cats[1..][k] == r.value && forall j :: 0 <= j < k ==> cats[1..][j].id != id;
        assert cats[k + 1] == r.value && forall j :: 0 <= j < k + 1 ==> cats[j].id != id by {
          forall j | 0 <= j < k + 1
            ensures cats[j].id != id
          {
            if j > 0 { assert cats[j] == cats[1..][j - 1]; }
          }
        }
        r
      else r
  }

  /** `find` returns the category at the first position carrying the id. */
  lemma FindIsFirst(cats: seq<Category>, id: string)
    ensures forall k :: 0 <= k < |cats| && cats[k].id == id && (forall j :: 0 <= j < k ==> cats[j].id != id) ==>
      Find(cats, id) == Some(cats[k])
  {
  }

  /** With unique ids, looking up a category's own id finds it. */
  lemma FindUnique(cats: seq<Category>, c: Category)
    requires UniqueIds(cats) && c in cats
    ensures Find(cats, c.id) == Some(c)
  {
    var r := Find(cats, c.id);
    var k :| 0 <= k < |cats| && cats[k] == r.value;
    var m :| 0 <= m < |cats| && cats[m] == c;
  }
}
