/** The Categories page: the parent-name column, the inline rename
    (start, cancel, save) and the confirmed delete with its extra re-fetch.
    The table itself is `CategoryTree.RenderTree`. */
module CategoriesPage {
  import opened Wrappers
  import opened Types
  import Catalog
  import Store
  import CategoryTree

  /** `categories.find(c => c.id === category.parent_id)?.name || '-'`. A
      top-level category's `null` parent matches no string id. */
  function ParentName(cats: seq<Category>, parent: Option<string>): (name: string)
    ensures name != ""
    ensures parent.None? ==> name == "-"
    ensures parent.Some? && (forall c :: c in cats ==> c.id != parent.value) ==> name == "-"
    ensures name == "-" || exists c :: c in cats && Some(c.id) == parent && c.name == name
    ensures forall k :: 0 <= k < |cats| && Some(cats[k].id) == parent && (forall j :: 0 <= j < k ==> cats[j].id != cats[k].id) ==>
      name == (if cats[k].name != "" then cats[k].name else "-")
  {
    match parent
    case None => "-"
    case Some(p) =>
      Catalog.FindIsFirst(cats, p);
      match Catalog.Find(cats, p)
      case None => "-"
      case Some(c) => if c.name != "" then c.name else "-"
  }

  /** With unique ids the column shows the parent's own name, or "-" when that
      name is empty. */
  lemma ParentNameOfParent(cats: seq<Category>, child: Category, parent: Category)
    requires UniqueIds(cats) && parent in cats && child.parent_id == Some(parent.id)
    ensures ParentName(cats, child.parent_id) == if parent.name != "" then parent.name else "-"
  {
    Catalog.FindUnique(cats, parent);
  }

  /** The page's rename state: the id of the row being edited, if any, and
      the text in its input. */
  datatype Editor = Editor(editing: Option<string>, editedName: string)

  const NotEditing: Editor := Editor(None, "")

  /** The row of `c` shows the input instead of the name. */
  predicate IsEditing(e: Editor, c: Category) {
    e.editing == Some(c.id)
  }

  /** The pencil button: edit this row, starting from its current name. */
  function StartEdit(e: Editor, c: Category): (r: Editor)
    ensures IsEditing(r, c) && r.editedName == c.name
  {
    Editor(Some(c.id), c.name)
  }

  /** Typing into the input. */
  function EditName(e: Editor, value: string): (r: Editor)
    ensures r.editing == e.editing && r.editedName == value
  {
    e.(editedName := value)
  }

  /** The cancel button: no row is edited any more. */
  function Cancel(e: Editor): (r: Editor)
    ensures forall c :: !IsEditing(r, c)
  {
    e.(editing := None)
  }

  /** The category the save button sends: the same category, renamed. */
  function Renamed(c: Category, name: string): (r: Category)
    ensures r.id == c.id && r.parent_id == c.parent_id && r.name == name
  {
    c.(name := name)
  }

  /** The save button: update the category, renamed, through the store; the
      row leaves edit mode only when the update did not throw. */
  function Save(e: Editor, c: Category, st: Store.State, reply: Store.Reply<()>,
                refetch: Store.Reply<Option<seq<Category>>>): (r: (Editor, Store.Step))
    ensures r.1.calls != [] && r.1.calls[0] == Store.CategoriesUpdate(c.id, e.editedName, c.parent_id)
    ensures r.1 == Store.UpdateCategory(st, Renamed(c, e.editedName), reply, refetch)
    ensures reply.Ok? ==> r.0.editing == None && r.0.editedName == e.editedName
    ensures reply.Err? ==> r.0 == e && r.1.thrown == Some(reply.message)
  {
    var step := Store.UpdateCategory(st, Renamed(c, e.editedName), reply, refetch);
    if step.thrown.None? then (e.(editing := None), step) else (e, step)
  }

  /** Renaming a row end to end: after start, typing `v` and a successful save,
      the store is asked to give that category the name `v` and nothing else
      new, and no row is in edit mode. */
  lemma RenameSends(e: Editor, c: Category, v: string, st: Store.State,
                    refetch: Store.Reply<Option<seq<Category>>>)
    ensures
      var r := Save(EditName(StartEdit(e, c), v), c, st, Store.Ok(()), refetch);
      && r.1.calls == [Store.CategoriesUpdate(c.id, v, c.parent_id), Store.CategoriesSelect]
      && r.1.thrown == None
      && !IsEditing(r.0, c)
  {
  }

  /** `handleDelete`: only after the user confirms, delete through the store,
      then re-fetch once more; a throwing delete skips the re-fetch. */
  function Delete(st: Store.State, id: string, confirmed: bool, reply: Store.Reply<()>,
                  refetch: Store.Reply<Option<seq<Category>>>,
                  again: Store.Reply<Option<seq<Category>>>): (r: Store.Step)
    ensures !confirmed ==> r == Store.Step(st, None, [])
    ensures confirmed ==> r.calls != [] && r.calls[0] == Store.CategoriesDelete(id)
    ensures confirmed && reply.Err? ==>
      r.thrown == Some(reply.message) && r.calls == [Store.CategoriesDelete(id)] && r.state.categories == st.categories
    ensures confirmed && reply.Ok? ==>
      && r.thrown == None
      && r.calls == [Store.CategoriesDelete(id), Store.CategoriesSelect, Store.CategoriesSelect]
      && r.state == Store.FetchCategories(Store.FetchCategories(st, refetch).state, again).state
  {
    if !confirmed then Store.Step(st, None, [])
    else
      var deleted := Store.DeleteCategory(st, id, reply, refetch);
      if deleted.thrown.Some? then deleted
      else
        var fetched := Store.FetchCategories(deleted.state, again);
        Store.Step(fetched.state, None, deleted.calls + fetched.calls)
  }

  /** When the page's own re-fetch succeeds, the list shown is that re-fetch's
      categories with no error and loading over, whatever the store's
      re-fetch inside the delete returned; every other field is as before. */
  lemma DeleteShowsLastFetch(st: Store.State, id: string, refetch: Store.Reply<Option<seq<Category>>>,
                             other: Store.Reply<Option<seq<Category>>>, rows: Option<seq<Category>>)
    ensures Delete(st, id, true, Store.Ok(()), refetch, Store.Ok(rows)).state
         == Delete(st, id, true, Store.Ok(()), other, Store.Ok(rows)).state
    ensures Delete(st, id, true, Store.Ok(()), refetch, Store.Ok(rows)).state.categories == rows.GetOr([])
    ensures Delete(st, id, true, Store.Ok(()), refetch, Store.Ok(rows)).state.error == None
    ensures !Delete(st, id, true, Store.Ok(()), refetch, Store.Ok(rows)).state.isLoading
    ensures Store.OnlyChanged(st, Delete(st, id, true, Store.Ok(()), refetch, Store.Ok(rows)).state,
                              {Store.CategoriesField, Store.LoadingField, Store.ErrorField})
  {
  }

  /** The two-level example: a top-level "Beverages" with a child "Soda" shows
      Beverages at depth 0 followed by Soda at depth 1, and Soda's parent
      column reads "Beverages". */
  lemma BeveragesSoda()
    ensures
      var bev := Category("1", "Beverages", None);
      var soda := Category("2", "Soda", Some("1"));
      var cats := [bev, soda];
      && UniqueIds(cats)
      && CategoryTree.RenderTree(cats) == [CategoryTree.Row(bev, 0), CategoryTree.Row(soda, 1)]
      && ParentName(cats, soda.parent_id) == "Beverages"
      && ParentName(cats, bev.parent_id) == "-"
  {
    var bev := Category("1", "Beverages", None);
    var soda := Category("2", "Soda", Some("1"));
    var cats := [bev, soda];
    assert UniqueIds(cats);
  }
}
