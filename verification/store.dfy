/** The client store: cached copies of the remote tables plus UI flags, and
    one transition per store action. Each remote call is an argument — the
    reply the backend gave — and each transition reports the state after the
    action settles, the message it throws (if any) and the remote calls it
    issued, in order. */
module Store {
  import opened Wrappers
  import opened Types

  /** What a remote call returns: its `data`, or an error with a message. */
  datatype Reply<T> = Ok(data: T) | Err(message: string)

  /** The remote requests an action can issue. */
  datatype Call =
    | ItemsSelect
    | ItemsInsert(draft: ItemDraft, lastStocktakeDate: int)
    | ItemsUpdate(item: Item)
    | ItemsDelete(id: string)
    | CategoriesSelect
    | CategoriesInsert(name: string, parentId: Option<string>)
    | CategoriesUpdate(id: string, name: string, parentId: Option<string>)
    | CategoriesDelete(id: string)
    | EntriesInsert(entry: EntryDraft, userId: Option<string>)

  datatype State = State(
    items: seq<StoredItem>,
    categories: seq<Category>,
    entries: seq<StocktakeEntry>,
    currentUser: Option<User>,
    selectedCategory: Option<string>,
    isAddItemModalOpen: bool,
    isAddCategoryModalOpen: bool,
    isLoading: bool,
    error: Option<string>)

  /** The store as the application starts. */
  const Initial: State := State([], [], [], None, None, false, false, false, None)

  /** The outcome of one action. */
  datatype Step = Step(state: State, thrown: Option<string>, calls: seq<Call>)

  /** The fields of the state, for stating what an action leaves alone. */
  datatype Field =
    | ItemsField | CategoriesField | EntriesField | CurrentUserField | SelectedCategoryField
    | AddItemModalField | AddCategoryModalField | LoadingField | ErrorField

  predicate Agree(a: State, b: State, f: Field) {
    match f
    case ItemsField => a.items == b.items
    case CategoriesField => a.categories == b.categories
    case EntriesField => a.entries == b.entries
    case CurrentUserField => a.currentUser == b.currentUser
    case SelectedCategoryField => a.selectedCategory == b.selectedCategory
    case AddItemModalField => a.isAddItemModalOpen == b.isAddItemModalOpen
    case AddCategoryModalField => a.isAddCategoryModalOpen == b.isAddCategoryModalOpen
    case LoadingField => a.isLoading == b.isLoading
    case ErrorField => a.error == b.error
  }

  /** Every field outside `changed` is the same in `a` and `b`. */
  ghost predicate OnlyChanged(a: State, b: State, changed: set<Field>) {
    forall f :: f !in changed ==> Agree(a, b, f)
  }

  /** The state while an action's remote call is in flight: loading, error cleared. */
  function Begin(st: State): State {
    st.(isLoading := true, error := None)
  }

  /** The rows of a successful select, stored as they came (`data || []`). */
  function RawItems(data: Option<seq<ItemRow>>): (r: seq<StoredItem>)
    ensures data.None? ==> r == []
    ensures data.Some? ==> |r| == |data.value| && forall i :: 0 <= i < |r| ==> r[i] == Raw(data.value[i])
  {
    match data
    case None => []
    case Some(rows) => seq(|rows|, i requires 0 <= i < |rows| => Raw(rows[i]))
  }

  /** `fetchItems`: replace the item list with the selected rows; a failure is
      recorded in `error` and swallowed. */
  function FetchItems(st: State, reply: Reply<Option<seq<ItemRow>>>): (r: Step)
    ensures r.thrown == None && r.calls == [ItemsSelect]
    ensures !r.state.isLoading
    ensures OnlyChanged(st, r.state, {ItemsField, LoadingField, ErrorField})
    ensures reply.Ok? ==> r.state.error == None && r.state.items == RawItems(reply.data)
    ensures reply.Err? ==> r.state.error == Some(reply.message) && r.state.items == st.items
  {
    var s := Begin(st);
    match reply
    case Ok(data) => Step(s.(items := RawItems(data), isLoading := false), None, [ItemsSelect])
    case Err(m) => Step(s.(error := Some(m), isLoading := false), None, [ItemsSelect])
  }

  /** `fetchCategories`: the same protocol over the category list. */
  function FetchCategories(st: State, reply: Reply<Option<seq<Category>>>): (r: Step)
    ensures r.thrown == None && r.calls == [CategoriesSelect]
    ensures !r.state.isLoading
    ensures OnlyChanged(st, r.state, {CategoriesField, LoadingField, ErrorField})
    ensures reply.Ok? ==> r.state.error == None && r.state.categories == reply.data.GetOr([])
    ensures reply.Err? ==> r.state.error == Some(reply.message) && r.state.categories == st.categories
  {
    var s := Begin(st);
    match reply
    case Ok(data) => Step(s.(categories := data.GetOr([]), isLoading := false), None, [CategoriesSelect])
    case Err(m) => Step(s.(error := Some(m), isLoading := false), None, [CategoriesSelect])
  }

  /** `addItem`: insert the draft stamped with today's date; on success append
      the returned row, renamed to in-memory field names. */
  function AddItem(st: State, draft: ItemDraft, today: int, reply: Reply<ItemRow>): (r: Step)
    ensures r.calls == [ItemsInsert(draft, today)]
    ensures !r.state.isLoading
    ensures OnlyChanged(st, r.state, {ItemsField, LoadingField, ErrorField})
    ensures reply.Ok? ==>
      && r.thrown == None && r.state.error == None
      && |r.state.items| == |st.items| + 1
      && r.state.items[..|st.items|] == st.items
      && r.state.items[|st.items|] == Mapped(FromRow(reply.data))
    ensures reply.Err? ==>
      r.thrown == Some(reply.message) && r.state.error == r.thrown && r.state.items == st.items
  {
    var s := Begin(st);
    match reply
    case Ok(row) =>
      Step(s.(items := st.items + [Mapped(FromRow(row))], isLoading := false), None, [ItemsInsert(draft, today)])
    case Err(m) =>
      Step(s.(error := Some(m), isLoading := false), Some(m), [ItemsInsert(draft, today)])
  }

  /** The common shape of the update and delete actions: a remote mutation,
      then, only if it succeeded, a full re-fetch whose failure is recorded
      but not thrown. */
  function MutateThenFetchItems(st: State, mutation: Call, reply: Reply<()>,
                                refetch: Reply<Option<seq<ItemRow>>>): (r: Step)
    ensures !r.state.isLoading
    ensures OnlyChanged(st, r.state, {ItemsField, LoadingField, ErrorField})
    ensures reply.Err? ==>
      && r.thrown == Some(reply.message) && r.state.error == r.thrown
      && r.calls == [mutation]
      && OnlyChanged(st, r.state, {LoadingField, ErrorField})
    ensures reply.Ok? ==>
      && r.thrown == None
      && r.calls == [mutation, ItemsSelect]
      && r.state == FetchItems(st, refetch).state
  {
    var s := Begin(st);
    match reply
    case Err(m) => Step(s.(error := Some(m), isLoading := false), Some(m), [mutation])
    case Ok(_) =>
      var f := FetchItems(s, refetch);
      Step(f.state.(isLoading := false), None, [mutation] + f.calls)
  }

  /** `updateItem`: send the item as an update of the row with its id, then re-fetch. */
  function UpdateItem(st: State, item: Item, reply: Reply<()>, refetch: Reply<Option<seq<ItemRow>>>): (r: Step)
    ensures !r.state.isLoading && r.calls != [] && r.calls[0] == ItemsUpdate(item)
    ensures reply.Err? ==>
      r.thrown == Some(reply.message) && r.state.error == r.thrown && r.state.items == st.items
      && r.calls == [ItemsUpdate(item)]
    ensures reply.Ok? ==> r.thrown == None && r.calls == [ItemsUpdate(item), ItemsSelect] && r.state == FetchItems(st, refetch).state
    ensures OnlyChanged(st, r.state, {ItemsField, LoadingField, ErrorField})
  {
    MutateThenFetchItems(st, ItemsUpdate(item), reply, refetch)
  }

  /** `deleteItem`: delete the row with this id, then re-fetch. */
  function DeleteItem(st: State, id: string, reply: Reply<()>, refetch: Reply<Option<seq<ItemRow>>>): (r: Step)
    ensures !r.state.isLoading && r.calls != [] && r.calls[0] == ItemsDelete(id)
    ensures reply.Err? ==>
      r.thrown == Some(reply.message) && r.state.error == r.thrown && r.state.items == st.items
      && r.calls == [ItemsDelete(id)]
    ensures reply.Ok? ==> r.thrown == None && r.calls == [ItemsDelete(id), ItemsSelect] && r.state == FetchItems(st, refetch).state
    ensures OnlyChanged(st, r.state, {ItemsField, LoadingField, ErrorField})
  {
    MutateThenFetchItems(st, ItemsDelete(id), reply, refetch)
  }

  /** The category counterpart of `MutateThenFetchItems`. */
  function MutateThenFetchCategories(st: State, mutation: Call, reply: Reply<()>,
                                     refetch: Reply<Option<seq<Category>>>): (r: Step)
    ensures !r.state.isLoading
    ensures OnlyChanged(st, r.state, {CategoriesField, LoadingField, ErrorField})
    ensures reply.Err? ==>
      && r.thrown == Some(reply.message) && r.state.error == r.thrown
      && r.calls == [mutation]
      && OnlyChanged(st, r.state, {LoadingField, ErrorField})
    ensures reply.Ok? ==>
      && r.thrown == None
      && r.calls == [mutation, CategoriesSelect]
      && r.state == FetchCategories(st, refetch).state
  {
    var s := Begin(st);
    match reply
    case Err(m) => Step(s.(error := Some(m), isLoading := false), Some(m), [mutation])
    case Ok(_) =>
      var f := FetchCategories(s, refetch);
      Step(f.state.(isLoading := false), None, [mutation] + f.calls)
  }

  /** The two messages `addCategory` throws. */
  const AddCategoryFailed := "Failed to add category"
  const NoDataReturned := "No data returned from insert"

  /** `addCategory`: insert `{name, parent_id}`; a backend error is replaced by
      a fixed message, an empty reply is an error of its own, and only a
      returned row leads to the re-fetch. */
  function AddCategory(st: State, name: string, parentId: Option<string>,
                       reply: Reply<Option<Category>>, refetch: Reply<Option<seq<Category>>>): (r: Step)
    ensures !r.state.isLoading && r.calls != [] && r.calls[0] == CategoriesInsert(name, parentId)
    ensures reply.Err? ==>
      && r.thrown == Some(AddCategoryFailed) && r.state.error == r.thrown
      && r.calls == [CategoriesInsert(name, parentId)]
      && OnlyChanged(st, r.state, {LoadingField, ErrorField})
    ensures reply == Ok(None) ==>
      && r.thrown == Some(NoDataReturned) && r.state.error == r.thrown
      && r.calls == [CategoriesInsert(name, parentId)]
      && OnlyChanged(st, r.state, {LoadingField, ErrorField})
    ensures reply.Ok? && reply.data.Some? ==>
      && r.thrown == None
      && r.calls == [CategoriesInsert(name, parentId), CategoriesSelect]
      && r.state == FetchCategories(st, refetch).state
  {
    var s := Begin(st);
    var call := CategoriesInsert(name, parentId);
    match reply
    case Err(_) => Step(s.(error := Some(AddCategoryFailed), isLoading := false), Some(AddCategoryFailed), [call])
    case Ok(None) => Step(s.(error := Some(NoDataReturned), isLoading := false), Some(NoDataReturned), [call])
    case Ok(Some(_)) =>
      var f := FetchCategories(s, refetch);
      Step(f.state.(isLoading := false), None, [call] + f.calls)
  }

  /** `updateCategory`: send the new name and parent of the category with this id, then re-fetch. */
  function UpdateCategory(st: State, c: Category, reply: Reply<()>, refetch: Reply<Option<seq<Category>>>): (r: Step)
    ensures !r.state.isLoading && r.calls != [] && r.calls[0] == CategoriesUpdate(c.id, c.name, c.parent_id)
    ensures reply.Err? ==>
      r.thrown == Some(reply.message) && r.state.error == r.thrown && r.state.categories == st.categories
      && r.calls == [CategoriesUpdate(c.id, c.name, c.parent_id)]
    ensures reply.Ok? ==>
      r.thrown == None && r.calls == [CategoriesUpdate(c.id, c.name, c.parent_id), CategoriesSelect]
      && r.state == FetchCategories(st, refetch).state
    ensures OnlyChanged(st, r.state, {CategoriesField, LoadingField, ErrorField})
  {
    MutateThenFetchCategories(st, CategoriesUpdate(c.id, c.name, c.parent_id), reply, refetch)
  }

  /** `deleteCategory`: delete the category with this id, then re-fetch. */
  function DeleteCategory(st: State, id: string, reply: Reply<()>, refetch: Reply<Option<seq<Category>>>): (r: Step)
    ensures !r.state.isLoading && r.calls != [] && r.calls[0] == CategoriesDelete(id)
    ensures reply.Err? ==>
      r.thrown == Some(reply.message) && r.state.error == r.thrown && r.state.categories == st.categories
      && r.calls == [CategoriesDelete(id)]
    ensures reply.Ok? ==>
      r.thrown == None && r.calls == [CategoriesDelete(id), CategoriesSelect]
      && r.state == FetchCategories(st, refetch).state
    ensures OnlyChanged(st, r.state, {CategoriesField, LoadingField, ErrorField})
  {
    MutateThenFetchCategories(st, CategoriesDelete(id), reply, refetch)
  }

  /** `currentUser?.id`. */
  function UserId(st: State): (id: Option<string>)
    ensures id.Some? <==> st.currentUser.Some?
    ensures id.Some? ==> id.value == st.currentUser.value.id
  {
    match st.currentUser
    case Some(u) => Some(u.id)
    case None => None
  }

  /** `addEntry`: insert the entry stamped with the current user's id and
      append the returned row. */
  function AddEntry(st: State, entry: EntryDraft, reply: Reply<StocktakeEntry>): (r: Step)
    ensures r.calls == [EntriesInsert(entry, UserId(st))]
    ensures !r.state.isLoading
    ensures OnlyChanged(st, r.state, {EntriesField, LoadingField, ErrorField})
    ensures reply.Ok? ==> r.thrown == None && r.state.error == None && r.state.entries == st.entries + [reply.data]
    ensures reply.Err? ==> r.thrown == Some(reply.message) && r.state.error == r.thrown && r.state.entries == st.entries
  {
    var s := Begin(st);
    var call := EntriesInsert(entry, UserId(st));
    match reply
    case Ok(e) => Step(s.(entries := st.entries + [e], isLoading := false), None, [call])
    case Err(m) => Step(s.(error := Some(m), isLoading := false), Some(m), [call])
  }

  // The plain setters: synchronous, no remote call, one field each.

  function SetItems(st: State, items: seq<StoredItem>): (r: State)
    ensures r.items == items && OnlyChanged(st, r, {ItemsField})
  { st.(items := items) }

  function SetCategories(st: State, categories: seq<Category>): (r: State)
    ensures r.categories == categories && OnlyChanged(st, r, {CategoriesField})
  { st.(categories := categories) }

  function SetCurrentUser(st: State, user: Option<User>): (r: State)
    ensures r.currentUser == user && OnlyChanged(st, r, {CurrentUserField})
  { st.(currentUser := user) }

  function SetSelectedCategory(st: State, categoryId: Option<string>): (r: State)
    ensures r.selectedCategory == categoryId && OnlyChanged(st, r, {SelectedCategoryField})
  { st.(selectedCategory := categoryId) }

  function SetIsAddItemModalOpen(st: State, isOpen: bool): (r: State)
    ensures r.isAddItemModalOpen == isOpen && OnlyChanged(st, r, {AddItemModalField})
  { st.(isAddItemModalOpen := isOpen) }

  function SetIsAddCategoryModalOpen(st: State, isOpen: bool): (r: State)
    ensures r.isAddCategoryModalOpen == isOpen && OnlyChanged(st, r, {AddCategoryModalField})
  { st.(isAddCategoryModalOpen := isOpen) }

  function SetError(st: State, error: Option<string>): (r: State)
    ensures r.error == error && OnlyChanged(st, r, {ErrorField})
  { st.(error := error) }

  /** Every asynchronous action, with the replies its remote calls receive. */
  datatype Action =
    | FetchItemsAction(items: Reply<Option<seq<ItemRow>>>)
    | FetchCategoriesAction(categories: Reply<Option<seq<Category>>>)
    | AddItemAction(draft: ItemDraft, today: int, inserted: Reply<ItemRow>)
    | UpdateItemAction(item: Item, updated: Reply<()>, refetchedItems: Reply<Option<seq<ItemRow>>>)
    | DeleteItemAction(id: string, deleted: Reply<()>, refetchedItems: Reply<Option<seq<ItemRow>>>)
    | AddCategoryAction(name: string, parentId: Option<string>, insertedCategory: Reply<Option<Category>>,
                        refetchedCategories: Reply<Option<seq<Category>>>)
    | UpdateCategoryAction(category: Category, updated: Reply<()>, refetchedCategories: Reply<Option<seq<Category>>>)
    | DeleteCategoryAction(id: string, deleted: Reply<()>, refetchedCategories: Reply<Option<seq<Category>>>)
    | AddEntryAction(entry: EntryDraft, insertedEntry: Reply<StocktakeEntry>)

  /** Runs one action. Whatever the replies: the action ends with the loading
      flag down, a thrown message is also the recorded error, the entry log
      only grows, the signed-in user, the category filter and the modal flags
      are untouched, and at least one remote call was made. */
  function Run(st: State, a: Action): (r: Step)
    ensures !r.state.isLoading
    ensures r.thrown.Some? ==> r.state.error == r.thrown
    ensures |st.entries| <= |r.state.entries| && r.state.entries[..|st.entries|] == st.entries
    ensures OnlyChanged(st, r.state, {ItemsField, CategoriesField, EntriesField, LoadingField, ErrorField})
    ensures 1 <= |r.calls| <= 2
  {
    var all := {ItemsField, CategoriesField, EntriesField, LoadingField, ErrorField};
    if OnItems(a) then
      var r := RunOnItems(st, a);
      Widen(st, r.state, {ItemsField, LoadingField, ErrorField}, all);
      r
    else if OnCategories(a) then
      var r := RunOnCategories(st, a);
      Widen(st, r.state, {CategoriesField, LoadingField, ErrorField}, all);
      r
    else
      var r := AddEntry(st, a.entry, a.insertedEntry);
      Widen(st, r.state, {EntriesField, LoadingField, ErrorField}, all);
      assert r.state.entries[..|st.entries|] == st.entries;
      r
  }

  /** Widening the set of fields allowed to change keeps `OnlyChanged`; a
      field outside the narrow set keeps its value. */
  lemma Widen(a: State, b: State, narrow: set<Field>, wide: set<Field>)
    requires OnlyChanged(a, b, narrow) && narrow <= wide
    ensures OnlyChanged(a, b, wide)
    ensures EntriesField !in narrow ==> a.entries == b.entries
  {
    if EntriesField !in narrow {
      assert Agree(a, b, EntriesField);
    }
  }

  predicate OnItems(a: Action) {
    a.FetchItemsAction? || a.AddItemAction? || a.UpdateItemAction? || a.DeleteItemAction?
  }

  predicate OnCategories(a: Action) {
    a.FetchCategoriesAction? || a.AddCategoryAction? || a.UpdateCategoryAction? || a.DeleteCategoryAction?
  }

  /** The item actions touch the item list, the loading flag and the error only. */
  function RunOnItems(st: State, a: Action): (r: Step)
    requires OnItems(a)
    ensures !r.state.isLoading
    ensures r.thrown.Some? ==> r.state.error == r.thrown
    ensures OnlyChanged(st, r.state, {ItemsField, LoadingField, ErrorField})
    ensures 1 <= |r.calls| <= 2
  {
    match a
    case FetchItemsAction(rep) => FetchItems(st, rep)
    case AddItemAction(d, today, rep) => AddItem(st, d, today, rep)
    case UpdateItemAction(i, rep, re) => UpdateItem(st, i, rep, re)
    case DeleteItemAction(id, rep, re) => DeleteItem(st, id, rep, re)
  }

  /** The category actions touch the category list, the loading flag and the error only. */
  function RunOnCategories(st: State, a: Action): (r: Step)
    requires OnCategories(a)
    ensures !r.state.isLoading
    ensures r.thrown.Some? ==> r.state.error == r.thrown
    ensures OnlyChanged(st, r.state, {CategoriesField, LoadingField, ErrorField})
    ensures 1 <= |r.calls| <= 2
  {
    match a
    case FetchCategoriesAction(rep) => FetchCategories(st, rep)
    case AddCategoryAction(n, p, rep, re) => AddCategory(st, n, p, rep, re)
    case UpdateCategoryAction(c, rep, re) => UpdateCategory(st, c, rep, re)
    case DeleteCategoryAction(id, rep, re) => DeleteCategory(st, id, rep, re)
  }

  /** A successful fetch makes the local list whatever the backend returned,
      independent of what was cached before, and fetching again with the same
      reply changes nothing. */
  lemma FetchResynchronises(a: State, b: State, reply: Reply<Option<seq<ItemRow>>>)
    requires reply.Ok?
    ensures FetchItems(a, reply).state.items == FetchItems(b, reply).state.items
    ensures FetchItems(FetchItems(a, reply).state, reply).state == FetchItems(a, reply).state
  {
  }

  /** The corrected fetch: rename each selected row as the add action does, so
      that every cached item carries the field names the pages read. */
  function FetchItemsMapped(st: State, reply: Reply<Option<seq<ItemRow>>>): (r: Step)
    ensures r.thrown == None && r.calls == [ItemsSelect] && !r.state.isLoading
    ensures OnlyChanged(st, r.state, {ItemsField, LoadingField, ErrorField})
    ensures reply.Ok? ==>
      && r.state.error == None
      && |r.state.items| == |reply.data.GetOr([])|
      && forall i :: 0 <= i < |r.state.items| ==> r.state.items[i] == Mapped(FromRow(reply.data.GetOr([])[i]))
    ensures reply.Err? ==> r.state.error == Some(reply.message) && r.state.items == st.items
  {
    var s := Begin(st);
    match reply
    case Ok(data) =>
      var rows := data.GetOr([]);
      var items := seq(|rows|, i requires 0 <= i < |rows| => Mapped(FromRow(rows[i])));
      Step(s.(items := items, isLoading := false), None, [ItemsSelect])
    case Err(m) => Step(s.(error := Some(m), isLoading := false), None, [ItemsSelect])
  }
}
