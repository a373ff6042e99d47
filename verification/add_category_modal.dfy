/** The add-category dialog: the parent `<select>` mapping and the submit
    sequence (trim check, the store's add action, an extra re-fetch, reset). */
module AddCategoryModal {
  import opened Wrappers
  import opened Types
  import opened Text
  import Store

  /** The dialog's `formData`; `parent == None` is the top-level choice. */
  datatype Form = Form(name: string, parent: Option<string>)

  const EmptyForm: Form := Form("", None)

  const NameRequired := "Category name is required"

  /** The value the `<select>` shows: `parent_id || ''`. */
  function SelectValue(parent: Option<string>): (v: string)
    ensures parent.None? ==> v == ""
    ensures parent.Some? ==> v == parent.value
  {
    match parent
    case None => ""
    case Some(p) => p
  }

  /** The select's `onChange`: `value || null`, so the empty option is the top level. */
  function ParentFromSelect(value: string): (parent: Option<string>)
    ensures parent.None? <==> value == ""
    ensures parent.Some? ==> parent.value == value
  {
    if value == "" then None else Some(value)
  }

  /** Choosing an option and reading the select back give the option's value,
      and a parent read from the select is shown as that option again: no
      parent is ever stored as the empty id. */
  lemma SelectRoundTrip(value: string, parent: Option<string>)
    ensures SelectValue(ParentFromSelect(value)) == value
    ensures parent != Some("") ==> ParentFromSelect(SelectValue(parent)) == parent
    ensures ParentFromSelect(value) != Some("")
  {
  }

  /** The dialog's local state. */
  datatype Dialog = Dialog(form: Form, error: string)

  /** After a submit: the dialog, the store, whether `onClose` was called, and
      the remote calls made. */
  datatype Submitted = Submitted(dialog: Dialog, store: Store.State, closed: bool, calls: seq<Store.Call>)

  /** `handleSubmit`: a name that is blank after trimming is refused with a
      message and no remote call; any other name is submitted trimmed. */
  function Submit(d: Dialog, st: Store.State, reply: Store.Reply<Option<Category>>,
                  refetch: Store.Reply<Option<seq<Category>>>,
                  again: Store.Reply<Option<seq<Category>>>): (r: Submitted)
    ensures Trim(d.form.name) == "" ==>
      r == Submitted(Dialog(d.form, NameRequired), st, false, [])
    ensures Trim(d.form.name) != "" ==>
      r == SubmitName(d, Trim(d.form.name), st, reply, refetch, again)
  {
    var name := Trim(d.form.name);
    if name == "" then Submitted(Dialog(d.form, NameRequired), st, false, [])
    else SubmitName(d, name, st, reply, refetch, again)
  }

  /** The submit of a non-blank `name`. `reply` and `refetch` are the replies
      to the store action's insert and its own re-fetch; `again` answers the
      dialog's second re-fetch. On success the dialog closes and resets; on
      failure it keeps the form and shows the thrown message. */
  function SubmitName(d: Dialog, name: string, st: Store.State, reply: Store.Reply<Option<Category>>,
                      refetch: Store.Reply<Option<seq<Category>>>,
                      again: Store.Reply<Option<seq<Category>>>): (r: Submitted)
    ensures r.calls != [] && r.calls[0] == Store.CategoriesInsert(name, d.form.parent)
    ensures reply.Ok? && reply.data.Some? ==>
      && r.closed && r.dialog == Dialog(EmptyForm, "")
      && r.calls == [Store.CategoriesInsert(name, d.form.parent), Store.CategoriesSelect, Store.CategoriesSelect]
      && r.store == Store.FetchCategories(Store.FetchCategories(st, refetch).state, again).state
    ensures reply.Err? ==>
      && !r.closed && r.dialog == Dialog(d.form, Store.AddCategoryFailed)
      && |r.calls| == 1 && r.store.categories == st.categories
    ensures reply == Store.Ok(None) ==>
      && !r.closed && r.dialog == Dialog(d.form, Store.NoDataReturned)
      && |r.calls| == 1 && r.store.categories == st.categories
  {
    var added := Store.AddCategory(st, name, d.form.parent, reply, refetch);
    match added.thrown
    case Some(m) => Submitted(Dialog(d.form, m), added.state, false, added.calls)
    case None =>
      var fetched := Store.FetchCategories(added.state, again);
      Submitted(Dialog(EmptyForm, ""), fetched.state, true, added.calls + fetched.calls)
  }

  /** The name sent to the store is never blank and already trimmed; when the
      dialog's own re-fetch succeeds, the list it shows is that re-fetch's. */
  lemma SubmitSendsTrimmed(d: Dialog, st: Store.State, reply: Store.Reply<Option<Category>>,
                           refetch: Store.Reply<Option<seq<Category>>>,
                           rows: Option<seq<Category>>)
    ensures
      var r := Submit(d, st, reply, refetch, Store.Ok(rows));
      && (r.calls != [] ==> r.calls[0].CategoriesInsert? && r.calls[0].name != []
                            && Trim(r.calls[0].name) == r.calls[0].name)
      && (r.closed ==> r.store.categories == rows.GetOr([]) && r.store.error == None)
  {
    var name := Trim(d.form.name);
    if name != "" {
      TrimIdempotent(d.form.name);
      var r := SubmitName(d, name, st, reply, refetch, Store.Ok(rows));
      assert r == Submit(d, st, reply, refetch, Store.Ok(rows));
      if r.closed {
        assert reply.Ok? && reply.data.Some?;
      }
    }
  }
}
