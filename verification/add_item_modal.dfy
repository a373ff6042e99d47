/** The add-item dialog: the form record, the per-input change handler with
    its numeric coercion, the validator with its per-field messages, the
    storage-name payload, and the submit sequence over the store's add
    action. `today` is the day stamp the store puts on the new row. */
module AddItemModal {
  import opened Wrappers
  import opened Types
  import opened Text
  import Store

  /** The dialog's `formData`. */
  datatype Form = Form(
    name: string,
    categoryId: string,
    quantity: int,
    unit: string,
    normalRequiredStock: int,
    busyRequiredStock: int,
    notes: string,
    minThreshold: int,
    maxThreshold: int)

  /** The form as the dialog opens and as a successful submit leaves it. */
  const EmptyForm: Form := Form("", "", 0, "", 0, 0, "", 0, 0)

  const NameRequired := "Name is required"
  const CategoryRequired := "Category is required"
  const UnitRequired := "Unit is required"
  const MinPositive := "Min threshold must be positive"
  const MaxAboveMin := "Max threshold must be greater than min threshold"
  const AddFailed := "Failed to add item. Please try again."

  // ---------------------------------------------------------------------------
  // Change handler

  /** The handler's test for a numeric input: its name mentions `quantity`,
      `Stock` or `Threshold`. */
  predicate IsNumericName(name: string) {
    Contains(name, "quantity") || Contains(name, "Stock") || Contains(name, "Threshold")
  }

  /** The value the handler stores: the parsed integer for a numeric input,
      the raw text otherwise. */
  datatype Input = Number(n: int) | Text(s: string)

  function Coerce(name: string, value: string): (v: Input)
    ensures v.Number? <==> IsNumericName(name)
    ensures v.Number? ==> v.n == ParseOr0(value)
    ensures v.Text? ==> v.s == value
  {
    if IsNumericName(name) then Number(ParseOr0(value)) else Text(value)
  }

  /** The names of the dialog's text inputs and of its number inputs. */
  const TextInputs: set<string> := {"name", "unit", "notes"}
  const NumberInputs: set<string> := {"quantity", "normalRequiredStock", "busyRequiredStock", "minThreshold", "maxThreshold"}

  lemma NotContainsLonger(haystack: string, needle: string)
    requires |haystack| < |needle|
    ensures !Contains(haystack, needle)
  {
  }

  /** On the dialog's own inputs the name test coincides with the input type:
      exactly the number inputs are coerced. */
  lemma NumericNamesExact(name: string)
    requires name in TextInputs + NumberInputs
    ensures IsNumericName(name) <==> name in NumberInputs
  {
    if name in NumberInputs {
      NumberNamesNumeric(name);
    } else {
      TextNamesNotNumeric(name);
    }
  }

  lemma NumberNamesNumeric(name: string)
    requires name in NumberInputs
    ensures IsNumericName(name)
  {
    if name == "quantity" {
      assert OccursAt(name, "quantity", 0);
    } else if name == "normalRequiredStock" {
      assert name[14..19] == "Stock";
      assert OccursAt(name, "Stock", 14);
    } else if name == "busyRequiredStock" {
      assert name[12..17] == "Stock";
      assert OccursAt(name, "Stock", 12);
    } else {
      assert name[3..12] == "Threshold";
      assert OccursAt(name, "Threshold", 3);
    }
  }

  lemma TextNamesNotNumeric(name: string)
    requires name in TextInputs
    ensures !IsNumericName(name)
  {
    NotContainsLonger(name, "quantity");
    NotContainsLonger(name, "Threshold");
    if name == "notes" {
      assert forall i :: OccursAt(name, "Stock", i) ==> i == 0;
      assert !OccursAt(name, "Stock", 0) by { assert name[0] != "Stock"[0]; }
    } else {
      NotContainsLonger(name, "Stock");
    }
  }

  /** `handleChange`: the input named `name` receives the coerced value. A
      name other than the eight inputs leaves the form as it is. */
  function HandleChange(f: Form, name: string, value: string): (r: Form)
    ensures name == "name" ==> r == f.(name := value)
    ensures name == "unit" ==> r == f.(unit := value)
    ensures name == "notes" ==> r == f.(notes := value)
    ensures name == "quantity" ==> r == f.(quantity := ParseOr0(value))
    ensures name == "normalRequiredStock" ==> r == f.(normalRequiredStock := ParseOr0(value))
    ensures name == "busyRequiredStock" ==> r == f.(busyRequiredStock := ParseOr0(value))
    ensures name == "minThreshold" ==> r == f.(minThreshold := ParseOr0(value))
    ensures name == "maxThreshold" ==> r == f.(maxThreshold := ParseOr0(value))
    ensures name !in TextInputs + NumberInputs ==> r == f
  {
    if name in NumberInputs then
      NumberNamesNumeric(name);
      Put(f, name, Coerce(name, value))
    else if name in TextInputs then
      TextNamesNotNumeric(name);
      Put(f, name, Coerce(name, value))
    else f
  }

  /** `{...prev, [name]: v}` on the fields the form has. */
  function Put(f: Form, name: string, v: Input): Form {
    match v
    case Number(n) =>
      if name == "quantity" then f.(quantity := n)
      else if name == "normalRequiredStock" then f.(normalRequiredStock := n)
      else if name == "busyRequiredStock" then f.(busyRequiredStock := n)
      else if name == "minThreshold" then f.(minThreshold := n)
      else if name == "maxThreshold" then f.(maxThreshold := n)
      else f
    case Text(s) =>
      if name == "name" then f.(name := s)
      else if name == "unit" then f.(unit := s)
      else if name == "notes" then f.(notes := s)
      else f
  }

  /** The category picker's `onSelect`: only the category changes. */
  function SelectCategory(f: Form, id: string): (r: Form)
    ensures r.categoryId == id
    ensures r.(categoryId := f.categoryId) == f
  {
    f.(categoryId := id)
  }

  // ---------------------------------------------------------------------------
  // Validation

  /** The form the validator accepts, stated field by field. */
  predicate Acceptable(f: Form) {
    && f.name != "" && f.categoryId != "" && f.unit != ""
    && f.minThreshold >= 0 && f.maxThreshold > f.minThreshold
  }

  /** `validateForm`'s error map: one entry per failed rule, under that
      field's key, with that rule's message. */
  function Validate(f: Form): (errors: map<string, string>)
    ensures errors.Keys <= {"name", "categoryId", "unit", "minThreshold", "maxThreshold"}
    ensures "name" in errors <==> f.name == ""
    ensures "categoryId" in errors <==> f.categoryId == ""
    ensures "unit" in errors <==> f.unit == ""
    ensures "minThreshold" in errors <==> f.minThreshold < 0
    ensures "maxThreshold" in errors <==> f.maxThreshold <= f.minThreshold
    ensures "name" in errors ==> errors["name"] == NameRequired
    ensures "categoryId" in errors ==> errors["categoryId"] == CategoryRequired
    ensures "unit" in errors ==> errors["unit"] == UnitRequired
    ensures "minThreshold" in errors ==> errors["minThreshold"] == MinPositive
    ensures "maxThreshold" in errors ==> errors["maxThreshold"] == MaxAboveMin
  {
    var e1: map<string, string> := if f.name == "" then map["name" := NameRequired] else map[];
    var e2 := if f.categoryId == "" then e1["categoryId" := CategoryRequired] else e1;
    var e3 := if f.unit == "" then e2["unit" := UnitRequired] else e2;
    var e4 := if f.minThreshold < 0 then e3["minThreshold" := MinPositive] else e3;
    if f.maxThreshold <= f.minThreshold then e4["maxThreshold" := MaxAboveMin] else e4
  }

  /** The validator passes (no key set) exactly on acceptable forms. */
  lemma ValidIff(f: Form)
    ensures |Validate(f)| == 0 <==> Acceptable(f)
  {
    var e := Validate(f);
    if !Acceptable(f) {
      var k :| k in e.Keys;
      assert |e.Keys| > 0;
    }
  }

  /** The freshly opened form fails on name, category, unit and the maximum. */
  lemma EmptyFormRejected()
    ensures Validate(EmptyForm).Keys == {"name", "categoryId", "unit", "maxThreshold"}
  {
  }

  // ---------------------------------------------------------------------------
  // Payload and submit

  /** The insert payload: each form field under its storage name. */
  function Payload(f: Form): (d: ItemDraft)
    ensures d.name == f.name && d.category_id == f.categoryId && d.quantity == f.quantity
    ensures d.unit == f.unit && d.notes == f.notes
    ensures d.normal_required_stock == f.normalRequiredStock && d.busy_required_stock == f.busyRequiredStock
    ensures d.min_threshold == f.minThreshold && d.max_threshold == f.maxThreshold
  {
    ItemDraft(f.name, f.categoryId, f.quantity, f.unit, f.normalRequiredStock,
              f.busyRequiredStock, f.notes, f.minThreshold, f.maxThreshold)
  }

  /** No form field is lost on the way to the table and back: the row the
      insert creates, renamed as the store renames it, carries every form
      value under its in-memory name. */
  lemma PayloadRoundTrip(f: Form, g: Form, id: string, day: int)
    ensures Payload(f) == Payload(g) ==> f == g
    ensures FromRow(Inserted(Payload(f), id, day)) ==
      Item(id, f.name, f.categoryId, f.quantity, f.unit, f.normalRequiredStock,
           f.busyRequiredStock, day, f.notes, f.minThreshold, f.maxThreshold)
  {
  }

  /** The dialog's local state. */
  datatype Dialog = Dialog(form: Form, errors: map<string, string>)

  /** After a submit: the dialog, the store, whether `onClose` was called, and
      the remote calls made. */
  datatype Submitted = Submitted(dialog: Dialog, store: Store.State, closed: bool, calls: seq<Store.Call>)

  /** `handleSubmit`. */
  function Submit(d: Dialog, st: Store.State, today: int, reply: Store.Reply<ItemRow>): (r: Submitted)
    ensures !Acceptable(d.form) ==>
      r == Submitted(Dialog(d.form, Validate(d.form)), st, false, [])
    ensures Acceptable(d.form) ==> r.calls == [Store.ItemsInsert(Payload(d.form), today)]
    ensures Acceptable(d.form) && reply.Ok? ==>
      && r.closed && r.dialog == Dialog(EmptyForm, map[])
      && |r.store.items| == |st.items| + 1
      && r.store.items[..|st.items|] == st.items
      && r.store.items[|st.items|] == Mapped(FromRow(reply.data))
    ensures Acceptable(d.form) && reply.Err? ==>
      && !r.closed && r.dialog == Dialog(d.form, map["form" := AddFailed])
      && r.store.items == st.items && r.store.error == Some(reply.message)
  {
    ValidIff(d.form);
    var errors := Validate(d.form);
    if |errors| != 0 then Submitted(Dialog(d.form, errors), st, false, [])
    else
      var added := Store.AddItem(st, Payload(d.form), today, reply);
      if added.thrown.Some? then Submitted(Dialog(d.form, map["form" := AddFailed]), added.state, false, added.calls)
      else Submitted(Dialog(EmptyForm, errors), added.state, true, added.calls)
  }

  /** When the table stores the payload as sent, the item the store appends
      after a submit holds exactly the values typed into the form, with the
      id and date the database assigned. */
  lemma SubmitStoresForm(d: Dialog, st: Store.State, today: int, id: string)
    requires Acceptable(d.form)
    ensures
      var r := Submit(d, st, today, Store.Ok(Inserted(Payload(d.form), id, today)));
      var f := d.form;
      && r.closed
      && r.store.items[|st.items|] == Mapped(Item(id, f.name, f.categoryId, f.quantity, f.unit,
           f.normalRequiredStock, f.busyRequiredStock, today, f.notes, f.minThreshold, f.maxThreshold))
  {
    PayloadRoundTrip(d.form, d.form, id, today);
  }
}
