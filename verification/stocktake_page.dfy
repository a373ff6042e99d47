/** The Stocktake page: the item list of the chosen category, the per-item
    notes, and the count handler that records an entry and then updates the
    item. `now` is the submission day stamp. */
module StocktakePage {
  import opened Wrappers
  import opened Types
  import opened Text
  import Catalog
  import Store

  /** `filteredItems`: nothing until a category is chosen. */
  function StocktakeItems(items: seq<Item>, selected: Option<string>): (r: seq<Item>)
    ensures !Catalog.IsSet(selected) ==> r == []
    ensures Catalog.IsSet(selected) ==> forall i :: i in r <==> i in items && i.categoryId == selected.value
  {
    if Catalog.IsSet(selected) then Catalog.InCategory(items, selected.value) else []
  }

  /** `notes[itemId] || ''`. */
  function NoteFor(notes: map<string, string>, itemId: string): (note: string)
    ensures itemId in notes ==> note == notes[itemId]
    ensures itemId !in notes ==> note == ""
  {
    if itemId in notes then notes[itemId] else ""
  }

  /** `handleNotesChange`: that item's note becomes `value`; every other note
      stays as it was. */
  function HandleNotesChange(notes: map<string, string>, itemId: string, value: string): (r: map<string, string>)
    ensures r.Keys == notes.Keys + {itemId}
    ensures NoteFor(r, itemId) == value
    ensures forall k :: k != itemId ==> NoteFor(r, k) == NoteFor(notes, k)
  {
    notes[itemId := value]
  }

  /** The item as the count handler sends it: the counted quantity and the
      submission day, every other field as it was. */
  function Counted(item: Item, count: int, now: int): (r: Item)
    ensures r.quantity == count && r.lastStocktakeDate == now
    ensures r.(quantity := item.quantity, lastStocktakeDate := item.lastStocktakeDate) == item
  {
    item.(quantity := count, lastStocktakeDate := now)
  }

  /** What a count leaves behind: the store, the saved flags, and every remote
      call made, in order. */
  datatype CountOutcome = CountOutcome(state: Store.State, saved: map<string, bool>, calls: seq<Store.Call>)

  /** `handleCountChange`: clear the saved flag, record an entry with the
      parsed count and the item's note, then update the item; the flag is set
      again only when both calls succeed. A thrown error is caught and logged,
      and the update is not attempted when the entry fails. */
  function HandleCountChange(st: Store.State, saved: map<string, bool>, notes: map<string, string>,
                             itemId: string, value: string, currentItem: Item, now: int,
                             entryReply: Store.Reply<StocktakeEntry>, updateReply: Store.Reply<()>,
                             refetch: Store.Reply<Option<seq<ItemRow>>>): (r: CountOutcome)
    ensures r.saved.Keys == saved.Keys + {itemId}
    ensures forall k :: k in saved && k != itemId ==> r.saved[k] == saved[k]
    ensures r.saved[itemId] <==> entryReply.Ok? && updateReply.Ok?
    ensures r.calls != [] && r.calls[0] == Store.EntriesInsert(EntryDraft(itemId, ParseOr0(value), NoteFor(notes, itemId)), Store.UserId(st))
    ensures entryReply.Err? ==> |r.calls| == 1 && r.state.error == Some(entryReply.message)
    ensures entryReply.Ok? ==>
      && |r.calls| >= 2
      && r.calls[1] == Store.ItemsUpdate(Counted(currentItem, ParseOr0(value), now))
      && r.state.entries == st.entries + [entryReply.data]
    ensures !r.state.isLoading
  {
    var count := ParseOr0(value);
    var cleared := saved[itemId := false];
    var added := Store.AddEntry(st, EntryDraft(itemId, count, NoteFor(notes, itemId)), entryReply);
    if added.thrown.Some? then
      CountOutcome(added.state, cleared, added.calls)
    else
      UpdateCounted(added, cleared, itemId, Counted(currentItem, count, now), updateReply, refetch)
  }

  /** The second half of the count handler, once the entry is recorded: send
      the counted item and set the saved flag only when the update succeeds. */
  function UpdateCounted(added: Store.Step, cleared: map<string, bool>, itemId: string, item: Item,
                         updateReply: Store.Reply<()>, refetch: Store.Reply<Option<seq<ItemRow>>>): (r: CountOutcome)
    requires itemId in cleared
    ensures r.saved.Keys == cleared.Keys
    ensures forall k :: k in cleared && k != itemId ==> r.saved[k] == cleared[k]
    ensures r.saved[itemId] <==> updateReply.Ok? || cleared[itemId]
    ensures |r.calls| > |added.calls| && r.calls[..|added.calls|] == added.calls
    ensures r.calls[|added.calls|] == Store.ItemsUpdate(item)
    ensures r.state.entries == added.state.entries && !r.state.isLoading
  {
    var updated := Store.UpdateItem(added.state, item, updateReply, refetch);
    assert Store.Agree(added.state, updated.state, Store.EntriesField);
    var flags := if updated.thrown.Some? then cleared else cleared[itemId := true];
    CountOutcome(updated.state, flags, added.calls + updated.calls)
  }

  /** A count of 12 on an item, with both calls succeeding, records one entry
      for that item with quantity 12 and sends the item with quantity 12 and
      the submission day. */
  lemma CountTwelve(st: Store.State, saved: map<string, bool>, notes: map<string, string>, item: Item, now: int,
                    entry: StocktakeEntry, refetch: Store.Reply<Option<seq<ItemRow>>>)
    ensures var r := HandleCountChange(st, saved, notes, item.id, "12", item, now, Store.Ok(entry), Store.Ok(()), refetch);
      && r.saved[item.id]
      && r.state.entries == st.entries + [entry]
      && r.calls[0].entry == EntryDraft(item.id, 12, NoteFor(notes, item.id))
      && r.calls[1] == Store.ItemsUpdate(item.(quantity := 12, lastStocktakeDate := now))
  {
    ParseTwelve();
  }

  lemma ParseTwelve()
    ensures ParseOr0("1") == 1
    ensures ParseOr0("12") == 12
  {
    var d := "12";
    assert AllDigits(d) && AllDigits(d[..1]);
    ParseUnsigned(d);
    ParseUnsigned(d[..1]);
    assert d[..1] == "1" && d[..1][..0] == "";
    assert DigitsValue(d[..1]) == 1;
  }

  /** The count input fires a change event per keystroke, so typing "12"
      runs the handler on "1" and again on "12". For any two successive
      events on the same item with every call succeeding, both counts are
      recorded as entries, in order, and the item is sent once per event with
      that event's count. */
  lemma TwoEventsRecordBoth(st: Store.State, saved: map<string, bool>, notes: map<string, string>,
                            item: Item, later: Item, v1: string, v2: string, now: int,
                            e1: StocktakeEntry, e2: StocktakeEntry,
                            refetch1: Store.Reply<Option<seq<ItemRow>>>, refetch2: Store.Reply<Option<seq<ItemRow>>>)
    requires later.id == item.id
    ensures var r1 := HandleCountChange(st, saved, notes, item.id, v1, item, now, Store.Ok(e1), Store.Ok(()), refetch1);
      var r2 := HandleCountChange(r1.state, r1.saved, notes, item.id, v2, later, now, Store.Ok(e2), Store.Ok(()), refetch2);
      && r2.state.entries == st.entries + [e1, e2]
      && r1.calls[1] == Store.ItemsUpdate(item.(quantity := ParseOr0(v1), lastStocktakeDate := now))
      && r2.calls[1] == Store.ItemsUpdate(later.(quantity := ParseOr0(v2), lastStocktakeDate := now))
      && r2.saved[item.id]
  {
    var r1 := HandleCountChange(st, saved, notes, item.id, v1, item, now, Store.Ok(e1), Store.Ok(()), refetch1);
    CountSucceeds(st, saved, notes, item, v1, now, e1, refetch1);
    CountSucceeds(r1.state, r1.saved, notes, later, v2, now, e2, refetch2);
    assert st.entries + [e1] + [e2] == st.entries + [e1, e2];
  }

  /** One change event with both calls succeeding. */
  lemma CountSucceeds(st: Store.State, saved: map<string, bool>, notes: map<string, string>, item: Item,
                      value: string, now: int, e: StocktakeEntry, refetch: Store.Reply<Option<seq<ItemRow>>>)
    ensures var r := HandleCountChange(st, saved, notes, item.id, value, item, now, Store.Ok(e), Store.Ok(()), refetch);
      && r.state.entries == st.entries + [e]
      && r.calls[0].entry.quantity == ParseOr0(value)
      && r.calls[1] == Store.ItemsUpdate(item.(quantity := ParseOr0(value), lastStocktakeDate := now))
      && r.saved[item.id]
  {
  }
}
