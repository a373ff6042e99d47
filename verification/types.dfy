/** The records the application handles. Rows of the remote tables keep the
    storage (snake_case) column names; the in-memory item the pages read uses
    camelCase names. Dates are whole day stamps. */
module Types {
  import opened Wrappers

  /** A row of the `items` table. */
  datatype ItemRow = ItemRow(
    id: string,
    name: string,
    category_id: string,
    quantity: int,
    unit: string,
    normal_required_stock: int,
    busy_required_stock: int,
    last_stocktake_date: int,
    notes: string,
    min_threshold: int,
    max_threshold: int)

  /** An item with the field names the pages read (`item.categoryId`, ...). */
  datatype Item = Item(
    id: string,
    name: string,
    categoryId: string,
    quantity: int,
    unit: string,
    normalRequiredStock: int,
    busyRequiredStock: int,
    lastStocktakeDate: int,
    notes: string,
    minThreshold: int,
    maxThreshold: int)

  /** What the store's item list holds: rows stored as fetched, or items
      renamed by the add action. */
  datatype StoredItem = Raw(row: ItemRow) | Mapped(item: Item)

  /** The insert payload of a new item: storage names, no id, no stocktake date. */
  datatype ItemDraft = ItemDraft(
    name: string,
    category_id: string,
    quantity: int,
    unit: string,
    normal_required_stock: int,
    busy_required_stock: int,
    notes: string,
    min_threshold: int,
    max_threshold: int)

  /** A category; `parent_id == None` marks a top-level category. */
  datatype Category = Category(id: string, name: string, parent_id: Option<string>)

  /** A row of the `stocktake_entries` table. */
  datatype StocktakeEntry = StocktakeEntry(
    id: string,
    item_id: string,
    quantity: int,
    created_at: int,
    user_id: string,
    notes: string)

  /** The entry payload the stocktake page builds. */
  datatype EntryDraft = EntryDraft(itemId: string, quantity: int, notes: string)

  datatype Role = Admin | RegularUser

  datatype User = User(id: string, name: string, role: Role)

  /** The renaming the add action applies to the row the insert returns. */
  function FromRow(r: ItemRow): Item {
    Item(r.id, r.name, r.category_id, r.quantity, r.unit, r.normal_required_stock,
         r.busy_required_stock, r.last_stocktake_date, r.notes, r.min_threshold, r.max_threshold)
  }

  /** The inverse renaming, from in-memory names back to column names. */
  function ToRow(i: Item): ItemRow {
    ItemRow(i.id, i.name, i.categoryId, i.quantity, i.unit, i.normalRequiredStock,
            i.busyRequiredStock, i.lastStocktakeDate, i.notes, i.minThreshold, i.maxThreshold)
  }

  /** The two renamings are inverse bijections: no field is lost or swapped. */
  lemma RenamingRoundTrip(r: ItemRow, i: Item)
    ensures ToRow(FromRow(r)) == r
    ensures FromRow(ToRow(i)) == i
    ensures FromRow(r) == i <==> r == ToRow(i)
  {
  }

  /** The row the insert of `d` creates, given the id and stocktake date the
      database assigns. */
  function Inserted(d: ItemDraft, id: string, lastStocktakeDate: int): (r: ItemRow)
    ensures r.id == id && r.last_stocktake_date == lastStocktakeDate
    ensures ItemDraft(r.name, r.category_id, r.quantity, r.unit, r.normal_required_stock,
                      r.busy_required_stock, r.notes, r.min_threshold, r.max_threshold) == d
  {
    ItemRow(id, d.name, d.category_id, d.quantity, d.unit, d.normal_required_stock,
            d.busy_required_stock, lastStocktakeDate, d.notes, d.min_threshold, d.max_threshold)
  }

  /** No two positions of the list carry the same id. */
  predicate UniqueIds(cats: seq<Category>) {
    forall i, j :: 0 <= i < |cats| && 0 <= j < |cats| && cats[i].id == cats[j].id ==> i == j
  }

  lemma SameIdSame(cats: seq<Category>, a: Category, b: Category)
    requires UniqueIds(cats) && a in cats && b in cats && a.id == b.id
    ensures a == b
  {
    var i :| 0 <= i < |cats| && cats[i] == a;
    var j :| 0 <= j < |cats| && cats[j] == b;
  }
}
