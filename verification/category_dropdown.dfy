/** The category picker: the open/closed toggle, the selection and its label,
    and the menu walk, which is the category walk with a placeholder for an
    empty forest. */
module CategoryDropdown {
  import opened Wrappers
  import opened Types
  import opened CategoryTree

  /** One menu line: the placeholder, or a category button at a depth. */
  datatype Line = NoCategories | Entry(category: Category, depth: nat)

  /** The menu lines showing a sequence of rendered rows. */
  function Entries(rows: seq<Row>): (lines: seq<Line>)
    ensures |lines| == |rows|
    ensures forall i :: 0 <= i < |rows| ==> lines[i] == Entry(rows[i].category, rows[i].depth)
  {
    if rows == [] then [] else [Entry(rows[0].category, rows[0].depth)] + Entries(rows[1..])
  }

  lemma EntriesAppend(a: seq<Row>, b: seq<Row>)
    ensures Entries(a + b) == Entries(a) + Entries(b)
  {
    assert |Entries(a + b)| == |Entries(a) + Entries(b)|;
    forall i | 0 <= i < |a + b|
      ensures Entries(a + b)[i] == (Entries(a) + Entries(b))[i]
    {
      if i >= |a| { assert (a + b)[i] == b[i - |a|]; }
    }
  }

  /** `renderCategories(key, depth)`: the placeholder when the top level is
      empty, otherwise each child followed by its lines one level deeper. */
  function Menu(cats: seq<Category>, key: Option<string>, depth: nat): seq<Line>
    requires UniqueIds(cats) && KeyAt(cats, key, depth)
    decreases |cats| - depth, 1, 0
  {
    var kids := Children(cats, key);
    if kids == [] && depth == 0 then [NoCategories]
    else MenuEach(cats, kids, key, depth)
  }

  /** The lines of the children `kids` of `key`, each followed by its own lines. */
  function MenuEach(cats: seq<Category>, kids: seq<Category>, key: Option<string>, depth: nat): seq<Line>
    requires UniqueIds(cats) && KeyAt(cats, key, depth)
    requires forall k :: k in kids ==> k in cats && k.parent_id == key
    decreases |cats| - depth, 0, |kids|
  {
    if kids == [] then []
    else
      var k := kids[0];
      KidRooted(cats, key, depth, k);
      [Entry(k, depth)] + Menu(cats, Some(k.id), depth + 1) + MenuEach(cats, kids[1..], key, depth)
  }

  /** Below the top level the menu walk and the table walk agree line for
      line; at the top level too, unless there is nothing to show. */
  lemma {:induction false} MenuIsRender(cats: seq<Category>, key: Option<string>, depth: nat)
    requires UniqueIds(cats) && KeyAt(cats, key, depth)
    ensures Menu(cats, key, depth) ==
      if Children(cats, key) == [] && depth == 0 then [NoCategories] else Entries(Render(cats, key, depth))
    decreases |cats| - depth, 1, 0
  {
    MenuEachIsRenderEach(cats, Children(cats, key), key, depth);
  }

  lemma {:induction false} MenuEachIsRenderEach(cats: seq<Category>, kids: seq<Category>, key: Option<string>, depth: nat)
    requires UniqueIds(cats) && KeyAt(cats, key, depth)
    requires forall k :: k in kids ==> k in cats && k.parent_id == key
    ensures MenuEach(cats, kids, key, depth) == Entries(RenderEach(cats, kids, key, depth))
    decreases |cats| - depth, 0, |kids|
  {
    if kids != [] {
      var k := kids[0];
      MenuKid(cats, key, depth, k);
      MenuEachIsRenderEach(cats, kids[1..], key, depth);
      var sub := Render(cats, Some(k.id), depth + 1);
      var rest := RenderEach(cats, kids[1..], key, depth);
      EntriesJoin(k, depth, sub, rest);
    }
  }

  /** One level down the menu walk never shows the placeholder. */
  lemma {:induction false} MenuKid(cats: seq<Category>, key: Option<string>, depth: nat, k: Category)
    requires UniqueIds(cats) && KeyAt(cats, key, depth)
    requires k in cats && k.parent_id == key
    ensures KeyAt(cats, Some(k.id), depth + 1)
    ensures Menu(cats, Some(k.id), depth + 1) == Entries(Render(cats, Some(k.id), depth + 1))
    decreases |cats| - depth, 0, 0
  {
    KidRooted(cats, key, depth, k);
    MenuIsRender(cats, Some(k.id), depth + 1);
  }

  lemma EntriesJoin(k: Category, depth: nat, sub: seq<Row>, rest: seq<Row>)
    ensures Entries([Row(k, depth)] + sub + rest) == [Entry(k, depth)] + Entries(sub) + Entries(rest)
  {
    EntriesAppend([Row(k, depth)] + sub, rest);
    EntriesAppend([Row(k, depth)], sub);
  }

  /** The open menu, `renderCategories(null)`: the placeholder exactly when
      there is no top-level category, and otherwise a button for exactly the
      categories whose parent chain ends at the top level, each at its depth. */
  function MenuTree(cats: seq<Category>): (lines: seq<Line>)
    requires UniqueIds(cats)
    ensures lines != []
    ensures NoCategories in lines <==> forall c :: c in cats ==> c.parent_id.Some?
  {
    MenuIsRender(cats, None, 0);
    Menu(cats, None, 0)
  }

  lemma MenuTreeExact(cats: seq<Category>, c: Category, d: nat)
    requires UniqueIds(cats)
    ensures NoCategories in MenuTree(cats) <==> forall x :: x in cats ==> x.parent_id.Some?
    ensures NoCategories in MenuTree(cats) ==> MenuTree(cats) == [NoCategories]
    ensures Entry(c, d) in MenuTree(cats) <==> c in cats && RootedAt(cats, c, d)
  {
    MenuIsRender(cats, None, 0);
    RenderTreeExact(cats, c, d);
    var kids := Children(cats, None);
    if kids != [] {
      assert kids[0] in cats && kids[0].parent_id.None?;
      var es := Entries(RenderTree(cats));
      assert NoCategories !in es;
      if Entry(c, d) in es {
        var i :| 0 <= i < |es| && es[i] == Entry(c, d);
        assert RenderTree(cats)[i] == Row(c, d);
      }
      if Row(c, d) in RenderTree(cats) {
        var i :| 0 <= i < |RenderTree(cats)| && RenderTree(cats)[i] == Row(c, d);
        assert es[i] == Entry(c, d);
      }
    } else {
      assert RenderTree(cats) == [] by {
        assert Render(cats, None, 0) == RenderEach(cats, [], None, 0);
      }
    }
  }

  /** The picker's local state: whether the menu is open and which category was chosen. */
  datatype Picker = Picker(isOpen: bool, selected: Option<Category>)

  const Closed: Picker := Picker(false, None)

  /** The header button flips the menu open or closed; the choice stays. */
  function Toggle(p: Picker): (r: Picker)
    ensures r.isOpen != p.isOpen && r.selected == p.selected
  {
    p.(isOpen := !p.isOpen)
  }

  lemma ToggleTwice(p: Picker)
    ensures Toggle(Toggle(p)) == p
  {
  }

  /** What the picker shows under the header: the menu while open, nothing while closed. */
  function Shown(p: Picker, cats: seq<Category>): (lines: seq<Line>)
    requires UniqueIds(cats)
    ensures !p.isOpen ==> lines == []
    ensures p.isOpen ==> lines == MenuTree(cats)
  {
    if p.isOpen then MenuTree(cats) else []
  }

  /** `handleSelect`: remember the category, report its id, close the menu. */
  function Select(p: Picker, c: Category): (r: (Picker, string))
    ensures r.0 == Picker(false, Some(c)) && r.1 == c.id
  {
    (Picker(false, Some(c)), c.id)
  }

  const Prompt := "Select Category"

  /** The header label: the chosen name, or the prompt when nothing is chosen
      or the chosen name is empty. */
  function Label(p: Picker): (caption: string)
    ensures caption != ""
    ensures caption == Prompt <==> p.selected.None? || p.selected.value.name == "" || p.selected.value.name == Prompt
    ensures caption != Prompt ==> p.selected.Some? && caption == p.selected.value.name
  {
    if p.selected.Some? && p.selected.value.name != "" then p.selected.value.name else Prompt
  }

  /** After choosing a category with a non-empty name, the label is its name
      and the menu is closed, whatever state the picker was in. */
  lemma SelectThenLabel(p: Picker, c: Category, cats: seq<Category>)
    requires UniqueIds(cats) && c.name != ""
    ensures Label(Select(p, c).0) == c.name
    ensures Shown(Select(p, c).0, cats) == []
  {
  }
}
