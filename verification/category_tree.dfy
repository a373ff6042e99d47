/** The category forest: the child lists the pages filter out of the flat
    category list, and the recursive pre-order walk that renders them with a
    depth counter. The walk has no cycle check of its own; with unique ids it
    still terminates, because it only ever descends into categories whose
    parent chain reaches the top level, and such a chain cannot repeat a
    category. */
module CategoryTree {
  import opened Wrappers
  import opened Types
  import Seqs

  /** `getNestedCategories(key)`: the categories whose parent reference is
      `key`, in list order. */
  function Children(cats: seq<Category>, key: Option<string>): (r: seq<Category>)
    ensures forall c :: c in r <==> c in cats && c.parent_id == key
  {
    Seqs.Filter(cats, (c: Category) => c.parent_id == key)
  }

  /** The child list keeps the list's order and each child's multiplicity. */
  lemma ChildrenOrder(cats: seq<Category>, key: Option<string>, c: Category)
    ensures Seqs.SubsequenceOf(Children(cats, key), cats)
    ensures multiset(Children(cats, key))[c] == if c.parent_id == key then multiset(cats)[c] else 0
  {
    Seqs.FilterSubsequence(cats, (c: Category) => c.parent_id == key);
    Seqs.FilterCount(cats, (c: Category) => c.parent_id == key, c);
  }

  /** With unique ids no child is listed twice. */
  lemma ChildrenDistinct(cats: seq<Category>, key: Option<string>)
    requires UniqueIds(cats)
    ensures Seqs.Distinct(Children(cats, key))
  {
    forall i, j | 0 <= i < |cats| && 0 <= j < |cats| && cats[i] == cats[j]
      ensures i == j
    {
      assert cats[i].id == cats[j].id;
    }
    Seqs.FilterDistinct(cats, (c: Category) => c.parent_id == key);
  }

  /** Following `m` parent links from `x` through categories of the list ends
      at the reference `key`: one link when `x.parent_id == key`. */
  ghost predicate Below(cats: seq<Category>, x: Category, key: Option<string>, m: nat)
    decreases m
  {
    if m == 0 then false
    else if m == 1 then x.parent_id == key
    else x.parent_id.Some? && exists p :: p in cats && p.id == x.parent_id.value && Below(cats, p, key, m - 1)
  }

  /** `x`'s parent chain reaches the top level after `depth` intermediate
      categories: `x` sits at depth `depth` of the forest. */
  ghost predicate RootedAt(cats: seq<Category>, x: Category, depth: nat) {
    Below(cats, x, None, depth + 1)
  }

  /** `x` is `k` (`j == 0`) or lies `j` links below it. */
  ghost predicate BelowOrSelf(cats: seq<Category>, x: Category, k: Category, j: nat) {
    if j == 0 then x == k else Below(cats, x, Some(k.id), j)
  }

  /** The walk may be entered with parent key `key` at depth `depth`: the top
      level at depth 0, or the id of a category rooted at `depth - 1`. */
  ghost predicate KeyAt(cats: seq<Category>, key: Option<string>, depth: nat) {
    if depth == 0 then key.None?
    else key.Some? && exists p :: p in cats && p.id == key.value && RootedAt(cats, p, depth - 1)
  }

  /** With unique ids the category `m` links above `x` is determined. */
  lemma {:induction false} BelowKeyUnique(cats: seq<Category>, x: Category, a: Option<string>, b: Option<string>, m: nat)
    requires UniqueIds(cats) && Below(cats, x, a, m) && Below(cats, x, b, m)
    ensures a == b
    decreases m
  {
    if m > 1 {
      var p :| p in cats && p.id == x.parent_id.value && Below(cats, p, a, m - 1);
      var q :| q in cats && q.id == x.parent_id.value && Below(cats, q, b, m - 1);
      SameIdSame(cats, p, q);
      BelowKeyUnique(cats, p, a, b, m - 1);
    }
  }

  /** With unique ids a category sits at one depth at most. */
  lemma {:induction false} RootedDepthUnique(cats: seq<Category>, x: Category, m1: nat, m2: nat)
    requires UniqueIds(cats) && Below(cats, x, None, m1) && Below(cats, x, None, m2)
    ensures m1 == m2
    decreases m1
  {
    if m1 > 1 && m2 > 1 {
      var p :| p in cats && p.id == x.parent_id.value && Below(cats, p, None, m1 - 1);
      var q :| q in cats && q.id == x.parent_id.value && Below(cats, q, None, m2 - 1);
      SameIdSame(cats, p, q);
      RootedDepthUnique(cats, p, m1 - 1, m2 - 1);
    }
  }

  /** `x` followed by the `m - 1` categories above it. */
  ghost function Ancestry(cats: seq<Category>, x: Category, m: nat): (chain: seq<Category>)
    requires m >= 1 && Below(cats, x, None, m)
    ensures |chain| == m && chain[0] == x
    ensures forall i :: 0 <= i < m ==> Below(cats, chain[i], None, m - i)
    ensures forall i :: 0 < i < m ==> chain[i] in cats
    decreases m
  {
    if m == 1 then [x]
    else
      var p :| p in cats && p.id == x.parent_id.value && Below(cats, p, None, m - 1);
      [x] + Ancestry(cats, p, m - 1)
  }

  /** A category of the list sits at a depth smaller than the number of
      categories: its ancestry repeats no category. */
  lemma DepthBound(cats: seq<Category>, x: Category, depth: nat)
    requires UniqueIds(cats) && x in cats && RootedAt(cats, x, depth)
    ensures depth < |cats|
  {
    var chain := Ancestry(cats, x, depth + 1);
    forall i, j | 0 <= i < |chain| && 0 <= j < |chain| && chain[i] == chain[j]
      ensures i == j
    {
      RootedDepthUnique(cats, chain[i], depth + 1 - i, depth + 1 - j);
    }
    Seqs.DistinctLength(chain, cats);
  }

  /** A child of the entry key sits at the entry depth, which is then below
      the number of categories. */
  lemma KidRooted(cats: seq<Category>, key: Option<string>, depth: nat, k: Category)
    requires UniqueIds(cats) && KeyAt(cats, key, depth)
    requires k in cats && k.parent_id == key
    ensures RootedAt(cats, k, depth) && depth < |cats|
    ensures KeyAt(cats, Some(k.id), depth + 1)
  {
    if depth > 0 {
      var p :| p in cats && p.id == key.value && RootedAt(cats, p, depth - 1);
      assert Below(cats, k, None, depth + 1);
    }
    DepthBound(cats, k, depth);
  }

  /** Climbing one more link from a child of `key` reaches `key`. */
  lemma {:induction false} BelowExtend(cats: seq<Category>, x: Category, k: Category, key: Option<string>, j: nat)
    requires k in cats && k.parent_id == key && BelowOrSelf(cats, x, k, j)
    ensures Below(cats, x, key, j + 1)
    decreases j
  {
    if j > 1 {
      var p :| p in cats && p.id == x.parent_id.value && Below(cats, p, Some(k.id), j - 1);
      BelowExtend(cats, p, k, key, j - 1);
    }
  }

  /** The same chain read from the top: the first link below `key` is a
      child of `key`. */
  lemma {:induction false} TopDown(cats: seq<Category>, x: Category, key: Option<string>, m: nat) returns (k: Category)
    requires m >= 2 && Below(cats, x, key, m)
    ensures k in cats && k.parent_id == key && Below(cats, x, Some(k.id), m - 1)
    decreases m
  {
    var p :| p in cats && p.id == x.parent_id.value && Below(cats, p, key, m - 1);
    if m == 2 {
      k := p;
    } else {
      k := TopDown(cats, p, key, m - 1);
    }
  }

  /** With unique ids, the same category is never met at two depths. */
  lemma DepthOf(cats: seq<Category>, x: Category, y: Category, m1: nat, m2: nat)
    requires UniqueIds(cats) && Below(cats, x, None, m1) && Below(cats, y, None, m2)
    ensures x == y ==> m1 == m2
  {
    if x == y {
      RootedDepthUnique(cats, x, m1, m2);
    }
  }

  /** Two rows that descend from categories at the same depth and name the
      same category descend from the same one. */
  lemma TopKidUnique(cats: seq<Category>, x: Category, y: Category, k1: Category, k2: Category,
                     depth: nat, j1: nat, j2: nat)
    requires UniqueIds(cats) && k1 in cats && k2 in cats
    requires RootedAt(cats, x, depth + j1) && RootedAt(cats, y, depth + j2)
    requires BelowOrSelf(cats, x, k1, j1) && BelowOrSelf(cats, y, k2, j2)
    ensures x == y ==> k1 == k2
  {
    if x == y {
      RootedDepthUnique(cats, x, depth + j1 + 1, depth + j2 + 1);
      if j1 > 0 {
        BelowKeyUnique(cats, x, Some(k1.id), Some(k2.id), j1);
        SameIdSame(cats, k1, k2);
      }
    }
  }

  /** One rendered table row: a category and its depth. */
  datatype Row = Row(category: Category, depth: nat)

  /** No category is rendered twice. */
  predicate NoRepeats(rows: seq<Row>) {
    forall i, j :: 0 <= i < |rows| && 0 <= j < |rows| && rows[i].category == rows[j].category ==> i == j
  }

  /** A row rendered by a walk entered at `depth`: a category of the list at
      its own forest depth, no shallower than the entry. */
  ghost predicate Placed(cats: seq<Category>, r: Row, depth: nat) {
    r.category in cats && RootedAt(cats, r.category, r.depth) && depth <= r.depth < |cats|
  }

  /** The row's category lies below the entry key, by as many links as the
      depth it was rendered at says. */
  ghost predicate UnderKey(cats: seq<Category>, r: Row, key: Option<string>, depth: nat) {
    r.depth >= depth && Below(cats, r.category, key, r.depth - depth + 1)
  }

  /** The row's category is one of `kids` or below one of them. */
  ghost predicate UnderKids(cats: seq<Category>, r: Row, kids: seq<Category>, depth: nat) {
    r.depth >= depth && exists i :: 0 <= i < |kids| && BelowOrSelf(cats, r.category, kids[i], r.depth - depth)
  }

  /** `renderCategories(key, depth)`: each child of `key`, in list order, is
      immediately followed by its own subtree one level deeper. What the rows
      are is stated by `RenderSound`, `SubtreeFollows` and `RenderTreeExact`. */
  function Render(cats: seq<Category>, key: Option<string>, depth: nat): seq<Row>
    requires UniqueIds(cats) && KeyAt(cats, key, depth)
    decreases |cats| - depth, 1, 0
  {
    RenderEach(cats, Children(cats, key), key, depth)
  }

  /** The rows of the children `kids` of `key`, each followed by its subtree. */
  function RenderEach(cats: seq<Category>, kids: seq<Category>, key: Option<string>, depth: nat): seq<Row>
    requires UniqueIds(cats) && KeyAt(cats, key, depth)
    requires forall k :: k in kids ==> k in cats && k.parent_id == key
    decreases |cats| - depth, 0, |kids|
  {
    if kids == [] then []
    else
      var k := kids[0];
      KidRooted(cats, key, depth, k);
      [Row(k, depth)] + Render(cats, Some(k.id), depth + 1) + RenderEach(cats, kids[1..], key, depth)
  }

  /** Every row of the walk is a category of the list, sitting at its own
      depth in the forest, below the entry key by as many links as its depth
      says, and no category is rendered twice. */
  lemma {:induction false} RenderSound(cats: seq<Category>, key: Option<string>, depth: nat)
    requires UniqueIds(cats) && KeyAt(cats, key, depth)
    ensures forall r :: r in Render(cats, key, depth) ==> Placed(cats, r, depth) && UnderKey(cats, r, key, depth)
    ensures NoRepeats(Render(cats, key, depth))
    decreases |cats| - depth, 1, 0
  {
    var kids := Children(cats, key);
    ChildrenDistinct(cats, key);
    RenderEachSound(cats, kids, key, depth);
    KidsToKey(cats, kids, key, depth, RenderEach(cats, kids, key, depth));
  }

  lemma {:induction false} RenderEachSound(cats: seq<Category>, kids: seq<Category>, key: Option<string>, depth: nat)
    requires UniqueIds(cats) && KeyAt(cats, key, depth)
    requires forall k :: k in kids ==> k in cats && k.parent_id == key
    requires Seqs.Distinct(kids)
    ensures forall r :: r in RenderEach(cats, kids, key, depth) ==> Placed(cats, r, depth) && UnderKids(cats, r, kids, depth)
    ensures NoRepeats(RenderEach(cats, kids, key, depth))
    decreases |cats| - depth, 0, |kids|
  {
    if kids != [] {
      var k := kids[0];
      KidRooted(cats, key, depth, k);
      Seqs.DistinctTail(kids);
      RenderSound(cats, Some(k.id), depth + 1);
      RenderEachSound(cats, kids[1..], key, depth);
      JoinBlocks(cats, kids, key, depth, Render(cats, Some(k.id), depth + 1), RenderEach(cats, kids[1..], key, depth));
    }
  }

  lemma KidsToKey(cats: seq<Category>, kids: seq<Category>, key: Option<string>, depth: nat, rows: seq<Row>)
    requires forall k :: k in kids ==> k in cats && k.parent_id == key
    requires forall r :: r in rows ==> UnderKids(cats, r, kids, depth)
    ensures forall r :: r in rows ==> UnderKey(cats, r, key, depth)
  {
    forall r | r in rows
      ensures UnderKey(cats, r, key, depth)
    {
      var i :| 0 <= i < |kids| && BelowOrSelf(cats, r.category, kids[i], r.depth - depth);
      BelowExtend(cats, r.category, kids[i], key, r.depth - depth);
    }
  }

  /** The row of the first child, its subtree and the blocks of the other
      children share no category, and together they are rows of `kids`. */
  lemma JoinBlocks(cats: seq<Category>, kids: seq<Category>, key: Option<string>, depth: nat,
                   sub: seq<Row>, rest: seq<Row>)
    requires UniqueIds(cats) && kids != [] && Seqs.Distinct(kids)
    requires forall k :: k in kids ==> k in cats && k.parent_id == key
    requires RootedAt(cats, kids[0], depth) && depth < |cats|
    requires forall r :: r in sub ==> Placed(cats, r, depth + 1) && UnderKey(cats, r, Some(kids[0].id), depth + 1)
    requires NoRepeats(sub)
    requires forall r :: r in rest ==> Placed(cats, r, depth) && UnderKids(cats, r, kids[1..], depth)
    requires NoRepeats(rest)
    ensures forall r :: r in [Row(kids[0], depth)] + sub + rest ==> Placed(cats, r, depth) && UnderKids(cats, r, kids, depth)
    ensures NoRepeats([Row(kids[0], depth)] + sub + rest)
  {
    var head := [Row(kids[0], depth)];
    JoinPlaced(cats, kids, key, depth, head, sub, rest);
    HeadNotInSub(cats, kids[0], depth, sub);
    NoRepeatsJoin(head, sub);
    BlocksDisjoint(cats, kids, key, depth, head + sub, rest);
    NoRepeatsJoin(head + sub, rest);
  }

  lemma JoinPlaced(cats: seq<Category>, kids: seq<Category>, key: Option<string>, depth: nat,
                   head: seq<Row>, sub: seq<Row>, rest: seq<Row>)
    requires kids != [] && head == [Row(kids[0], depth)]
    requires kids[0] in cats && RootedAt(cats, kids[0], depth) && depth < |cats|
    requires forall r :: r in sub ==> Placed(cats, r, depth + 1) && UnderKey(cats, r, Some(kids[0].id), depth + 1)
    requires forall r :: r in rest ==> Placed(cats, r, depth) && UnderKids(cats, r, kids[1..], depth)
    ensures forall r :: r in head + sub + rest ==> Placed(cats, r, depth) && UnderKids(cats, r, kids, depth)
  {
    forall r | r in head + sub + rest
      ensures UnderKids(cats, r, kids, depth)
    {
      if r in head {
        assert BelowOrSelf(cats, r.category, kids[0], 0);
      } else if r in sub {
        assert BelowOrSelf(cats, r.category, kids[0], r.depth - depth);
      } else {
        var i :| 0 <= i < |kids[1..]| && BelowOrSelf(cats, r.category, kids[1..][i], r.depth - depth);
        assert kids[1..][i] == kids[i + 1];
      }
    }
  }

  /** The first child's own row never shares a category with its subtree. */
  lemma HeadNotInSub(cats: seq<Category>, k: Category, depth: nat, sub: seq<Row>)
    requires UniqueIds(cats) && RootedAt(cats, k, depth)
    requires forall r :: r in sub ==> Placed(cats, r, depth + 1)
    ensures forall x, y :: x in [Row(k, depth)] && y in sub ==> x.category != y.category
  {
    forall r | r in sub
      ensures r.category != k
    {
      DepthOf(cats, r.category, k, r.depth + 1, depth + 1);
    }
  }

  /** Rows of the first child's block never share a category with rows of
      the other children's blocks. */
  lemma BlocksDisjoint(cats: seq<Category>, kids: seq<Category>, key: Option<string>, depth: nat,
                       first: seq<Row>, rest: seq<Row>)
    requires UniqueIds(cats) && kids != [] && Seqs.Distinct(kids)
    requires forall k :: k in kids ==> k in cats && k.parent_id == key
    requires forall r :: r in first ==> Placed(cats, r, depth) && BelowOrSelf(cats, r.category, kids[0], r.depth - depth)
    requires forall r :: r in rest ==> Placed(cats, r, depth) && UnderKids(cats, r, kids[1..], depth)
    ensures forall x, y :: x in first && y in rest ==> x.category != y.category
  {
    forall a, b | a in first && b in rest
      ensures a.category != b.category
    {
      var i :| 0 <= i < |kids[1..]| && BelowOrSelf(cats, b.category, kids[1..][i], b.depth - depth);
      assert kids[1..][i] == kids[i + 1];
      TopKidUnique(cats, a.category, b.category, kids[0], kids[i + 1], depth, a.depth - depth, b.depth - depth);
    }
  }

  lemma NoRepeatsJoin(a: seq<Row>, b: seq<Row>)
    requires NoRepeats(a) && NoRepeats(b)
    requires forall x, y :: x in a && y in b ==> x.category != y.category
    ensures NoRepeats(a + b)
  {
    var ab := a + b;
    forall i, j | 0 <= i < |ab| && 0 <= j < |ab|
      ensures ab[i].category == ab[j].category ==> i == j
    {
      if i < |a| { assert ab[i] == a[i]; } else { assert ab[i] == b[i - |a|]; }
      if j < |a| { assert ab[j] == a[j]; } else { assert ab[j] == b[j - |a|]; }
    }
  }

  /** Row `r` occurs in `rows` and is immediately followed by `sub`. */
  ghost predicate FollowedBy(rows: seq<Row>, r: Row, sub: seq<Row>) {
    exists i :: 0 <= i && i + 1 + |sub| <= |rows| && rows[i] == r && rows[i + 1..i + 1 + |sub|] == sub
  }

  lemma FollowedAt(rows: seq<Row>, r: Row, sub: seq<Row>, i: nat)
    requires i + 1 + |sub| <= |rows| && rows[i] == r && rows[i + 1..i + 1 + |sub|] == sub
    ensures FollowedBy(rows, r, sub)
  {
  }

  lemma FollowedShift(head: seq<Row>, rest: seq<Row>, r: Row, sub: seq<Row>)
    requires FollowedBy(rest, r, sub)
    ensures FollowedBy(head + rest, r, sub)
  {
    var j :| 0 <= j && j + 1 + |sub| <= |rest| && rest[j] == r && rest[j + 1..j + 1 + |sub|] == sub;
    var i := |head| + j;
    assert (head + rest)[i + 1..i + 1 + |sub|] == rest[j + 1..j + 1 + |sub|];
    FollowedAt(head + rest, r, sub, i);
  }

  /** Pre-order: a child's row is immediately followed by its whole subtree,
      rendered one level deeper. */
  lemma SubtreeFollows(cats: seq<Category>, key: Option<string>, depth: nat, k: Category)
    requires UniqueIds(cats) && KeyAt(cats, key, depth)
    requires k in cats && k.parent_id == key
    ensures KeyAt(cats, Some(k.id), depth + 1)
    ensures FollowedBy(Render(cats, key, depth), Row(k, depth), Render(cats, Some(k.id), depth + 1))
  {
    KidRooted(cats, key, depth, k);
    EachSubtreeFollows(cats, Children(cats, key), key, depth, k);
  }

  lemma {:induction false} EachSubtreeFollows(cats: seq<Category>, kids: seq<Category>, key: Option<string>,
                                              depth: nat, k: Category)
    requires UniqueIds(cats) && KeyAt(cats, key, depth)
    requires forall c :: c in kids ==> c in cats && c.parent_id == key
    requires k in kids && KeyAt(cats, Some(k.id), depth + 1)
    ensures FollowedBy(RenderEach(cats, kids, key, depth), Row(k, depth), Render(cats, Some(k.id), depth + 1))
    decreases |kids|
  {
    var sub := Render(cats, Some(k.id), depth + 1);
    var k0 := kids[0];
    KidRooted(cats, key, depth, k0);
    var head := [Row(k0, depth)] + Render(cats, Some(k0.id), depth + 1);
    var rest := RenderEach(cats, kids[1..], key, depth);
    var rows := RenderEach(cats, kids, key, depth);
    assert rows == head + rest;
    if k0 == k {
      assert rows[1..1 + |sub|] == sub;
      FollowedAt(rows, Row(k, depth), sub, 0);
    } else {
      assert k in kids[1..];
      EachSubtreeFollows(cats, kids[1..], key, depth, k);
      FollowedShift(head, rest, Row(k, depth), sub);
    }
  }

  /** The walk renders nothing exactly when `key` has no children, and
      otherwise starts with the first child's row. */
  lemma RenderShape(cats: seq<Category>, key: Option<string>, depth: nat)
    requires UniqueIds(cats) && KeyAt(cats, key, depth)
    ensures Render(cats, key, depth) == [] <==> Children(cats, key) == []
    ensures Children(cats, key) != [] ==> Render(cats, key, depth)[0] == Row(Children(cats, key)[0], depth)
    ensures Children(cats, key) == [] ==> forall c :: c in cats ==> c.parent_id != key
    ensures Children(cats, key) != [] ==> Children(cats, key)[0] in cats && Children(cats, key)[0].parent_id == key
  {
  }

  /** Row `x` occurs in `rows` at some position before row `y`. */
  ghost predicate Before(rows: seq<Row>, x: Row, y: Row) {
    exists a, b :: 0 <= a < b < |rows| && rows[a] == x && rows[b] == y
  }

  lemma BeforeAt(rows: seq<Row>, x: Row, y: Row, a: nat, b: nat)
    requires a < b < |rows| && rows[a] == x && rows[b] == y
    ensures Before(rows, x, y)
  {
  }

  lemma BeforeShift(head: seq<Row>, rest: seq<Row>, x: Row, y: Row)
    requires Before(rest, x, y)
    ensures Before(head + rest, x, y)
  {
    var a, b :| 0 <= a < b < |rest| && rest[a] == x && rest[b] == y;
    BeforeAt(head + rest, x, y, |head| + a, |head| + b);
  }

  lemma HeadBefore(head: seq<Row>, rest: seq<Row>, x: Row, y: Row)
    requires head != [] && head[0] == x && y in rest
    ensures Before(head + rest, x, y)
  {
    var b :| 0 <= b < |rest| && rest[b] == y;
    BeforeAt(head + rest, x, y, 0, |head| + b);
  }

  /** Siblings are rendered in list order: of two children of `key`, the
      one earlier in the category list has its row earlier in the walk. */
  lemma SiblingOrder(cats: seq<Category>, key: Option<string>, depth: nat, i: nat, j: nat)
    requires UniqueIds(cats) && KeyAt(cats, key, depth)
    requires i < j < |Children(cats, key)|
    ensures Before(Render(cats, key, depth), Row(Children(cats, key)[i], depth), Row(Children(cats, key)[j], depth))
  {
    EachSiblingOrder(cats, Children(cats, key), key, depth, i, j);
  }

  lemma {:induction false} EachSiblingOrder(cats: seq<Category>, kids: seq<Category>, key: Option<string>,
                                            depth: nat, i: nat, j: nat)
    requires UniqueIds(cats) && KeyAt(cats, key, depth)
    requires forall c :: c in kids ==> c in cats && c.parent_id == key
    requires i < j < |kids|
    ensures Before(RenderEach(cats, kids, key, depth), Row(kids[i], depth), Row(kids[j], depth))
    decreases |kids|
  {
    var k0 := kids[0];
    KidRooted(cats, key, depth, k0);
    var head := [Row(k0, depth)] + Render(cats, Some(k0.id), depth + 1);
    var rest := RenderEach(cats, kids[1..], key, depth);
    assert RenderEach(cats, kids, key, depth) == head + rest;
    assert kids[j] == kids[1..][j - 1];
    if i == 0 {
      KidRooted(cats, key, depth, kids[j]);
      EachContains(cats, kids[1..], key, depth, kids[j]);
      HeadBefore(head, rest, Row(k0, depth), Row(kids[j], depth));
    } else {
      assert kids[i] == kids[1..][i - 1];
      EachSiblingOrder(cats, kids[1..], key, depth, i - 1, j - 1);
      BeforeShift(head, rest, Row(kids[i], depth), Row(kids[j], depth));
    }
  }

  /** The rendering of the whole forest, as `renderCategories(null)` starts
      it: empty exactly when no category sits at the top level. */
  function RenderTree(cats: seq<Category>): (rows: seq<Row>)
    requires UniqueIds(cats)
    ensures rows == [] <==> forall c :: c in cats ==> c.parent_id.Some?
  {
    RenderShape(cats, None, 0);
    Render(cats, None, 0)
  }

  /** Every rendered row is a category of the list at its forest depth, that
      depth is below the number of categories, and no category is rendered
      twice. */
  lemma RenderTreeSound(cats: seq<Category>)
    requires UniqueIds(cats)
    ensures forall r :: r in RenderTree(cats) ==> r.category in cats && RootedAt(cats, r.category, r.depth) && r.depth < |cats|
    ensures NoRepeats(RenderTree(cats))
  {
    RenderSound(cats, None, 0);
  }

  /** A child of the walk's key, and everything under it, is rendered by the
      child-list step. */
  lemma {:induction false} EachContains(cats: seq<Category>, kids: seq<Category>, key: Option<string>, depth: nat, k: Category)
    requires UniqueIds(cats) && KeyAt(cats, key, depth)
    requires forall k :: k in kids ==> k in cats && k.parent_id == key
    requires k in kids && KeyAt(cats, Some(k.id), depth + 1)
    ensures Row(k, depth) in RenderEach(cats, kids, key, depth)
    ensures forall r :: r in Render(cats, Some(k.id), depth + 1) ==> r in RenderEach(cats, kids, key, depth)
    decreases |kids|
  {
    if kids[0] != k {
      EachContains(cats, kids[1..], key, depth, k);
    }
  }

  /** A child of the key is rendered at the entry depth, and so is its whole
      subtree. */
  lemma KidRendered(cats: seq<Category>, key: Option<string>, depth: nat, k: Category)
    requires UniqueIds(cats) && KeyAt(cats, key, depth)
    requires k in cats && k.parent_id == key && KeyAt(cats, Some(k.id), depth + 1)
    ensures Row(k, depth) in Render(cats, key, depth)
    ensures forall r :: r in Render(cats, Some(k.id), depth + 1) ==> r in Render(cats, key, depth)
  {
    EachContains(cats, Children(cats, key), key, depth, k);
  }

  /** Every category `m` links below the key is rendered, at the entry depth
      plus `m - 1`. */
  lemma {:induction false} RenderReaches(cats: seq<Category>, key: Option<string>, depth: nat, x: Category, m: nat)
    requires UniqueIds(cats) && KeyAt(cats, key, depth)
    requires x in cats && m >= 1 && Below(cats, x, key, m)
    ensures Row(x, depth + m - 1) in Render(cats, key, depth)
    decreases m, 1
  {
    if m == 1 {
      KidRooted(cats, key, depth, x);
      KidRendered(cats, key, depth, x);
    } else {
      ReachesThrough(cats, key, depth, x, m);
    }
  }

  /** The step of `RenderReaches` through the child of the key that `x`
      descends from. */
  lemma {:induction false} ReachesThrough(cats: seq<Category>, key: Option<string>, depth: nat, x: Category, m: nat)
    requires UniqueIds(cats) && KeyAt(cats, key, depth)
    requires x in cats && m >= 2 && Below(cats, x, key, m)
    ensures Row(x, depth + m - 1) in Render(cats, key, depth)
    decreases m, 0
  {
    var k := TopDown(cats, x, key, m);
    KidRooted(cats, key, depth, k);
    RenderReaches(cats, Some(k.id), depth + 1, x, m - 1);
    Lift(cats, key, depth, k, Row(x, depth + m - 1));
  }

  /** A row of a child's subtree is a row of the walk at the child's key. */
  lemma Lift(cats: seq<Category>, key: Option<string>, depth: nat, k: Category, r: Row)
    requires UniqueIds(cats) && KeyAt(cats, key, depth)
    requires k in cats && k.parent_id == key && KeyAt(cats, Some(k.id), depth + 1)
    requires r in Render(cats, Some(k.id), depth + 1)
    ensures r in Render(cats, key, depth)
  {
    KidRendered(cats, key, depth, k);
  }

  /** With unique ids the whole-forest walk emits exactly the categories whose
      parent chain reaches the top level, each at the length of that chain. */
  lemma RenderTreeExact(cats: seq<Category>, c: Category, d: nat)
    requires UniqueIds(cats)
    ensures Row(c, d) in RenderTree(cats) <==> c in cats && RootedAt(cats, c, d)
  {
    RenderTreeSound(cats);
    if c in cats && RootedAt(cats, c, d) {
      RenderReaches(cats, None, 0, c, d + 1);
    }
  }

  /** A set of categories whose parent lookups never leave the set and never
      reach the top level: the members of a parent cycle, the categories under
      a missing parent, and everything below either. */
  ghost predicate Unrooted(cats: seq<Category>, s: set<Category>) {
    forall x :: x in s ==> x.parent_id.Some? && forall p :: p in cats && p.id == x.parent_id.value ==> p in s
  }

  lemma {:induction false} UnrootedNeverRooted(cats: seq<Category>, s: set<Category>, x: Category, m: nat)
    requires Unrooted(cats, s) && x in s
    ensures !Below(cats, x, None, m)
    decreases m
  {
    if m >= 2 {
      forall p | p in cats && p.id == x.parent_id.value
        ensures !Below(cats, p, None, m - 1)
      {
        UnrootedNeverRooted(cats, s, p, m - 1);
      }
    }
  }

  /** Unrooted categories never appear in the rendering. */
  lemma NeverRendered(cats: seq<Category>, s: set<Category>, x: Category)
    requires UniqueIds(cats) && Unrooted(cats, s) && x in s
    ensures forall r :: r in RenderTree(cats) ==> r.category != x
  {
    RenderTreeSound(cats);
    forall r | r in RenderTree(cats)
      ensures r.category != x
    {
      UnrootedNeverRooted(cats, s, x, r.depth + 1);
    }
  }

  /** A category that names itself as parent is never rendered. */
  lemma SelfParentNeverRendered(cats: seq<Category>, c: Category)
    requires UniqueIds(cats) && c in cats && c.parent_id == Some(c.id)
    ensures forall r :: r in RenderTree(cats) ==> r.category != c
  {
    forall p | p in cats && p.id == c.id
      ensures p == c
    {
      SameIdSame(cats, p, c);
    }
    NeverRendered(cats, {c}, c);
  }

  /** Two categories that name each other as parent are never rendered. */
  lemma TwoCycleNeverRendered(cats: seq<Category>, a: Category, b: Category)
    requires UniqueIds(cats) && a in cats && b in cats
    requires a.parent_id == Some(b.id) && b.parent_id == Some(a.id)
    ensures forall r :: r in RenderTree(cats) ==> r.category != a && r.category != b
  {
    forall p | p in cats && (p.id == a.id || p.id == b.id)
      ensures p == a || p == b
    {
      if p.id == a.id { SameIdSame(cats, p, a); } else { SameIdSame(cats, p, b); }
    }
    NeverRendered(cats, {a, b}, a);
    NeverRendered(cats, {a, b}, b);
  }

  /** A category whose parent id names no category is never rendered. */
  lemma OrphanNeverRendered(cats: seq<Category>, c: Category)
    requires UniqueIds(cats) && c.parent_id.Some?
    requires forall p :: p in cats ==> p.id != c.parent_id.value
    ensures forall r :: r in RenderTree(cats) ==> r.category != c
  {
    NeverRendered(cats, {c}, c);
  }

  /** Without unique ids the walk can re-enter a key it is already rendering:
      here the child met under key "a" has id "a" again, so the source's walk
      would descend forever. */
  lemma DuplicateIdsReenter()
    ensures var cats := [Category("a", "Tools", None), Category("a", "Hammers", Some("a"))];
      && !UniqueIds(cats)
      && cats[0] in Children(cats, None)
      && cats[1] in Children(cats, Some(cats[0].id))
      && cats[1] in Children(cats, Some(cats[1].id))
  {
    var cats := [Category("a", "Tools", None), Category("a", "Hammers", Some("a"))];
    assert cats[0] in cats && cats[1] in cats;
    assert !(cats[0].id == cats[1].id ==> 0 == 1);
  }

  /** The distinct parent references occurring in the list. */
  function ParentKeys(cats: seq<Category>): (keys: seq<Option<string>>)
    ensures Seqs.Distinct(keys)
    ensures forall c :: c in cats ==> c.parent_id in keys
  {
    if cats == [] then []
    else
      var rest := ParentKeys(cats[1..]);
      assert forall c :: c in cats <==> c == cats[0] || c in cats[1..];
      if cats[0].parent_id in rest then rest
      else
        var keys := [cats[0].parent_id] + rest;
        assert forall i :: 1 <= i < |keys| ==> keys[i] == rest[i - 1];
        keys
  }

  /** Every collected key is the parent reference of some category of the list. */
  lemma {:induction false} ParentKeysOccur(cats: seq<Category>, k: Option<string>)
    requires k in ParentKeys(cats)
    ensures exists c :: c in cats && c.parent_id == k
  {
    if k == cats[0].parent_id {
      assert cats[0] in cats;
    } else {
      ParentKeysOccur(cats[1..], k);
      var c :| c in cats[1..] && c.parent_id == k;
      assert c in cats;
    }
  }

  /** The child lists of `keys`, one after another. */
  function Grouped(cats: seq<Category>, keys: seq<Option<string>>): seq<Category> {
    if keys == [] then [] else Children(cats, keys[0]) + Grouped(cats, keys[1..])
  }

  lemma {:induction false} GroupedCount(cats: seq<Category>, keys: seq<Option<string>>, c: Category)
    requires Seqs.Distinct(keys)
    ensures multiset(Grouped(cats, keys))[c] == if c.parent_id in keys then multiset(cats)[c] else 0
    decreases |keys|
  {
    if keys != [] {
      Seqs.DistinctTail(keys);
      GroupedCount(cats, keys[1..], c);
      ChildrenOrder(cats, keys[0], c);
      assert keys == [keys[0]] + keys[1..];
    }
  }

  /** Over all distinct parent keys the child lists partition the category
      list: every occurrence of a category lands in exactly one of them. */
  lemma ChildListsPartition(cats: seq<Category>)
    ensures multiset(Grouped(cats, ParentKeys(cats))) == multiset(cats)
  {
    var keys := ParentKeys(cats);
    forall c
      ensures multiset(Grouped(cats, keys))[c] == multiset(cats)[c]
    {
      GroupedCount(cats, keys, c);
    }
  }
}
