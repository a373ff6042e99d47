# Stock-Take: a Dafny model of the client's decision logic

Stock-Take is a small inventory client. Staff keep a list of stock items
grouped in a forest of categories and record periodic stock counts
("stocktakes"). The pages show low and over-stock badges. The data lives in
a hosted backend. This project models the client's own logic as pure Dafny
functions over immutable datatypes:

- the client store (`Store`): each action is a transition from a state and
  the backend's replies to the state after the action settles, the message
  it throws (if any) and the remote calls it made, in order;
- the add-item dialog (`AddItemModal`): form, change handler with numeric
  coercion, validator, payload, submit;
- the add-category dialog (`AddCategoryModal`): trim check, parent select,
  submit;
- the category forest (`CategoryTree`): child lists, and the recursive
  pre-order walk with a depth counter shared by the Categories table and the
  category picker (`CategoryDropdown`);
- the Categories page (`CategoriesPage`): parent-name column, inline rename,
  confirmed delete;
- the Items, Reports, Stocktake and Dashboard pages: list filters, the
  Low/Over/Normal stock status (`Stock`), the dashboard counters, and the
  stocktake count handler;
- the authentication guard (`AuthProvider`): current user, redirect and
  loading flag;
- the JavaScript string built-ins these call (`Text`): `trim`,
  `toLowerCase`, `includes` and `parseInt(v) || 0` on decimal text.

Every remote call is a parameter: the reply the backend gave,
`Ok(data)` or `Err(message)`. Dates are whole day stamps; "today" and "now"
are parameters.

Where the category walk is concerned, the key result is this: with unique
ids, the walk from the top level emits exactly the categories whose parent
chain reaches the top level. Each is emitted once, at the depth equal to
its chain length, so every depth is below the number of categories and the
walk terminates. Categories on a parent cycle or below a missing parent are
never emitted.

The store stores rows in two shapes, as the code does:

- `fetchItems` keeps the rows as selected, with storage (snake_case) column
  names;
- `addItem` appends a row renamed to the in-memory (camelCase) names the
  pages read.

`StoredItem = Raw(row) | Mapped(item)` keeps that distinction; see
"Findings". The pages' own functions take the camelCase `Item` they were
written for. The type declarations in `src/types/index.ts` give the item
snake_case names, while the pages and the add action use camelCase. The
model follows the code, not the declarations. The code maps field names
only on add (src/store/index.ts:98-115).

## Model

| member | source | states |
|---|---|---|
| Types.RenamingRoundTrip | src/store/index.ts:101-113 | The renaming from storage names to in-memory names and its inverse are inverse bijections: no field is lost or swapped. |
| Text.Trim | src/components/AddCategoryModal.tsx:21 | The trimmed name occurs contiguously in the input, everything cut off before and after it is white space, and it neither starts nor ends with white space. |
| Text.TrimEmptyIff | src/components/AddCategoryModal.tsx:21 | A name trims to nothing exactly when every character is white space. |
| Text.TrimIdempotent | src/components/AddCategoryModal.tsx:28 | Trimming an already trimmed name changes nothing. |
| Text.LowerIdempotent | src/pages/Items.tsx:31-32 | Lower-casing twice is lower-casing once. |
| Text.Contains | src/pages/Items.tsx:31-32 | `includes` holds exactly when the needle occurs at some position of the haystack. |
| Text.ContainsEmpty | src/pages/Items.tsx:30-32 | The empty query occurs in every text. |
| Text.ParseRoundTrip | src/components/AddItemModal.tsx:80 | Parsing the decimal rendering of any integer, negative ones included, gives the integer back. |
| Text.ParseUnsigned | src/pages/Stocktake.tsx:28 | A non-empty string of digits parses to its decimal value. |
| Text.ParseNegative | src/pages/Stocktake.tsx:28 | A minus sign followed by digits parses to the negated value. |
| Text.ParseNoDigits | src/components/AddItemModal.tsx:80 | Text with no digit parses to 0, the fallback for a failed parse. |
| Catalog.InCategory | src/pages/Reports.tsx:15 | The category filter keeps exactly the items whose category id is the given one, and keeps every item when all match. |
| Catalog.InCategoryOrder | src/pages/Reports.tsx:14-16 | The category filter keeps the list's order. |
| Catalog.Find | src/pages/Categories.tsx:48 | `find` returns the first category with the id, and nothing exactly when no category has it. |
| Catalog.FindIsFirst | src/pages/Categories.tsx:48 | `find` returns the category at the first position whose id matches. |
| Catalog.FindUnique | src/pages/Items.tsx:44 | With unique ids, looking up a category's own id finds that category. |
| Store.RawItems | src/store/index.ts:53 | A successful select stores one raw row per returned row, in order, and nothing for a null reply. |
| Store.FetchItems | src/store/index.ts:44-59 | Success replaces the item list with the rows and clears the error; failure keeps the list and records the message. Nothing is thrown, loading ends, and no other field changes. |
| Store.FetchResynchronises | src/store/index.ts:44-59 | After a successful fetch the item list depends only on the reply, not on the previous cache, and repeating the fetch changes nothing. |
| Store.FetchCategories | src/store/index.ts:61-78 | The same protocol over the category list: the rows (or none) on success, the list kept and the message recorded on failure, never thrown. |
| Store.AddItem | src/store/index.ts:82-122 | The insert carries the draft stamped with today. On success exactly one element is appended, the renamed returned row, with the old list as an unchanged prefix. On failure the list is unchanged and the message is both recorded and thrown. |
| Store.MutateThenFetchItems | src/store/index.ts:124-140 | The re-fetch runs only after a successful mutation, and its failure is recorded but not thrown. A failed mutation throws, records its message and touches nothing but the loading and error fields. |
| Store.UpdateItem | src/store/index.ts:124-140 | Sends the item as the update, then behaves as the mutate-then-re-fetch protocol; a failed update makes that one call and no re-fetch. |
| Store.DeleteItem | src/store/index.ts:142-158 | Deletes by id, then behaves as the mutate-then-re-fetch protocol; a failed delete makes that one call and no re-fetch. |
| Store.MutateThenFetchCategories | src/store/index.ts:195-214 | The mutate-then-re-fetch protocol over the category list. |
| Store.AddCategory | src/store/index.ts:162-193 | A backend error becomes "Failed to add category" and an empty reply becomes "No data returned from insert"; both are recorded and thrown with the list untouched. Only a returned row leads to the re-fetch. |
| Store.UpdateCategory | src/store/index.ts:195-214 | A failure makes only the update call (id, new name, parent), keeps the category list and throws. A success makes the update and then one select, and ends in the state of the re-fetch. |
| Store.DeleteCategory | src/store/index.ts:216-232 | A failure makes only the delete call, keeps the category list and throws. A success makes the delete and then one select, and ends in the state of the re-fetch. |
| Store.UserId | src/store/index.ts:241 | The id stamped on an entry is the current user's id, and absent exactly when nobody is signed in. |
| Store.AddEntry | src/store/index.ts:234-254 | The insert carries the current user's id. Success appends exactly the returned entry; failure keeps the log, records and throws. Only entries, loading and error may change. |
| Store.SetItems | src/store/index.ts:80 | Sets the item list and changes no other field. |
| Store.SetCategories | src/store/index.ts:160 | Sets the category list and changes no other field. |
| Store.SetCurrentUser | src/store/index.ts:256 | Sets the current user and changes no other field. |
| Store.SetSelectedCategory | src/store/index.ts:257 | Sets the selected category and changes no other field. |
| Store.SetIsAddItemModalOpen | src/store/index.ts:258 | Sets the add-item dialog flag and changes no other field. |
| Store.SetIsAddCategoryModalOpen | src/store/index.ts:259 | Sets the add-category dialog flag and changes no other field. |
| Store.SetError | src/store/index.ts:260 | Sets the error and changes no other field. |
| Store.RunOnItems | src/store/index.ts:44-158 | Every item action ends with loading down, records any message it throws, makes one or two remote calls, and changes only the item list, loading and error. |
| Store.RunOnCategories | src/store/index.ts:61-232 | The same for every category action, with the category list in place of the item list. |
| Store.Run | src/store/index.ts:44-254 | Whatever the replies, every asynchronous action ends with loading down, a thrown message is also the recorded error, the entry log only grows, and the user, the category filter and the dialog flags are untouched. |
| Store.FetchItemsMapped | src/store/index.ts:44-59 | Corrected fetch: on success every cached item is the renamed row at the same position; otherwise as the fetch. |
| Stock.ItemsBadges | src/pages/Items.tsx:127-136 | The Low badge shows exactly when quantity < minimum and the Over badge exactly when quantity > maximum, each on its own; there is never a Normal badge. |
| Stock.ReportBadges | src/pages/Reports.tsx:123-137 | Low and Over as on the Items page, and Normal exactly when the quantity lies within both thresholds. |
| Stock.ReportsExtendItems | src/pages/Reports.tsx:123-137 | Reports shows the Items badges followed by Normal, and Normal shows exactly when neither Low nor Over does. |
| Stock.ExactlyOneWhenOrdered | src/pages/Reports.tsx:123-137 | With minimum <= maximum exactly one of Low, Over, Normal is shown. |
| Stock.InvertedThresholds | src/pages/Reports.tsx:123-133 | With maximum < minimum Normal never shows, and a quantity between the two shows both Low and Over. |
| Stock.ThresholdScenario | src/pages/Reports.tsx:123-137 | With thresholds 10 and 50, quantities 5, 60 and 20 show Low, Over and Normal. |
| DashboardPage.ComputeStats | src/pages/Dashboard.tsx:8-18 | The total is the number of items; low, over and needs-stocktake count the items meeting each condition, and each is at most the total. |
| DashboardPage.AlertsBounded | src/pages/Dashboard.tsx:10-11 | When every item has ordered thresholds, low plus over never exceeds the total. |
| DashboardPage.StaleBoundary | src/pages/Dashboard.tsx:12-17 | At whole-day resolution, an item counted exactly 30 days ago does not need a stocktake; one counted 31 days ago does. |
| ReportsPage.ReportItems | src/pages/Reports.tsx:14-16 | Without a filter the report lists every item; with one, exactly the items of that category. |
| ReportsPage.ReportOrder | src/pages/Reports.tsx:14-16 | The report keeps the item list's order. |
| ReportsPage.ReportTable | src/pages/Reports.tsx:123-137 | One row per reported item in order. Each row shows exactly its own item's status: Low iff quantity < minimum, Over iff quantity > maximum, Normal iff within both. A row with ordered thresholds carries exactly one badge. |
| ReportsPage.ReportTableCovers | src/pages/Reports.tsx:14-16 | An item has a row with its own badges exactly when the report lists it; with a filter, exactly when it belongs to the selected category. |
| ItemsPage.FilteredItems | src/pages/Items.tsx:28-34 | Keeps exactly the items in the selected category (if any) that match the query; with no filter and no query the list is unchanged. |
| ItemsPage.FilteredOrder | src/pages/Items.tsx:28-34 | The filtered list keeps the item list's order. |
| ItemsPage.SearchIsSubstring | src/pages/Items.tsx:30-32 | The empty-query shortcut changes nothing: the search keeps an item exactly when the lower-cased query occurs in its lower-cased name or notes. |
| ItemsPage.SearchIgnoresCase | src/pages/Items.tsx:30-32 | Lower-casing the query first yields the same list. |
| ItemsPage.CategoryName | src/pages/Items.tsx:43-45 | The name of the first category with that id, or "Uncategorized" when none exists or its name is empty; with unique ids, that category's own name. |
| ItemsPage.Delete | src/pages/Items.tsx:36-41 | Nothing happens unless confirmed. A failed delete throws before the page's re-fetch; a successful one issues delete, then two selects. |
| ItemsPage.DeleteShowsLastFetch | src/pages/Items.tsx:36-41 | After a successful delete and page re-fetch, the list is that re-fetch's rows with no error, whatever the store's own re-fetch returned. |
| StocktakePage.StocktakeItems | src/pages/Stocktake.tsx:23-25 | Empty until a category is chosen, then exactly that category's items. |
| StocktakePage.NoteFor | src/pages/Stocktake.tsx:36 | An item's note, or "" when it has none. |
| StocktakePage.HandleNotesChange | src/pages/Stocktake.tsx:58-60 | That item's note becomes the value and every other note is unchanged. |
| StocktakePage.Counted | src/pages/Stocktake.tsx:40-44 | The item sent differs from the current item only in quantity and stocktake day. |
| StocktakePage.HandleCountChange | src/pages/Stocktake.tsx:27-56 | The entry with the parsed count and the item's note is recorded first; the update follows only if that succeeded; the saved flag ends true exactly when both calls succeed; other flags are unchanged. |
| StocktakePage.UpdateCounted | src/pages/Stocktake.tsx:39-47 | After the entry, the counted item is sent and the flag is set only on a successful update; the entry log is kept. |
| StocktakePage.CountTwelve | src/pages/Stocktake.tsx:27-47 | A change event with value "12", both calls succeeding, records an entry of 12 and sends the item with quantity 12 and today's day. |
| StocktakePage.TwoEventsRecordBoth | src/pages/Stocktake.tsx:27-97 | The input fires once per keystroke. Two successive successful events on one item record both counts as entries, in order, and send the item once per event with that event's count. |
| AddItemModal.Coerce | src/components/AddItemModal.tsx:78-81 | A numeric-named input stores the parsed integer (0 on failure); any other input stores the raw text. |
| AddItemModal.NumericNamesExact | src/components/AddItemModal.tsx:79-80 | On the dialog's own inputs the name test picks out exactly the five number inputs. |
| AddItemModal.HandleChange | src/components/AddItemModal.tsx:74-83 | Each input sets only its own field: text fields to the text, number fields to the parsed value. |
| AddItemModal.SelectCategory | src/components/AddItemModal.tsx:114 | The picker sets the category and nothing else. |
| AddItemModal.Validate | src/components/AddItemModal.tsx:27-38 | An error key is set exactly for each failed rule (empty name, category or unit; negative minimum; maximum not above minimum), with that rule's message. |
| AddItemModal.ValidIff | src/components/AddItemModal.tsx:27-38 | The form passes exactly when no error key is set, that is, when all five rules hold. |
| AddItemModal.EmptyFormRejected | src/components/AddItemModal.tsx:14-38 | The freshly opened form fails on name, category, unit and maximum, and not on the minimum. |
| AddItemModal.Payload | src/components/AddItemModal.tsx:44-54 | Each form field goes under its storage name with its value unchanged. |
| AddItemModal.PayloadRoundTrip | src/components/AddItemModal.tsx:44-54 | The payload is injective, and the stored row, renamed back, carries every form value. |
| AddItemModal.Submit | src/components/AddItemModal.tsx:40-72 | An invalid form shows the validator's errors with no remote call. A valid form is sent once; success closes, resets and appends the item; failure keeps the form with only the form-level message. |
| AddItemModal.SubmitStoresForm | src/components/AddItemModal.tsx:40-66 | When the table stores the payload as sent, the appended item holds exactly the typed values plus the assigned id and day. |
| AddCategoryModal.SelectValue | src/components/AddCategoryModal.tsx:77 | The select shows "" for the top level and the parent id otherwise. |
| AddCategoryModal.ParentFromSelect | src/components/AddCategoryModal.tsx:78 | The empty option is the top level; any other value is that parent id. |
| AddCategoryModal.SelectRoundTrip | src/components/AddCategoryModal.tsx:77-78 | Choosing an option and reading the select back agree both ways, and no parent is ever the empty id. |
| AddCategoryModal.Submit | src/components/AddCategoryModal.tsx:19-38 | A blank name after trimming shows "Category name is required" with no call; otherwise the trimmed name is submitted. |
| AddCategoryModal.SubmitName | src/components/AddCategoryModal.tsx:26-37 | The insert carries the name and unchanged parent. A returned row re-fetches twice, closes and resets; an error shows the thrown message and keeps the form and the list. |
| AddCategoryModal.SubmitSendsTrimmed | src/components/AddCategoryModal.tsx:21-34 | The name sent is never blank and already trimmed, and after closing the list is the dialog's own re-fetch. |
| CategoryTree.Children | src/pages/Categories.tsx:22-24 | The child list holds exactly the categories whose parent reference is the key. |
| CategoryTree.ChildrenOrder | src/pages/Categories.tsx:22-24 | The child list keeps the list's order and each child's multiplicity. |
| CategoryTree.ChildrenDistinct | src/pages/Categories.tsx:22-24 | With unique ids no child is listed twice. |
| CategoryTree.ChildListsPartition | src/pages/Categories.tsx:22-24 | Over all distinct parent keys, the child lists together are a permutation of the category list. |
| CategoryTree.RootedDepthUnique | src/pages/Categories.tsx:26-29 | With unique ids a category sits at one forest depth at most. |
| CategoryTree.DepthBound | src/pages/Categories.tsx:90 | A category's forest depth is below the number of categories, so the depth counter is bounded. |
| CategoryTree.RenderSound | src/pages/Categories.tsx:26-90 | Every row of the walk is a category at its own forest depth, below the entry key by its depth, and none is rendered twice. |
| CategoryTree.SubtreeFollows | src/pages/Categories.tsx:29-90 | Pre-order: each child's row is immediately followed by its whole subtree, rendered one level deeper. |
| CategoryTree.RenderReaches | src/pages/Categories.tsx:26-90 | Every category m links below the key is rendered, at the entry depth plus m − 1. |
| CategoryTree.RenderShape | src/pages/Categories.tsx:26-29 | The walk renders nothing exactly when the key has no children, and otherwise starts with the first child's row. |
| CategoryTree.SiblingOrder | src/pages/Categories.tsx:29-90 | Siblings are rendered in list order: a child earlier in the child list has its row earlier in the walk. |
| CategoryTree.RenderTree | src/pages/Categories.tsx:127 | The table body is empty exactly when no category sits at the top level. |
| CategoryTree.RenderTreeSound | src/pages/Categories.tsx:127 | From the top level every row's category is rooted at its depth, that depth is below the number of categories, and there are no repeats. |
| CategoryTree.RenderTreeExact | src/pages/Categories.tsx:26-127 | A row (c, d) is rendered exactly when c is in the list and its parent chain reaches the top level after d links. |
| CategoryTree.NeverRendered | src/pages/Categories.tsx:26-29 | Categories whose parent lookups never reach the top level are never rendered. |
| CategoryTree.SelfParentNeverRendered | src/pages/Categories.tsx:26-29 | A category that is its own parent is never rendered. |
| CategoryTree.TwoCycleNeverRendered | src/pages/Categories.tsx:26-29 | Two categories that are each other's parent are never rendered. |
| CategoryTree.OrphanNeverRendered | src/pages/Categories.tsx:26-29 | A category whose parent id names no category is never rendered. |
| CategoryTree.DuplicateIdsReenter | src/pages/Categories.tsx:22-29 | Without unique ids the walk can meet the key it is rendering again, so uniqueness is needed for termination. |
| CategoryTree.ParentKeysOccur | src/pages/Categories.tsx:22-24 | Every collected parent key is the parent reference of some category. |
| CategoryDropdown.MenuIsRender | src/components/CategoryDropdown.tsx:29-52 | The picker's walk is the table's walk line for line, except that an empty top level shows only the placeholder. |
| CategoryDropdown.MenuEachIsRenderEach | src/components/CategoryDropdown.tsx:40-51 | A child button is followed by its subtree one level deeper, exactly as the table orders the rows. |
| CategoryDropdown.MenuTreeExact | src/components/CategoryDropdown.tsx:29-67 | The placeholder appears exactly when there is no top-level category, and then alone. Otherwise there is a button for exactly the rooted categories, each at its depth. |
| CategoryDropdown.MenuTree | src/components/CategoryDropdown.tsx:29-67 | The open menu is never empty, and shows the placeholder exactly when no category sits at the top level. |
| CategoryDropdown.Toggle | src/components/CategoryDropdown.tsx:58 | The header button flips the menu and keeps the choice. |
| CategoryDropdown.ToggleTwice | src/components/CategoryDropdown.tsx:58 | Toggling twice restores the picker. |
| CategoryDropdown.Shown | src/components/CategoryDropdown.tsx:65-69 | The menu is shown only while open. |
| CategoryDropdown.Select | src/components/CategoryDropdown.tsx:23-27 | Choosing remembers the category, reports its id and closes the menu. |
| CategoryDropdown.Label | src/components/CategoryDropdown.tsx:61 | The label is the chosen name, or "Select Category" when nothing is chosen or the name is empty. |
| CategoryDropdown.SelectThenLabel | src/components/CategoryDropdown.tsx:23-61 | After choosing a named category the label is its name and the menu is closed. |
| CategoriesPage.ParentName | src/pages/Categories.tsx:48 | The parent column is "-" for a top-level category or a missing parent, and otherwise the name of the first category with the parent id ("-" when that name is empty). |
| CategoriesPage.ParentNameOfParent | src/pages/Categories.tsx:48 | With unique ids the column shows the parent's own name, or "-" when that name is empty. |
| CategoriesPage.StartEdit | src/pages/Categories.tsx:72-75 | The pencil puts that row in edit mode, starting from its current name. |
| CategoriesPage.EditName | src/pages/Categories.tsx:39 | Typing changes only the edited text. |
| CategoriesPage.Cancel | src/pages/Categories.tsx:63 | After cancel no row is in edit mode. |
| CategoriesPage.Renamed | src/pages/Categories.tsx:55 | The saved category keeps its id and parent and takes the new name. |
| CategoriesPage.Save | src/pages/Categories.tsx:54-57 | Save sends the renamed category through the store; the row leaves edit mode only when the update does not throw. |
| CategoriesPage.RenameSends | src/pages/Categories.tsx:35-75 | Start, type v, save successfully: the store receives one update naming the category v, then a re-fetch, and no row is in edit mode. |
| CategoriesPage.Delete | src/pages/Categories.tsx:15-20 | Nothing happens unless confirmed. A failed delete throws before the page's re-fetch; a successful one re-fetches twice. |
| CategoriesPage.DeleteShowsLastFetch | src/pages/Categories.tsx:15-20 | After a successful delete and page re-fetch, the list is that re-fetch's categories with no error and loading over, whatever the store's own re-fetch returned, and no other field changes. |
| CategoriesPage.BeveragesSoda | src/pages/Categories.tsx:26-48 | Beverages with child Soda renders Beverages at depth 0 then Soda at depth 1, and Soda's parent column reads "Beverages". |
| AuthProvider.UserOf | src/components/AuthProvider.tsx:18-23 | The user made from a session has its id, the email (or "") as name, and the ordinary role. |
| AuthProvider.Target | src/components/AuthProvider.tsx:24-29 | Signed in on the login page goes home; signed out elsewhere goes to the login page; nothing otherwise. |
| AuthProvider.TargetSettles | src/components/AuthProvider.tsx:24-29 | Following a redirect lands where no further redirect is asked. |
| AuthProvider.InitialSession | src/components/AuthProvider.tsx:17-31 | The first check sets the user from a session, leaves the store as it was without one, redirects as the guard decides, and always ends loading. |
| AuthProvider.AuthChange | src/components/AuthProvider.tsx:35-51 | A change event sets the user from a session or clears it, redirects as the guard decides, and leaves loading alone. |
| AuthProvider.GuardFacts | src/components/AuthProvider.tsx:14-64 | Neither path makes an administrator. Content is hidden while loading and shown after the first check. Without a session the first check keeps the user while a change event clears it. |
| Findings.MappedSeenAsItem | src/store/index.ts:98-115 | On a renamed item the pages' conditions read as intended: low, over, category and staleness. |
| Findings.FetchedItemsReadUnset | src/store/index.ts:53 | As written: after a successful fetch no cached item is low, over, in any category, or in need of a stocktake, whatever the rows hold. |
| Findings.FetchedLowStockHidden | src/store/index.ts:53 | One low, overdue row of category "c" is, once fetched, neither low nor in "c" nor overdue as the pages read it. |
| Findings.MappedFetchReadsRows | src/store/index.ts:53 | With the corrected fetch each cached item reads exactly the badges, category and staleness of its row. |

## Left out

- The backend client and every network call: each reply is a parameter.
  The server's ordering by name and its assigned ids and timestamps are
  not visible.
- Interleaving of concurrent requests: each action is atomic. The
  intermediate "loading" state inside an action is only visible through
  `Begin`.
- React rendering, JSX, CSS, indentation by depth and the dialog
  components: the walks return (category, depth) rows instead of elements.
- `window.confirm` is a `confirmed` parameter. The two-second saved-flag
  reset (`setTimeout`), console logging and the auth subscription's
  unsubscribe are not modelled.
- `Date`, ISO strings and the Reports date range: dates are whole day
  stamps, and "30 days ago" is `today - 30`.
- Store.AddItem and StocktakePage.Counted stamp a day, not an ISO timestamp.
- Text.ParseOr0: uses exact integers. JavaScript numbers are doubles, so a
  digit string above 2^53 is rounded, and a very long one becomes Infinity,
  which `|| 0` keeps. AddItemModal.Coerce, StocktakePage.Counted and
  AddItemModal.Validate inherit the exact integers. Only decimal digits are
  read: no `0x` prefix (JavaScript reads `parseInt("0x1A")` as 26). The
  callers are number inputs, which do not produce such text.
- StocktakePage.HandleCountChange: one call models one change event; the
  per-keystroke sequence is stated by TwoEventsRecordBoth for two events.
- Text.Lower: folds only ASCII letters; Unicode case mapping is not modelled.
- AddItemModal.HandleChange: an input name other than the eight inputs
  leaves the form unchanged; JavaScript would set or add that key.
- Store.UpdateItem: sends the `Item` given; for a row stored raw the page
  would spread snake_case fields, which the model's typed call does not
  represent.
- src/App.tsx and src/components/Layout.tsx (routes, navigation chrome,
  sign-out) are not part of this model.
- src/components/import React, { useState } from 'react';.tsx and
  src/components/import create from 'zustand';.ts are not part of this
  model.
- The unimplemented `generateReport` and Items edit button do nothing and
  are not modelled.
- CategoryTree.Render and CategoryDropdown.Menu require unique ids. Without
  them the walk need not terminate (see DuplicateIdsReenter), so that case
  has no rendering.

## Findings

| source | as written | input that shows it | evidently intended | confidence | as-written member | corrected member |
|---|---|---|---|---|---|---|
| src/store/index.ts:53 | `fetchItems` stores the selected rows with their storage names (`category_id`, `min_threshold`, ...), while every page reads `categoryId`, `minThreshold`, `maxThreshold`, `lastStocktakeDate`, which are then undefined | one row `{id "i1", name "Milk", category_id "c", quantity 5, min_threshold 10, max_threshold 50, last_stocktake_date day 0}` fetched and viewed on day 100: no Low badge, not listed under category "c", not counted as needing a stocktake | rename each fetched row as `addItem` does (lines 98-115) | not executed | Findings.FetchedLowStockHidden | Findings.MappedFetchReadsRows |
