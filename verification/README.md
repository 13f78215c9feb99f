# Stock and delivery-order data layer of a Vue inventory page

This project models, in Dafny, the data layer inside the `setup()` closure of
`apps.js`: a single-page app for teaching-material stock and delivery orders
("DO"). The model covers the following parts:

- the stock list `stockData` and its filtered view `displayedStocks`, which
  applies a region (`upbjj`), category (`kategori`) and special-condition filter
  conjunctively and keeps list order;
- the status text `statusText` ("Habis", "Hampir Habis", "Aman");
- the stock form (`openCreateStock`, `openEditStock`, `closeStockForm`,
  `saveStock`), which upserts by raw position, and the two-step delete
  (`confirmDeleteStock`, `deleteStockConfirmed`);
- the order list `doList`, the case-insensitive search `filteredDOs`, the create
  form (`openCreateDO`, `closeDOForm`, `saveDO`), the detail dialog
  (`openDODetail`) with its guarded progress append (`addProgressForm`), and
  `deleteDO`.

Vue's reactive state is modelled as immutable page records: `StockPage` and
`DeliveryPage`. Each handler is a pure function from page to page. A computed
value is a function of the page. A JavaScript `null`/`undefined` is
`JsCore.Nullable`. Where a statement leaves the states a `seq` can represent,
the handler returns `JsCore.Result.Err`. That happens when an out-of-range read
yields `undefined`, when an assignment lands outside the elements, or when
`toISOString` throws. Record positions are raw indices into `stockData` and
`doList`, exactly as the code uses them.

Module layout:

- `JsCore`: `Nullable`, `Fault` and `Result`.
- `JsArray`: `splice(i, 1)` and `a[i] = x`.
- `JsString`: ASCII `toLowerCase`, `trim` and `includes`.
- `Filtering`: `Array.prototype.filter` and the positions of the kept elements.
- `Stock`: stock records, the filtered view and the status text.
- `StockEditor`: the stock form and the delete dialog.
- `Delivery`: order records and the search view.
- `DeliveryEditor`: the order form, the detail dialog and `deleteDO`.

Facts about apps.js that shape the model:

- The "zero" filter and the "Habis" status both test `qty <= 0`
  (apps.js:94, 101), so a negative quantity counts as out of stock.
- Edits and deletes address records by raw position in `stockData` and
  `doList` (apps.js:130-134, 154-164, 273-275). Nothing looks a record up by
  `kode` or translates a position in the filtered view into a store position,
  and nothing reports "not found". `StockEditor.ViewIndexSafeIffNothingHiddenBefore`
  and `StockEditor.RawViewIndexDeletesWrongRecord` show what happens when a
  view position is passed.
- `saveStock` validates no field (apps.js:140-147), and `saveDO` checks
  neither `nim`, `nama` nor `ekspedisi` (apps.js:229-236).
- `displayedStocks` keeps the store order; nothing sorts it (apps.js:87-97).
- The order number is `"DO-" + Date.now()` (apps.js:209-211). The model takes
  it as the parameter `nomor`.
- `saveDO` converts the ship date with `new Date(raw).toISOString()`
  (apps.js:232). An empty date gives an invalid date, `toISOString` throws,
  and nothing is appended (`DeliveryEditor.BlankDraftIsRefused`).
- `stockData` and `doList` start empty (apps.js:71, 187), and no handler in
  the file loads or stores them.

## Model

| member | source | states |
|---|---|---|
| JsString.Trim | apps.js:255 | `trim()` yields the empty string exactly when every character is ECMAScript whitespace or a line terminator |
| JsString.IncludesIsContains | apps.js:194-196 | the left-to-right `includes` scan succeeds exactly when the needle occurs at some position of the haystack; the empty needle occurs everywhere |
| JsString.ToLowerIdempotent | apps.js:192 | lower-casing leaves no upper-case ASCII letter, so lower-casing twice is lower-casing once |
| JsArray.SpliceOneAt | apps.js:161 | `splice(i, 1)` at an element position removes exactly that element (one occurrence fewer) and keeps the others in order; a negative `i` down to `-length` removes position `length + i` the same way; at or past the end it removes nothing |
| JsArray.AssignAt | apps.js:144 | `a[i] = x` succeeds exactly for `0 <= i <= length`; then position `i` holds `x`, every other element is unchanged, and the length grows by one only when `i == length` |
| Filtering.Filter | apps.js:88-97 | the filtered array is no longer than the input and every element it keeps satisfies the callback |
| Filtering.FilterMembership | apps.js:88-97 | an element is kept exactly when it is in the input and the callback accepts it |
| Filtering.FilterKeepsAll | apps.js:88-97 | a callback accepting every element keeps the whole array unchanged |
| Filtering.FilterKeepsNone | apps.js:88-97 | a callback rejecting every element keeps nothing |
| Filtering.PositionsPick | apps.js:88-97 | the `j`-th kept element is the input element at the `j`-th recorded position |
| Filtering.PositionsIncrease | apps.js:88-97 | recorded positions strictly increase, so the filtered array keeps input order |
| Filtering.PositionsComplete | apps.js:88-97 | every accepted input position is recorded, so nothing accepted is dropped |
| Filtering.PositionsNotBefore | apps.js:88-97 | the `j`-th kept element comes from position `j` or later |
| Filtering.PositionIsIndexIffPrefixKept | apps.js:88-97 | view position `j` equals its input position exactly when no element up to it is filtered out |
| Stock.Displayed | apps.js:87-98 | every record of `displayedStocks` passes the region, category and special filters together |
| Stock.DisplayedMembership | apps.js:87-98 | a record is displayed exactly when it is in `stockData` and passes all active filters |
| Stock.StoreIndex | apps.js:87-98 | each view position has a `stockData` position at or after it holding the same record |
| Stock.DisplayedIsOrderedSubsequence | apps.js:87-98 | the view is an order-preserving subsequence of `stockData` that omits no passing record |
| Stock.ResetFilters | apps.js:81-85 | the reset filters restrict nothing: every record passes them |
| Stock.DisplayedAfterReset | apps.js:89-92 | with all three filters empty, `displayedStocks` equals `stockData` |
| Stock.SpecialFilterSelects | apps.js:91-94 | special "zero" selects exactly `qty <= 0` (negatives included), "belowSafety" exactly `qty < safety`, and any other non-empty value selects nothing |
| Stock.StatusText | apps.js:100-104 | "Habis" iff `qty <= 0`; "Hampir Habis" iff `0 < qty < safety`; "Aman" iff `qty > 0` and `qty >= safety` |
| Stock.StatusAgreesWithSpecialFilter | apps.js:91-104 | "Habis" is exactly the "zero" bucket; "Hampir Habis" is the "belowSafety" bucket without the empty records |
| StockEditor.ResetStockFilters | apps.js:81-85 | all three filters become `""` (the reset filters accept every record), nothing else changes, and afterwards the view is the whole stock list |
| StockEditor.OpenCreateStock | apps.js:116-128 | the form opens in create mode on the blank draft; the stock list is untouched |
| StockEditor.OpenEditStock | apps.js:130-134 | the form opens on a copy of `stockData[i]` with target `i`; the stock list is untouched; an out-of-range `i` reads `undefined` |
| StockEditor.CloseStockForm | apps.js:136-138 | closing hides the form and never changes the stock list, target or draft |
| StockEditor.SaveStock | apps.js:140-147 | with no target the draft becomes the new last record; with target `i` in range only position `i` changes; the form ends hidden with target and draft kept |
| StockEditor.ConfirmDeleteStock | apps.js:154-157 | the dialog opens with `i` pending and nothing is removed |
| StockEditor.DeleteStockConfirmed | apps.js:159-164 | with nothing pending nothing changes; otherwise exactly the pending position (counted from the end when negative) is removed, order kept, and the dialog is hidden and cleared |
| StockEditor.EditThenSaveReplacesOnly | apps.js:130-147 | edit `i`, change the draft, save: the list is the old list with position `i` replaced; saving an untouched copy changes nothing |
| StockEditor.InitialSaveStockAppendsDraft | apps.js:110-147 | on the page as first created the view is empty, and a save appends the initial draft as the only record, leaving the form hidden |
| StockEditor.CreateThenSaveAppends | apps.js:116-147 | create, fill in, save: the draft is appended after all existing records |
| StockEditor.CancelKeepsStock | apps.js:130-138 | opening, editing the draft and closing leaves `stockData` unchanged |
| StockEditor.DeleteAtStoreIndexRemovesShown | apps.js:154-164 | deleting at the store position behind a view position removes exactly the record shown there |
| StockEditor.ViewIndexSafeIffNothingHiddenBefore | apps.js:159-164 | a view position addresses the shown record in `stockData` exactly when no earlier record is filtered out |
| StockEditor.RawViewIndexDeletesWrongRecord | apps.js:154-164 | with [A, B, C] and a filter showing [B, C], deleting position 0 removes A, not the B shown first |
| Delivery.FilteredDOs | apps.js:191-198 | every listed order contains the lower-cased search text in its lower-cased `nim`, `nama` or `nomor` |
| Delivery.FilteredDOsMembership | apps.js:191-198 | an order is listed exactly when it is in `doList` and the search text is a substring of one of the three fields, ignoring case |
| Filtering.FilterIsOrderedSubsequence | apps.js:193-197 | a filtered array, the order search's included, is an order-preserving subsequence of its input that drops no accepted element |
| Delivery.EmptySearchListsAll | apps.js:191-198 | an empty search lists every order in `doList` order |
| Delivery.SearchIgnoresCase | apps.js:192 | searching for a text or for its lower-cased form gives the same list |
| DeliveryEditor.BlankOrder | apps.js:215-222 | the new draft carries the given number, empty `nim`, `nama`, `ekspedisi` and `tanggalKirimRaw`, no progress, and no `tanggalKirim` or `newProgress` |
| DeliveryEditor.OpenCreateDO | apps.js:213-223 | the form opens on exactly the blank draft with the given number; the list, search and detail dialog are untouched |
| DeliveryEditor.InitialSaveDOThrows | apps.js:204-233 | on the page as first created, `saveDO` throws on the draft's missing date and the search view is empty |
| DeliveryEditor.CloseDOForm | apps.js:225-227 | closing hides the form and changes nothing else |
| DeliveryEditor.SaveDO | apps.js:229-236 | with a parseable date, the draft stamped with its ISO date becomes the new last order and the form hides with its draft kept; an empty or unparseable date throws and nothing changes |
| DeliveryEditor.OpenDODetail | apps.js:247-250 | the detail dialog shows position `i`; nothing else changes |
| DeliveryEditor.AddProgressForm | apps.js:252-263 | no shown order (position 0 counts as shown) or a missing or blank note changes nothing; otherwise that order's progress gains one entry at the end carrying the note, the note is cleared, and no other order changes; an out-of-range position throws |
| DeliveryEditor.DeleteDO | apps.js:273-275 | exactly position `i` (counted from the end when negative) is removed, order kept; the detail position is not adjusted |
| DeliveryEditor.AddOneNote | apps.js:252-263 | typing a non-blank note and adding it appends exactly that entry and clears the note |
| DeliveryEditor.AddEntriesIsAppendAll | apps.js:252-263 | a run of adds with non-blank notes never stops early and equals appending every entry in turn |
| DeliveryEditor.ProgressGrowsInAppendOrder | apps.js:252-263 | after `n` adds, the shown order's progress is the old progress followed by the `n` entries in the order added |
| DeliveryEditor.CreateThenSaveAppendsOrder | apps.js:213-236 | create, fill in, save with a parseable date: exactly that order, with its converted date, is appended |
| DeliveryEditor.BlankDraftIsRefused | apps.js:220-232 | the blank draft's empty date makes `saveDO` throw, so nothing is appended |
| DeliveryEditor.DeleteBeforeDetailShiftsShownOrder | apps.js:273-275 | deleting an order before the shown one leaves the detail position in place, so it now names the next order |

## Left out

- Login (`submitLogin`, `clearLogin`, `logout`) is a hard-coded credential check with `localStorage` I/O. The `keyup` listener and the `watch` logging are event plumbing.
- The note tooltip (`showNote`, `hideNote`) depends on mouse coordinates and is UI only.
- `formatDate` and `formatDateTime` use locale formatting. `createDONumber` and the progress `time` read the clock. The clock values are the parameters `nomor` and `now`.
- `DeliveryEditor.SaveDO` takes JavaScript date parsing as the parameter `toIso`. The model fixes only that the empty string does not parse.
- The constant option lists (`upbjjList`, `kategoriOptions`, `ekspedisiOptions`) and the `tab` state feed only the template.
- The template is not part of this model. It is the only source of the positions passed to `openEditStock`, `confirmDeleteStock`, `openDODetail` and `deleteDO`, so the model accepts any integer there.
- `JsString.ToLowerIdempotent`: `toLowerCase` is modelled for ASCII letters only. Full Unicode lower-casing is not modelled.
- `JsArray.AssignAt`: an assignment at a negative position or past the end is reported as a fault. JavaScript instead stores a non-element property or leaves holes, and a `seq` represents neither.
- `StockEditor.OpenEditStock`: an out-of-range position is reported as a fault. JavaScript instead opens the form on the empty object `{...undefined}`, which has no fields.
- `StockEditor.SaveStock`: the form's draft starts as the object `{}` (apps.js:110-114). `StockEditor.InitialStockPage` holds the blank create draft instead, so a save before any open appends that blank record where JavaScript appends `{}` (`StockEditor.InitialSaveStockAppendsDraft`).
- `DeliveryEditor.InitialDeliveryPage`: the order form's draft also starts as `{}` (apps.js:204-207). The page holds the blank draft numbered `""` instead. Both have no usable date, so `saveDO` throws on either (`DeliveryEditor.InitialSaveDOThrows`).
- `qty` and `safety` are unbounded integers. JavaScript numbers are floating point, and the fields may arrive as strings from the inputs.
- Object identity is not modelled; records and orders are values. In apps.js `saveStock` stores the draft object itself (apps.js:142, 144), and the order `saveDO` builds by spreading the draft shares its `progress` array with `doForm.data` (apps.js:230-234). `addProgressForm` pushes onto that array (apps.js:257). So a second `saveDO` of the same draft without `openCreateDO` in between appends an order that shares one progress list with the first, and the first's later progress shows in both, while in the model each saved order keeps its own list. Likewise a second `saveStock` in create mode without reopening pushes the same object twice.
- Vue reactivity, `computed` and `mount` are not modelled. Computed values are recomputed as pure functions of the page.
