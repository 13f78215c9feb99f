/** The stock page's state machines: the create/edit form (`stockForm`) and the
    two-step delete dialog (`deleteStockConfirm`). Both address `stockData` by
    raw position; the template that supplies those positions is not part of
    this model. */
module StockEditor {
  import opened JsCore
  import opened JsArray
  import opened Stock

  /** `stockForm`: visibility, the edit target (`Null` while creating) and the draft record. */
  datatype StockForm = StockForm(visible: bool, index: Nullable<int>, data: StockRecord)

  /** `deleteStockConfirm`: visibility and the pending position. */
  datatype DeleteConfirm = DeleteConfirm(visible: bool, index: Nullable<int>)

  /** The stock page's state: `stockData`, `filters`, `stockForm`, `deleteStockConfirm`. */
  datatype StockPage = StockPage(
    stock: seq<StockRecord>,
    filters: Filters,
    form: StockForm,
    confirm: DeleteConfirm)

  /** The draft `openCreateStock` starts from. */
  const BlankStock: StockRecord := StockRecord("", "", "", "", 0, 0, "")

  /** The page as `setup()` creates it: no records, every filter off, the form
      and the dialog hidden with no target. The form's draft starts as the
      object `{}`; the blank record stands in for it (see `SaveStock`). */
  const InitialStockPage: StockPage :=
    StockPage([], Filters("", "", ""), StockForm(false, Null, BlankStock), DeleteConfirm(false, Null))

  /** `resetStockFilters`: clears the filters and nothing else, so the view
      shows the whole stock list again. */
  function ResetStockFilters(pg: StockPage): (r: StockPage)
    ensures r.filters == ResetFilters()
    ensures r.stock == pg.stock && r.form == pg.form && r.confirm == pg.confirm
    ensures Displayed(r.stock, r.filters) == pg.stock
  {
    DisplayedAfterReset(pg.stock);
    pg.(filters := ResetFilters())
  }

  /** `openCreateStock`: shows the form on a blank draft in create mode. */
  function OpenCreateStock(pg: StockPage): (r: StockPage)
    ensures r.form.visible && r.form.index == Null && r.form.data == BlankStock
    ensures r.stock == pg.stock && r.filters == pg.filters && r.confirm == pg.confirm
  {
    pg.(form := StockForm(true, Null, BlankStock))
  }

  /** `openEditStock(i)`: shows the form on a copy of `stockData[i]` with `i`
      as the target. A position outside the list reads `undefined`, which
      the model reports as a fault. */
  function OpenEditStock(pg: StockPage, i: int): (r: Result<StockPage>)
    ensures r.Ok? <==> 0 <= i < |pg.stock|
    ensures r.Ok? ==> r.value.form == StockForm(true, Value(i), pg.stock[i])
    ensures r.Ok? ==>
      && r.value.stock == pg.stock
      && r.value.filters == pg.filters
      && r.value.confirm == pg.confirm
  {
    if 0 <= i < |pg.stock| then Ok(pg.(form := StockForm(true, Value(i), pg.stock[i])))
    else Err(UndefinedElement(i))
  }

  /** The user editing the draft through the form's inputs. */
  function WithDraft(pg: StockPage, d: StockRecord): (r: StockPage)
    ensures r.stock == pg.stock && r.form.data == d
  {
    pg.(form := pg.form.(data := d))
  }

  /** `closeStockForm`: hides the form; the draft and target stay as they were. */
  function CloseStockForm(pg: StockPage): (r: StockPage)
    ensures !r.form.visible && r.form.index == pg.form.index && r.form.data == pg.form.data
    ensures r.stock == pg.stock && r.filters == pg.filters && r.confirm == pg.confirm
  {
    pg.(form := pg.form.(visible := false))
  }

  /** `saveStock`: an upsert by raw position. With no target the draft is
      appended; with target `i` it is assigned to `stockData[i]`. The form is
      hidden, its target and draft are left in place. */
  function SaveStock(pg: StockPage): (r: Result<StockPage>)
    ensures pg.form.index == Null ==>
      && r.Ok?
      && |r.value.stock| == |pg.stock| + 1
      && r.value.stock[..|pg.stock|] == pg.stock
      && r.value.stock[|pg.stock|] == pg.form.data
    ensures pg.form.index.Value? && 0 <= pg.form.index.value < |pg.stock| ==>
      && r.Ok?
      && |r.value.stock| == |pg.stock|
      && r.value.stock[pg.form.index.value] == pg.form.data
      && (forall k :: 0 <= k < |pg.stock| && k != pg.form.index.value ==>
            r.value.stock[k] == pg.stock[k])
    ensures pg.form.index == Value(|pg.stock|) ==> r.Ok? && r.value.stock == pg.stock + [pg.form.data]
    ensures pg.form.index.Value? && !(0 <= pg.form.index.value <= |pg.stock|) ==> r.Err?
    ensures r.Ok? ==>
      && r.value.form == pg.form.(visible := false)
      && r.value.filters == pg.filters
      && r.value.confirm == pg.confirm
  {
    match pg.form.index
    case Null =>
      Ok(pg.(stock := pg.stock + [pg.form.data], form := pg.form.(visible := false)))
    case Value(i) =>
      match AssignAt(pg.stock, i, pg.form.data)
      case Ok(s) => Ok(pg.(stock := s, form := pg.form.(visible := false)))
      case Err(e) => Err(e)
  }

  /** `confirmDeleteStock(i)`: shows the dialog with `i` pending; nothing is removed yet. */
  function ConfirmDeleteStock(pg: StockPage, i: int): (r: StockPage)
    ensures r.confirm.visible && r.confirm.index == Value(i)
    ensures r.stock == pg.stock && r.filters == pg.filters && r.form == pg.form
  {
    pg.(confirm := DeleteConfirm(true, Value(i)))
  }

  /** `deleteStockConfirmed`: with nothing pending it returns without any
      change (the dialog's visibility included); otherwise it splices the
      pending position out of `stockData`, hides the dialog and clears it. */
  function DeleteStockConfirmed(pg: StockPage): (r: StockPage)
    ensures pg.confirm.index == Null ==> r == pg
    ensures pg.confirm.index.Value? ==> r.confirm == DeleteConfirm(false, Null)
    ensures pg.confirm.index.Value? && 0 <= pg.confirm.index.value < |pg.stock| ==>
      var i := pg.confirm.index.value;
      && r.stock == pg.stock[..i] + pg.stock[i + 1..]
      && multiset(r.stock) == multiset(pg.stock) - multiset{pg.stock[i]}
    ensures pg.confirm.index.Value? && -|pg.stock| <= pg.confirm.index.value < 0 ==>
      var k := |pg.stock| + pg.confirm.index.value;
      && r.stock == pg.stock[..k] + pg.stock[k + 1..]
      && multiset(r.stock) == multiset(pg.stock) - multiset{pg.stock[k]}
    ensures pg.confirm.index.Value? && |pg.stock| <= pg.confirm.index.value ==> r.stock == pg.stock
    ensures r.filters == pg.filters && r.form == pg.form
  {
    match pg.confirm.index
    case Null => pg
    case Value(i) =>
      SpliceOneAt(pg.stock, i);
      pg.(stock := SpliceOne(pg.stock, i), confirm := DeleteConfirm(false, Null))
  }

  /** Editing record `i` and saving replaces that record by the draft and
      leaves every other record and the list's length alone; saving an
      untouched copy gives back the same list. */
  lemma EditThenSaveReplacesOnly(pg: StockPage, i: int, d: StockRecord)
    requires 0 <= i < |pg.stock|
    ensures var r := SaveStock(WithDraft(OpenEditStock(pg, i).value, d));
      r.Ok? && r.value.stock == pg.stock[i := d] && !r.value.form.visible
    ensures SaveStock(OpenEditStock(pg, i).value) == Ok(CloseStockForm(OpenEditStock(pg, i).value))
  {
    var r := SaveStock(WithDraft(OpenEditStock(pg, i).value, d));
    assert r.value.stock == pg.stock[i := d];
    var e := OpenEditStock(pg, i).value;
    assert SaveStock(e).value.stock == pg.stock[i := pg.stock[i]] == pg.stock;
  }

  /** Saving before any `openCreateStock` or `openEditStock` appends the
      initial draft, as create mode does. */
  lemma InitialSaveStockAppendsDraft()
    ensures SaveStock(InitialStockPage)
         == Ok(InitialStockPage.(stock := [BlankStock]))
    ensures Displayed(InitialStockPage.stock, InitialStockPage.filters) == []
  {
  }

  /** Creating and saving appends the draft after every existing record. */
  lemma CreateThenSaveAppends(pg: StockPage, d: StockRecord)
    ensures var r := SaveStock(WithDraft(OpenCreateStock(pg), d));
      r.Ok? && r.value.stock == pg.stock + [d] && !r.value.form.visible
  {
  }

  /** Opening the form, editing the draft and closing it leaves the stock list unchanged. */
  lemma CancelKeepsStock(pg: StockPage, i: int, d: StockRecord)
    requires 0 <= i < |pg.stock|
    ensures CloseStockForm(WithDraft(OpenEditStock(pg, i).value, d)).stock == pg.stock
    ensures CloseStockForm(WithDraft(OpenCreateStock(pg), d)).stock == pg.stock
  {
  }

  /** Deleting through the dialog at the stock position behind view position
      `j` removes exactly the record shown there. */
  lemma DeleteAtStoreIndexRemovesShown(pg: StockPage, j: nat)
    requires j < |Displayed(pg.stock, pg.filters)|
    ensures var r := DeleteStockConfirmed(ConfirmDeleteStock(pg, StoreIndex(pg.stock, pg.filters, j)));
      multiset(r.stock) == multiset(pg.stock) - multiset{Displayed(pg.stock, pg.filters)[j]}
  {
  }

  /** The dialog and the edit form take a position of `stockData`, not of
      `displayedStocks`: a view position `j` names the record shown there
      exactly when no record up to that stock position is filtered out. */
  lemma ViewIndexSafeIffNothingHiddenBefore(pg: StockPage, j: nat)
    requires j < |Displayed(pg.stock, pg.filters)|
    ensures StoreIndex(pg.stock, pg.filters, j) == j <==>
      forall k :: 0 <= k <= j ==> Matches(pg.filters, pg.stock[k])
  {
    Filtering.PositionIsIndexIffPrefixKept(pg.stock, Criteria(pg.filters), j);
  }

  /** With stock [A, B, C] and a category filter that shows only B and C,
      confirming view position 0 deletes A, not the B shown there. */
  lemma RawViewIndexDeletesWrongRecord()
    ensures
      var a := StockRecord("A", "", "", "Umum", 1, 0, "");
      var b := StockRecord("B", "", "", "MK Wajib", 1, 0, "");
      var c := StockRecord("C", "", "", "MK Wajib", 1, 0, "");
      var pg := StockPage([a, b, c], Filters("", "MK Wajib", ""),
                          StockForm(false, Null, BlankStock), DeleteConfirm(false, Null));
      && Displayed(pg.stock, pg.filters) == [b, c]
      && DeleteStockConfirmed(ConfirmDeleteStock(pg, 0)).stock == [b, c]
  {
    var a := StockRecord("A", "", "", "Umum", 1, 0, "");
    var b := StockRecord("B", "", "", "MK Wajib", 1, 0, "");
    var c := StockRecord("C", "", "", "MK Wajib", 1, 0, "");
    var p := Criteria(Filters("", "MK Wajib", ""));
    assert !p(a) && p(b) && p(c);
    assert [a, b, c][1..] == [b, c];
    assert [b, c][1..] == [c];
    assert [c][1..] == [];
    assert Filtering.Filter([c], p) == [c];
    assert Filtering.Filter([b, c], p) == [b, c];
  }
}
