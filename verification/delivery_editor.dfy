/** The delivery page's state machines: the create form (`doForm`), the detail
    dialog with its progress append (`doDetail`, `addProgressForm`) and the
    delete by raw position (`deleteDO`). */
module DeliveryEditor {
  import opened JsCore
  import opened JsArray
  import opened JsString
  import opened Delivery

  /** `doForm`: visibility and the draft order. */
  datatype DOForm = DOForm(visible: bool, data: DeliveryOrder)

  /** `doDetail`: visibility and the position of the order shown. */
  datatype DODetail = DODetail(visible: bool, index: Nullable<int>)

  /** The delivery page's state: `doList`, `doSearch`, `doForm`, `doDetail`. */
  datatype DeliveryPage = DeliveryPage(
    doList: seq<DeliveryOrder>,
    search: string,
    form: DOForm,
    detail: DODetail)

  /** The draft `openCreateDO` starts from, numbered `nomor`: every text
      field empty, no progress, and no `tanggalKirim` or `newProgress` yet. */
  function BlankOrder(nomor: string): (d: DeliveryOrder)
    ensures d.nomor == nomor
    ensures d.nim == "" && d.nama == "" && d.ekspedisi == "" && d.tanggalKirimRaw == ""
    ensures d.progress == []
    ensures d.tanggalKirim == Null && d.newProgress == Null
  {
    DeliveryOrder(nomor, "", "", "", "", Null, [], Null)
  }

  /** `openCreateDO`: shows the form on a blank draft. `nomor` stands for the
      value of `createDONumber()`, which reads the clock. */
  function OpenCreateDO(pg: DeliveryPage, nomor: string): (r: DeliveryPage)
    ensures r.form.visible && r.form.data == BlankOrder(nomor)
    ensures r.doList == pg.doList && r.search == pg.search && r.detail == pg.detail
  {
    pg.(form := DOForm(true, BlankOrder(nomor)))
  }

  /** The user editing the draft order through the form's inputs. */
  function WithOrderDraft(pg: DeliveryPage, d: DeliveryOrder): (r: DeliveryPage)
    ensures r.doList == pg.doList && r.form.data == d
  {
    pg.(form := pg.form.(data := d))
  }

  /** `closeDOForm`: hides the form and changes nothing else. */
  function CloseDOForm(pg: DeliveryPage): (r: DeliveryPage)
    ensures !r.form.visible && r.form.data == pg.form.data
    ensures r.doList == pg.doList && r.search == pg.search && r.detail == pg.detail
  {
    pg.(form := pg.form.(visible := false))
  }

  /** `saveDO`: appends a copy of the draft whose `tanggalKirim` is the ISO
      text of `tanggalKirimRaw`, then hides the form. `toIso` stands for
      `new Date(raw).toISOString()`, `Null` where that throws `RangeError`;
      the empty string is such a date, so a draft without a date is refused
      and nothing changes. */
  function SaveDO(pg: DeliveryPage, toIso: string -> Nullable<string>): (r: Result<DeliveryPage>)
    requires toIso("") == Null
    ensures r.Ok? <==> toIso(pg.form.data.tanggalKirimRaw).Value?
    ensures pg.form.data.tanggalKirimRaw == "" ==> r == Err(InvalidDate)
    ensures r.Ok? ==>
      && |r.value.doList| == |pg.doList| + 1
      && r.value.doList[..|pg.doList|] == pg.doList
      && r.value.doList[|pg.doList|]
           == pg.form.data.(tanggalKirim := toIso(pg.form.data.tanggalKirimRaw))
      && r.value.form == pg.form.(visible := false)
      && r.value.search == pg.search && r.value.detail == pg.detail
  {
    match toIso(pg.form.data.tanggalKirimRaw)
    case Null => Err(InvalidDate)
    case Value(t) =>
      Ok(pg.(doList := pg.doList + [pg.form.data.(tanggalKirim := Value(t))],
             form := pg.form.(visible := false)))
  }

  /** The page as `setup()` creates it: no orders, no search text, the form and
      the dialog hidden, no order shown. The form's draft starts as the object
      `{}`, whose `tanggalKirimRaw` is `undefined`; `new Date(undefined)` is an
      invalid date just like `new Date("")`, so the blank draft stands in for it. */
  const InitialDeliveryPage: DeliveryPage :=
    DeliveryPage([], "", DOForm(false, BlankOrder("")), DODetail(false, Null))

  /** Saving before any `openCreateDO` throws on the initial draft's missing
      date, and nothing is appended. */
  lemma InitialSaveDOThrows(toIso: string -> Nullable<string>)
    requires toIso("") == Null
    ensures SaveDO(InitialDeliveryPage, toIso) == Err(InvalidDate)
    ensures FilteredDOs(InitialDeliveryPage.doList, InitialDeliveryPage.search) == []
  {
  }

  /** `openDODetail(i)`: shows the detail dialog for position `i`. */
  function OpenDODetail(pg: DeliveryPage, i: int): (r: DeliveryPage)
    ensures r.detail == DODetail(true, Value(i))
    ensures r.doList == pg.doList && r.search == pg.search && r.form == pg.form
  {
    pg.(detail := DODetail(true, Value(i)))
  }

  /** The user typing `note` into the progress field of order `i`. */
  function TypeNote(pg: DeliveryPage, i: nat, note: string): (r: DeliveryPage)
    requires i < |pg.doList|
    ensures |r.doList| == |pg.doList|
    ensures r.doList[i] == pg.doList[i].(newProgress := Value(note))
    ensures forall k :: 0 <= k < |pg.doList| && k != i ==> r.doList[k] == pg.doList[k]
    ensures r.detail == pg.detail
  {
    pg.(doList := pg.doList[i := pg.doList[i].(newProgress := Value(note))])
  }

  /** The draft note is missing or `trim()`s to the empty string; by the
      contract of `Trim` the latter means every character is whitespace. */
  predicate NoNote(note: Nullable<string>)
  {
    note.Null? || Trim(note.value) == ""
  }

  /** `addProgressForm`: with no order shown (position `Null`; position 0 is
      an order) or no note, nothing changes. Otherwise the shown order's
      progress grows by one entry at the end, stamped `now`, carrying the
      note, and the note is cleared. A position outside the list reads
      `undefined`, whose `newProgress` throws `TypeError`. `now` stands for
      `new Date().toISOString()`. */
  function AddProgressForm(pg: DeliveryPage, now: string): (r: Result<DeliveryPage>)
    ensures r.Ok? ==> |r.value.doList| == |pg.doList| && r.value.detail == pg.detail
    ensures pg.detail.index == Null ==> r == Ok(pg)
    ensures pg.detail.index.Value? ==>
      (r.Err? <==> !(0 <= pg.detail.index.value < |pg.doList|))
    ensures pg.detail.index.Value? && 0 <= pg.detail.index.value < |pg.doList| ==>
      var i := pg.detail.index.value;
      var note := pg.doList[i].newProgress;
      && (note.Null? || IsBlank(note.value) ==> r == Ok(pg))
      && (note.Value? && !IsBlank(note.value) ==>
            && r.Ok?
            && |r.value.doList| == |pg.doList|
            && r.value.doList[i] == pg.doList[i].(
                 progress := pg.doList[i].progress + [ProgressEntry(now, note.value)],
                 newProgress := Value(""))
            && (forall k :: 0 <= k < |pg.doList| && k != i ==>
                  r.value.doList[k] == pg.doList[k])
            && r.value.search == pg.search
            && r.value.form == pg.form
            && r.value.detail == pg.detail)
  {
    match pg.detail.index
    case Null => Ok(pg)
    case Value(i) =>
      if !(0 <= i < |pg.doList|) then Err(UndefinedElement(i))
      else
        var item := pg.doList[i];
        if NoNote(item.newProgress) then Ok(pg)
        else
          var item' := item.(progress := item.progress + [ProgressEntry(now, item.newProgress.value)],
                             newProgress := Value(""));
          Ok(pg.(doList := pg.doList[i := item']))
  }

  /** `deleteDO(i)`: splices position `i` out of `doList`. The detail dialog's
      position is not adjusted. */
  function DeleteDO(pg: DeliveryPage, i: int): (r: DeliveryPage)
    ensures 0 <= i < |pg.doList| ==>
      && r.doList == pg.doList[..i] + pg.doList[i + 1..]
      && multiset(r.doList) == multiset(pg.doList) - multiset{pg.doList[i]}
    ensures -|pg.doList| <= i < 0 ==>
      var k := |pg.doList| + i;
      && r.doList == pg.doList[..k] + pg.doList[k + 1..]
      && multiset(r.doList) == multiset(pg.doList) - multiset{pg.doList[k]}
    ensures |pg.doList| <= i ==> r.doList == pg.doList
    ensures r.search == pg.search && r.form == pg.form && r.detail == pg.detail
  {
    SpliceOneAt(pg.doList, i);
    pg.(doList := SpliceOne(pg.doList, i))
  }

  /** Creating an order, filling in the draft and saving it with a parseable
      date appends exactly that order, stamped with the converted date. */
  lemma CreateThenSaveAppendsOrder(pg: DeliveryPage, nomor: string, d: DeliveryOrder,
                                   toIso: string -> Nullable<string>)
    requires toIso("") == Null
    requires toIso(d.tanggalKirimRaw).Value?
    ensures var r := SaveDO(WithOrderDraft(OpenCreateDO(pg, nomor), d), toIso);
      r.Ok? && r.value.doList == pg.doList + [d.(tanggalKirim := toIso(d.tanggalKirimRaw))]
  {
  }

  /** The blank draft has an empty date, so saving it without filling in a
      date is refused and the list is unchanged. */
  lemma BlankDraftIsRefused(pg: DeliveryPage, nomor: string, toIso: string -> Nullable<string>)
    requires toIso("") == Null
    ensures SaveDO(OpenCreateDO(pg, nomor), toIso) == Err(InvalidDate)
  {
  }

  /** Types each entry's note into the shown order and adds it at the entry's
      time, one entry after another. The other orders and the dialog are untouched. */
  function AddEntries(pg: DeliveryPage, es: seq<ProgressEntry>): (r: Result<DeliveryPage>)
    requires pg.detail.index.Value? && 0 <= pg.detail.index.value < |pg.doList|
    ensures r.Ok? ==> r.value.detail == pg.detail && |r.value.doList| == |pg.doList|
    ensures r.Ok? ==> forall k :: 0 <= k < |pg.doList| && k != pg.detail.index.value ==>
      r.value.doList[k] == pg.doList[k]
    decreases |es|
  {
    if es == [] then Ok(pg)
    else
      match AddProgressForm(TypeNote(pg, pg.detail.index.value, es[0].keterangan), es[0].time)
      case Err(e) => Err(e)
      case Ok(pg') => AddEntries(pg', es[1..])
  }

  /** Progress is append-only: adding `n` entries with non-blank notes to the
      shown order extends its progress by exactly those `n` entries, in the
      order added. */
  lemma ProgressGrowsInAppendOrder(pg: DeliveryPage, es: seq<ProgressEntry>)
    requires pg.detail.index.Value? && 0 <= pg.detail.index.value < |pg.doList|
    requires forall k :: 0 <= k < |es| ==> !IsBlank(es[k].keterangan)
    ensures var i := pg.detail.index.value;
      var r := AddEntries(pg, es);
      r.Ok? && r.value.doList[i].progress == pg.doList[i].progress + es
  {
    AddEntriesIsAppendAll(pg, es);
  }

  /** Each entry appended to order `i` in turn, with no guard: the reference
      the dialog's sequence of adds is compared against. */
  function AppendAll(pg: DeliveryPage, i: nat, es: seq<ProgressEntry>): (r: DeliveryPage)
    requires i < |pg.doList|
    ensures |r.doList| == |pg.doList| && r.detail == pg.detail
    ensures r.doList[i].progress == pg.doList[i].progress + es
    decreases |es|
  {
    if es == [] then pg
    else
      var pg' := Appended(pg, i, es[0]);
      assert pg'.doList[i].progress + es[1..] == pg.doList[i].progress + es;
      AppendAll(pg', i, es[1..])
  }

  /** With non-blank notes the dialog's adds never stop early and amount to
      appending every entry. */
  lemma {:induction false} AddEntriesIsAppendAll(pg: DeliveryPage, es: seq<ProgressEntry>)
    requires pg.detail.index.Value? && 0 <= pg.detail.index.value < |pg.doList|
    requires forall k :: 0 <= k < |es| ==> !IsBlank(es[k].keterangan)
    ensures AddEntries(pg, es) == Ok(AppendAll(pg, pg.detail.index.value, es))
    decreases |es|
  {
    if es != [] {
      var i := pg.detail.index.value;
      AddEntriesStep(pg, es);
      AddEntriesIsAppendAll(Appended(pg, i, es[0]), es[1..]);
    }
  }

  /** `AddEntries` with a non-blank first note is that entry appended, then the rest. */
  lemma AddEntriesStep(pg: DeliveryPage, es: seq<ProgressEntry>)
    requires es != [] && !IsBlank(es[0].keterangan)
    requires pg.detail.index.Value? && 0 <= pg.detail.index.value < |pg.doList|
    ensures AddEntries(pg, es) == AddEntries(Appended(pg, pg.detail.index.value, es[0]), es[1..])
  {
    AddOneNote(pg, es[0].keterangan, es[0].time);
  }

  /** The page after entry `e` is appended to order `i` and its note cleared. */
  function Appended(pg: DeliveryPage, i: nat, e: ProgressEntry): (r: DeliveryPage)
    requires i < |pg.doList|
    ensures r.detail == pg.detail && |r.doList| == |pg.doList|
  {
    var d := pg.doList[i];
    pg.(doList := pg.doList[i := d.(progress := d.progress + [e], newProgress := Value(""))])
  }

  /** One step of `AddEntries`: typing a non-blank note and adding it appends
      exactly one entry to the shown order. */
  lemma AddOneNote(pg: DeliveryPage, note: string, time: string)
    requires pg.detail.index.Value? && 0 <= pg.detail.index.value < |pg.doList|
    requires !IsBlank(note)
    ensures var i := pg.detail.index.value;
      AddProgressForm(TypeNote(pg, i, note), time) == Ok(Appended(pg, i, ProgressEntry(time, note)))
  {
    var i := pg.detail.index.value;
    var typed := TypeNote(pg, i, note);
    assert typed.doList[i := Appended(pg, i, ProgressEntry(time, note)).doList[i]]
        == Appended(pg, i, ProgressEntry(time, note)).doList;
  }

  /** `deleteDO` leaves `doDetail`'s position in place, so a detail dialog
      open on a later order now shows the order after it. */
  lemma DeleteBeforeDetailShiftsShownOrder(pg: DeliveryPage, i: nat)
    requires pg.detail.index.Value?
    requires i < pg.detail.index.value < |pg.doList|
    ensures var r := DeleteDO(pg, i);
      && r.detail == pg.detail
      && |r.doList| == |pg.doList| - 1
      && (pg.detail.index.value < |pg.doList| - 1 ==>
            r.doList[pg.detail.index.value] == pg.doList[pg.detail.index.value + 1])
  {
  }
}
