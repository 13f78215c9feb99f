/** Delivery-order records and the search view `filteredDOs`. */
module Delivery {
  import opened JsCore
  import opened JsString
  import opened Filtering

  /** One timestamped status note of an order; `time` is opaque text. */
  datatype ProgressEntry = ProgressEntry(time: string, keterangan: string)

  /** A delivery order. `tanggalKirim` is absent until the order is saved, and
      `newProgress` (the note being composed) is absent until typed into. */
  datatype DeliveryOrder = DeliveryOrder(
    nomor: string,
    nim: string,
    nama: string,
    ekspedisi: string,
    tanggalKirimRaw: string,
    tanggalKirim: Nullable<string>,
    progress: seq<ProgressEntry>,
    newProgress: Nullable<string>)

  /** An order matches the lower-cased search key when the key occurs in its
      lower-cased `nim`, `nama` or `nomor`. */
  predicate MatchesKey(key: string, d: DeliveryOrder)
  {
    || Includes(ToLower(d.nim), key)
    || Includes(ToLower(d.nama), key)
    || Includes(ToLower(d.nomor), key)
  }

  /** The filter callback of the search view. */
  function SearchCriteria(key: string): DeliveryOrder -> bool
  {
    d => MatchesKey(key, d)
  }

  /** `filteredDOs`: the orders matching the search text, case-insensitively,
      in list order. */
  function FilteredDOs(doList: seq<DeliveryOrder>, search: string): (r: seq<DeliveryOrder>)
    ensures |r| <= |doList|
    ensures forall j :: 0 <= j < |r| ==> MatchesKey(ToLower(search), r[j])
  {
    Filter(doList, SearchCriteria(ToLower(search)))
  }

  /** An order is listed exactly when it is in the list and the lower-cased
      search text is a substring of its lower-cased `nim`, `nama` or `nomor`. */
  lemma FilteredDOsMembership(doList: seq<DeliveryOrder>, search: string, d: DeliveryOrder)
    ensures d in FilteredDOs(doList, search) <==>
      && d in doList
      && (|| Contains(ToLower(d.nim), ToLower(search))
          || Contains(ToLower(d.nama), ToLower(search))
          || Contains(ToLower(d.nomor), ToLower(search)))
  {
    FilterMembership(doList, SearchCriteria(ToLower(search)), d);
    IncludesIsContains(ToLower(d.nim), ToLower(search));
    IncludesIsContains(ToLower(d.nama), ToLower(search));
    IncludesIsContains(ToLower(d.nomor), ToLower(search));
  }

  /** An empty search lists every order, in list order. */
  lemma EmptySearchListsAll(doList: seq<DeliveryOrder>)
    ensures FilteredDOs(doList, "") == doList
  {
    FilterKeepsAll(doList, SearchCriteria(ToLower("")));
  }

  /** The search text's letter case does not matter. */
  lemma SearchIgnoresCase(doList: seq<DeliveryOrder>, search: string)
    ensures FilteredDOs(doList, ToLower(search)) == FilteredDOs(doList, search)
  {
    ToLowerIdempotent(search);
  }
}
