/** The stock list's records, its filtered view `displayedStocks` and the
    status classification `statusText`. */
module Stock {
  import opened Filtering

  /** One inventory line for a teaching-material item. */
  datatype StockRecord = StockRecord(
    kode: string,
    judul: string,
    upbjj: string,
    kategori: string,
    qty: int,
    safety: int,
    catatanHTML: string)

  /** The three filter inputs; the empty string means "no restriction". */
  datatype Filters = Filters(upbjj: string, kategori: string, special: string)

  /** The two special-condition values the view recognises. */
  const BelowSafety: string := "belowSafety"
  const Zero: string := "zero"

  /** The special-condition predicate: `"belowSafety"` keeps `qty < safety`,
      `"zero"` keeps `qty <= 0`, and any other non-empty value keeps nothing. */
  predicate MatchesSpecial(special: string, s: StockRecord)
  {
    special == []
    || (special == BelowSafety && s.qty < s.safety)
    || (special == Zero && s.qty <= 0)
  }

  /** A record passes all three filters (their conjunction). */
  predicate Matches(f: Filters, s: StockRecord)
  {
    && (f.upbjj == [] || s.upbjj == f.upbjj)
    && (f.kategori == [] || s.kategori == f.kategori)
    && MatchesSpecial(f.special, s)
  }

  /** The filter callback of the view. */
  function Criteria(f: Filters): StockRecord -> bool
  {
    s => Matches(f, s)
  }

  /** `displayedStocks`: the records of `stock` that pass every filter, in
      stock order, with no sorting. */
  function Displayed(stock: seq<StockRecord>, f: Filters): (r: seq<StockRecord>)
    ensures |r| <= |stock|
    ensures forall j :: 0 <= j < |r| ==> Matches(f, r[j])
  {
    Filter(stock, Criteria(f))
  }

  /** A record is displayed exactly when it is in the stock list and passes every filter. */
  lemma DisplayedMembership(stock: seq<StockRecord>, f: Filters, s: StockRecord)
    ensures s in Displayed(stock, f) <==> s in stock && Matches(f, s)
  {
    FilterMembership(stock, Criteria(f), s);
  }

  /** The stock position behind view position `j` of `displayedStocks`. */
  function StoreIndex(stock: seq<StockRecord>, f: Filters, j: nat): (k: nat)
    requires j < |Displayed(stock, f)|
    ensures j <= k < |stock|
    ensures stock[k] == Displayed(stock, f)[j]
  {
    PositionsPick(stock, Criteria(f), j);
    PositionsNotBefore(stock, Criteria(f), j);
    Positions(stock, Criteria(f))[j]
  }

  /** The view is an order-preserving subsequence of the stock list that leaves
      out no record passing the filters. */
  lemma DisplayedIsOrderedSubsequence(stock: seq<StockRecord>, f: Filters)
    ensures forall j, j' :: 0 <= j < j' < |Displayed(stock, f)| ==>
      StoreIndex(stock, f, j) < StoreIndex(stock, f, j')
    ensures forall k :: 0 <= k < |stock| && Matches(f, stock[k]) ==>
      exists j :: 0 <= j < |Displayed(stock, f)| && StoreIndex(stock, f, j) == k
  {
    forall j, j' | 0 <= j < j' < |Displayed(stock, f)|
      ensures StoreIndex(stock, f, j) < StoreIndex(stock, f, j')
    {
      PositionsIncrease(stock, Criteria(f), j, j');
    }
    forall k | 0 <= k < |stock| && Matches(f, stock[k])
      ensures exists j :: 0 <= j < |Displayed(stock, f)| && StoreIndex(stock, f, j) == k
    {
      PositionsComplete(stock, Criteria(f), k);
      var ps := Positions(stock, Criteria(f));
      var j :| 0 <= j < |ps| && ps[j] == k;
      assert StoreIndex(stock, f, j) == k;
    }
  }

  /** `resetStockFilters`: every filter back to the empty string. */
  function ResetFilters(): (f: Filters)
    ensures forall s :: Matches(f, s)
  {
    Filters("", "", "")
  }

  /** With the filters reset the view is the stock list itself. */
  lemma DisplayedAfterReset(stock: seq<StockRecord>)
    ensures Displayed(stock, ResetFilters()) == stock
  {
    FilterKeepsAll(stock, Criteria(ResetFilters()));
  }

  /** What the special filter alone selects: `"zero"` exactly the records with
      `qty <= 0` (negative quantities included), `"belowSafety"` exactly those
      with `qty < safety`, and an unrecognised value nothing at all. */
  lemma SpecialFilterSelects(stock: seq<StockRecord>, special: string, s: StockRecord)
    ensures special == Zero ==>
      (s in Displayed(stock, Filters("", "", special)) <==> s in stock && s.qty <= 0)
    ensures special == BelowSafety ==>
      (s in Displayed(stock, Filters("", "", special)) <==> s in stock && s.qty < s.safety)
    ensures special !in {"", Zero, BelowSafety} ==> Displayed(stock, Filters("", "", special)) == []
  {
    var f := Filters("", "", special);
    DisplayedMembership(stock, f, s);
    if special !in {"", Zero, BelowSafety} {
      FilterKeepsNone(stock, Criteria(f));
    }
  }

  /** `statusText`: the three-way stock classification. */
  function StatusText(s: StockRecord): (r: string)
    ensures r == "Habis" <==> s.qty <= 0
    ensures r == "Hampir Habis" <==> 0 < s.qty < s.safety
    ensures r == "Aman" <==> 0 < s.qty && s.safety <= s.qty
  {
    if s.qty <= 0 then "Habis"
    else if s.qty < s.safety then "Hampir Habis"
    else "Aman"
  }

  /** The status text and the special filter agree: "Habis" is exactly the
      `"zero"` bucket, and "Hampir Habis" is the `"belowSafety"` bucket minus
      the empty records, which the status reports as "Habis" first. */
  lemma StatusAgreesWithSpecialFilter(s: StockRecord)
    ensures StatusText(s) == "Habis" <==> MatchesSpecial(Zero, s)
    ensures StatusText(s) == "Hampir Habis" <==>
      MatchesSpecial(BelowSafety, s) && !MatchesSpecial(Zero, s)
  {
  }
}
