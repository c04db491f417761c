/**
 * The price-list index of the cost reconciliation: supplier code to unit price and pack
 * size, read from columns chosen by position; a later row with the same code wins.
 */
module PriceIndex {
  import opened Sheet
  import opened Numbers

  /** What the index keeps for one code: the unit price and the pack quantity. */
  datatype PriceEntry = PriceEntry(price: real, packQty: real)

  /** Zero-based positions of the code, price and pack-quantity columns of the price list. */
  datatype PriceColumns = PriceColumns(code: nat, price: nat, qty: nat)

  type PriceMap = map<string, PriceEntry>

  /** `str()` of a cell read as text: a blank cell is pandas NaN, whose text is "nan". */
  function CellText(c: Cell): string
  {
    match c
    case None => "nan"
    case Some(t) => t
  }

  /** The pack quantity kept for a row: a missing, unparseable or zero quantity counts as one. */
  function PackQty(q: Float): (r: real)
    ensures r > 0.0
    ensures q.Num? && q.r > 0.0 ==> r == q.r
    ensures q.NaN? || q.r <= 0.0 ==> r == 1.0
  {
    if q.NaN? || q.r <= 0.0 then 1.0 else q.r
  }

  /**
   * What one price-list row puts into the index, if anything: nothing when a column is
   * out of range, when the stripped code is empty or when the price does not parse.
   */
  function RowEntry(row: Row, cols: PriceColumns): (r: Option<(string, PriceEntry)>)
    ensures cols.code >= |row| || cols.price >= |row| || cols.qty >= |row| ==> r.None?
    ensures r.Some? ==> r.value.0 != []
    ensures r.Some? ==> r.value.1.price >= 0.0 && r.value.1.packQty > 0.0
  {
    if cols.code >= |row| || cols.price >= |row| || cols.qty >= |row| then None
    else
      var code := Strip(CellText(row[cols.code]));
      var price := ToFloat(row[cols.price], NaN);
      var qty := ToFloat(row[cols.qty], NaN);
      if code != [] && price.Num? then
        Some((code, PriceEntry(price.r, PackQty(qty))))
      else None
  }

  /** Every key is a non-empty code, every price is non-negative, every pack quantity positive. */
  predicate ValidIndex(m: PriceMap)
  {
    forall k :: k in m ==> k != [] && m[k].price >= 0.0 && m[k].packQty > 0.0
  }

  /** An entry the index may hold: a non-empty code, a non-negative price, a positive pack. */
  predicate ValidEntry(e: Option<(string, PriceEntry)>)
  {
    e.Some? ==> e.value.0 != [] && e.value.1.price >= 0.0 && e.value.1.packQty > 0.0
  }

  /** What each row puts into the index, row by row. */
  function Entries(rows: seq<Row>, cols: PriceColumns): (es: seq<Option<(string, PriceEntry)>>)
    ensures |es| == |rows|
    ensures forall j :: 0 <= j < |rows| ==> es[j] == RowEntry(rows[j], cols) && ValidEntry(es[j])
  {
    seq(|rows|, j requires 0 <= j < |rows| => RowEntry(rows[j], cols))
  }

  /** Entry `e` stores something under `code`. */
  predicate Stores(e: Option<(string, PriceEntry)>, code: string)
  {
    e.Some? && e.value.0 == code
  }

  /**
   * Storing `es` in order into an empty dict, each entry overwriting its code: the dict
   * holds at most one key per entry.
   */
  function Fold(es: seq<Option<(string, PriceEntry)>>): (m: PriceMap)
    ensures |m| <= |es|
  {
    if es == [] then map[]
    else
      var m := Fold(es[..|es| - 1]);
      match es[|es| - 1]
      case None => m
      case Some(entry) => m[entry.0 := entry.1]
  }

  /** Folding valid entries gives a valid index. */
  lemma {:induction false} FoldValid(es: seq<Option<(string, PriceEntry)>>)
    requires forall j :: 0 <= j < |es| ==> ValidEntry(es[j])
    ensures ValidIndex(Fold(es))
  {
    if es != [] {
      FoldValid(es[..|es| - 1]);
    }
  }

  /** The index after reading `rows` in order (cost_updater.py:45-63). */
  function IndexOf(rows: seq<Row>, cols: PriceColumns): (m: PriceMap)
    ensures ValidIndex(m)
  {
    var es := Entries(rows, cols);
    FoldValid(es);
    Fold(es)
  }

  /** The price-map loop (cost_updater.py:45-63). */
  method BuildPriceIndex(rows: seq<Row>, cols: PriceColumns) returns (index: PriceMap)
    ensures index == IndexOf(rows, cols)
    ensures ValidIndex(index)
  {
    ghost var es := Entries(rows, cols);
    index := map[];
    var i := 0;
    while i < |rows|
      invariant i <= |rows|
      invariant index == Fold(es[..i])
    {
      var stored := RowEntry(rows[i], cols);
      if stored.Some? {
        index := index[stored.value.0 := stored.value.1];
      }
      assert es[..i + 1][..i] == es[..i];
      i := i + 1;
    }
    assert es[..|rows|] == es;
  }

  /** A code is in the fold only if some entry stored it, and the last such entry is its value. */
  lemma {:induction false} FoldSound(es: seq<Option<(string, PriceEntry)>>, code: string)
    requires code in Fold(es)
    ensures exists j ::
      && 0 <= j < |es|
      && es[j] == Some((code, Fold(es)[code]))
      && forall k :: j < k < |es| ==> !Stores(es[k], code)
  {
    var last := |es| - 1;
    var init := es[..last];
    if !Stores(es[last], code) {
      FoldSound(init, code);
      var j :| 0 <= j < |init| && init[j] == Some((code, Fold(init)[code]))
        && forall k :: j < k < |init| ==> !Stores(init[k], code);
      assert forall k :: j < k < last ==> init[k] == es[k];
      assert es[j] == Some((code, Fold(es)[code]));
    }
  }

  /** The entry of the last entry storing a code is the value the fold keeps. */
  lemma {:induction false} FoldLastWins(es: seq<Option<(string, PriceEntry)>>, j: nat, code: string, e: PriceEntry)
    requires j < |es| && es[j] == Some((code, e))
    requires forall k :: j < k < |es| ==> !Stores(es[k], code)
    ensures code in Fold(es) && Fold(es)[code] == e
  {
    var last := |es| - 1;
    if j < last {
      var init := es[..last];
      assert forall k :: j <= k < |init| ==> init[k] == es[k];
      FoldLastWins(init, j, code, e);
      assert !Stores(es[last], code);
    }
  }

  /** Every code some entry stores is in the fold. */
  lemma {:induction false} FoldComplete(es: seq<Option<(string, PriceEntry)>>, j: nat, code: string)
    requires j < |es| && Stores(es[j], code)
    ensures code in Fold(es)
  {
    var last := |es| - 1;
    if j < last {
      assert es[..last][j] == es[j];
      FoldComplete(es[..last], j, code);
    }
  }

  /**
   * A row is stored exactly when all three columns exist, its stripped code text is non-empty
   * and its price parses; it is stored under that code, with that price and its pack quantity.
   */
  lemma RowEntryIff(row: Row, cols: PriceColumns)
    ensures RowEntry(row, cols).Some? <==>
      && cols.code < |row| && cols.price < |row| && cols.qty < |row|
      && Strip(CellText(row[cols.code])) != []
      && ToFloat(row[cols.price], NaN).Num?
    ensures RowEntry(row, cols).Some? ==>
      var e := RowEntry(row, cols).value;
      && e.0 == Strip(CellText(row[cols.code])) && Strip(e.0) == e.0
      && Num(e.1.price) == ToFloat(row[cols.price], NaN)
      && e.1.packQty == PackQty(ToFloat(row[cols.qty], NaN))
  {
    if cols.code < |row| {
      StripIdempotent(CellText(row[cols.code]));
    }
  }

  /**
   * A blank code cell is read as the text "nan" (cost_updater.py:49), so a row with a blank
   * code and a price that parses is stored under the key "nan".
   */
  lemma BlankCodeKeyedNan(row: Row, cols: PriceColumns)
    requires cols.code < |row| && cols.price < |row| && cols.qty < |row|
    requires row[cols.code].None? && ToFloat(row[cols.price], NaN).Num?
    ensures RowEntry(row, cols).Some? && RowEntry(row, cols).value.0 == "nan"
  {
    VisibleNotSpace('n');
    assert Strip("nan") == "nan";
  }

  /** Row `row` stores an entry under `code`. */
  predicate StoresCode(row: Row, cols: PriceColumns, code: string)
  {
    Stores(RowEntry(row, cols), code)
  }

  /** A code is in the index only if some row stored it, and then the last such row gave its entry. */
  lemma IndexSound(rows: seq<Row>, cols: PriceColumns, code: string)
    requires code in IndexOf(rows, cols)
    ensures exists j ::
      && 0 <= j < |rows|
      && RowEntry(rows[j], cols) == Some((code, IndexOf(rows, cols)[code]))
      && forall k :: j < k < |rows| ==> !StoresCode(rows[k], cols, code)
  {
    var es := Entries(rows, cols);
    FoldSound(es, code);
    var j :| 0 <= j < |es| && es[j] == Some((code, Fold(es)[code]))
      && forall k :: j < k < |es| ==> !Stores(es[k], code);
    assert RowEntry(rows[j], cols) == Some((code, IndexOf(rows, cols)[code]));
  }

  /** The entry of the last row that stores a code is the one the index keeps. */
  lemma IndexLastWriteWins(rows: seq<Row>, cols: PriceColumns, j: nat, code: string, e: PriceEntry)
    requires j < |rows| && RowEntry(rows[j], cols) == Some((code, e))
    requires forall k :: j < k < |rows| ==> !StoresCode(rows[k], cols, code)
    ensures code in IndexOf(rows, cols) && IndexOf(rows, cols)[code] == e
  {
    FoldLastWins(Entries(rows, cols), j, code, e);
  }

  /** Every code stored by some row is in the index. */
  lemma IndexComplete(rows: seq<Row>, cols: PriceColumns, j: nat, code: string)
    requires j < |rows| && StoresCode(rows[j], cols, code)
    ensures code in IndexOf(rows, cols)
  {
    FoldComplete(Entries(rows, cols), j, code);
  }

  /** A row with a column out of range leaves the index as it was. */
  lemma ShortRowSkipped(rows: seq<Row>, row: Row, cols: PriceColumns)
    requires cols.code >= |row| || cols.price >= |row| || cols.qty >= |row|
    ensures IndexOf(rows + [row], cols) == IndexOf(rows, cols)
  {
    var es := Entries(rows + [row], cols);
    assert es[..|rows|] == Entries(rows, cols);
  }

  /** The price-list row ("ABC", "50", "3") indexes "ABC" at unit price 50 in packs of 3. */
  lemma PriceRowExample(code: string, price: string, qty: string)
    requires code == "ABC" && price == "50" && qty == "3"
    ensures IndexOf([[Some(code), Some(price), Some(qty)]], PriceColumns(0, 1, 2)) == map[code := PriceEntry(50.0, 3.0)]
  {
    VisibleNotSpace('A');
    VisibleNotSpace('C');
    assert Strip(code) == code;
    assert price == NatToString(50);
    ToFloatNatRoundTrip(50, NaN);
    assert qty == NatToString(3);
    ToFloatNatRoundTrip(3, NaN);
    var es := Entries([[Some(code), Some(price), Some(qty)]], PriceColumns(0, 1, 2));
    assert es == [Some((code, PriceEntry(50.0, 3.0)))];
    assert es[..0] == [];
    assert Fold(es) == map[][code := PriceEntry(50.0, 3.0)];
  }
}
