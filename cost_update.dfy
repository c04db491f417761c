/**
 * The cost reconciliation: each marketplace row's article is parsed, looked up in the
 * price index, and a matched row gets cost = price * quantity written back into its
 * cost column; unmatched rows are listed, and a debug table keeps the first 500 rows.
 */
module CostUpdate {
  import opened Sheet
  import opened Numbers
  import opened Articles
  import opened PriceIndex

  /** Where the quantity of a matched row came from: the article's brackets or the price list. */
  datatype QtySource = FromBrackets | FromPriceList

  /**
   * One row of the debug table: the article, the code looked up, whether it was found,
   * the price, quantity and cost used (all zero when not found), and the formula tag
   * (None for the empty formula of an unmatched row).
   */
  datatype DebugRow = DebugRow(
    article: string, code: string, matched: bool,
    price: real, qty: real, cost: real, formula: Option<QtySource>)

  /** Where to read and write in the marketplace sheet. */
  datatype SheetLayout = SheetLayout(header: nat, artCol: nat, costCol: nat)

  /**
   * The debug entry of a present article, given how it parses (cost_updater.py:104-140): found
   * when its code is in the index, with the bracketed quantity if there is one and the pack
   * quantity otherwise, and cost = price * quantity; all zero when not found.
   */
  function Lookup(article: string, parsed: Parsed, index: PriceMap): (d: DebugRow)
    ensures d.article == article && d.code == parsed.code
    ensures d.matched <==> parsed.code in index
    ensures !d.matched ==> d.price == 0.0 && d.qty == 0.0 && d.cost == 0.0 && d.formula.None?
    ensures d.matched ==> d.cost == d.price * d.qty && d.price == index[parsed.code].price
    ensures d.matched && parsed.qty.Some? ==> d.qty == parsed.qty.value as real && d.formula == Some(FromBrackets)
    ensures d.matched && parsed.qty.None? ==> d.qty == index[parsed.code].packQty && d.formula == Some(FromPriceList)
  {
    if parsed.code in index then
      var e := index[parsed.code];
      var qty := if parsed.qty.Some? then parsed.qty.value as real else e.packQty;
      var source := if parsed.qty.Some? then FromBrackets else FromPriceList;
      DebugRow(article, parsed.code, true, e.price, qty, e.price * qty, Some(source))
    else
      DebugRow(article, parsed.code, false, 0.0, 0.0, 0.0, None)
  }

  /** A price list with non-negative prices and positive packs never gives a negative cost. */
  lemma LookupCostNonNegative(article: string, parsed: Parsed, index: PriceMap)
    requires ValidIndex(index)
    ensures Lookup(article, parsed, index).cost >= 0.0
  {
    var d := Lookup(article, parsed, index);
    if d.matched {
      assert d.price >= 0.0 && d.qty >= 0.0;
    }
  }

  /**
   * How one marketplace row is reconciled (cost_updater.py:96-140): None when the article
   * column is out of range or the article cell is blank, otherwise the lookup of its parse.
   */
  function Reconcile(row: Row, artCol: nat, index: PriceMap): (r: Option<DebugRow>)
    ensures r.None? <==> artCol >= |row| || row[artCol].None?
  {
    if artCol >= |row| || row[artCol].None? then None
    else
      var article := row[artCol].value;
      Some(Lookup(article, ParseArticle(article), index))
  }

  /** Every row's reconciliation, in order. */
  function Outcomes(rows: seq<Row>, artCol: nat, index: PriceMap): (outs: seq<Option<DebugRow>>)
    ensures |outs| == |rows|
    ensures forall j :: 0 <= j < |rows| ==> outs[j] == Reconcile(rows[j], artCol, index)
  {
    seq(|rows|, j requires 0 <= j < |rows| => Reconcile(rows[j], artCol, index))
  }

  // ---------------------------------------------------------------------------
  // What the loop accumulates

  /** The loop's results so far: the cells written, the found count, the missing rows and the debug table. */
  datatype Tally = Tally(writes: seq<CellWrite>, found: nat, missing: seq<(string, string)>, debug: seq<DebugRow>)

  /**
   * The bookkeeping for outcome `out` of row `i` (cost_updater.py:115-152): a found row gets its
   * cost written at Excel row `header + 2 + i`, column `costCol + 1`, and is counted; an
   * unmatched row is listed; either is added to the debug table while it has fewer than 500 rows.
   * Nothing recorded before is changed, a processed row counts once as found or as missing,
   * and the debug table never grows past 500.
   */
  function Record(t: Tally, out: Option<DebugRow>, i: nat, layout: SheetLayout): (t': Tally)
    ensures t.writes <= t'.writes && t.missing <= t'.missing && t.debug <= t'.debug
    ensures t'.found + |t'.missing| == t.found + |t.missing| + (if out.Some? then 1 else 0)
    ensures |t.debug| <= 500 ==> |t'.debug| <= 500
  {
    match out
    case None => t
    case Some(d) =>
      var t' :=
        if d.matched then
          t.(writes := t.writes + [CellWrite(layout.header + 2 + i, layout.costCol + 1, Num(d.cost))],
             found := t.found + 1)
        else t.(missing := t.missing + [(d.article, d.code)]);
      if |t.debug| < 500 then t'.(debug := t.debug + [d]) else t'
  }

  /**
   * The results after recording every outcome in order, starting from nothing: the debug
   * table holds at most 500 rows, and no more rows are found or missing than were read.
   */
  function TallyOf(outs: seq<Option<DebugRow>>, layout: SheetLayout): (t: Tally)
    ensures |t.debug| <= 500
    ensures t.found + |t.missing| <= |outs|
  {
    if outs == [] then Tally([], 0, [], [])
    else Record(TallyOf(outs[..|outs| - 1], layout), outs[|outs| - 1], |outs| - 1, layout)
  }

  /** The unmatched entries of a debug table, as (article, code) pairs, in order. */
  function Unmatched(ds: seq<DebugRow>): seq<(string, string)>
  {
    if ds == [] then []
    else
      var d := ds[|ds| - 1];
      Unmatched(ds[..|ds| - 1]) + if d.matched then [] else [(d.article, d.code)]
  }

  // ---------------------------------------------------------------------------
  // The loop

  /**
   * Reading and reconciling one row (cost_updater.py:96-140): an article column past the end
   * of the row or a blank article cell skips the row.
   */
  method ReconcileRow(row: Row, artCol: nat, index: PriceMap) returns (out: Option<DebugRow>)
    ensures out == Reconcile(row, artCol, index)
  {
    if artCol >= |row| {
      return None;
    }
    var cell := row[artCol];
    if cell.None? {
      return None;
    }
    var article := cell.value;
    var parsed := ParseArticle(article);
    out := Some(Lookup(article, parsed, index));
  }

  /** The bookkeeping of the loop body, branch by branch (cost_updater.py:115-152). */
  method RecordRow(t: Tally, out: Option<DebugRow>, i: nat, layout: SheetLayout) returns (t': Tally)
    ensures t' == Record(t, out, i, layout)
  {
    t' := t;
    if out.Some? {
      var d := out.value;
      if d.matched {
        t' := t'.(writes := t'.writes + [CellWrite(layout.header + 2 + i, layout.costCol + 1, Num(d.cost))]);
        t' := t'.(found := t'.found + 1);
      } else {
        t' := t'.(missing := t'.missing + [(d.article, d.code)]);
      }
      if |t'.debug| < 500 {
        t' := t'.(debug := t'.debug + [d]);
      }
    }
  }

  /** One pass of the loop body: processing row `i` extends the results of the rows before it. */
  method ProcessRow(rows: seq<Row>, i: nat, layout: SheetLayout, index: PriceMap, t: Tally) returns (t': Tally)
    requires i < |rows| && t == TallyOf(Outcomes(rows[..i], layout.artCol, index), layout)
    ensures t' == TallyOf(Outcomes(rows[..i + 1], layout.artCol, index), layout)
  {
    var out := ReconcileRow(rows[i], layout.artCol, index);
    t' := RecordRow(t, out, i, layout);
    ghost var prefix := rows[..i + 1];
    assert prefix[..i] == rows[..i];
    ghost var outs := Outcomes(prefix, layout.artCol, index);
    assert outs[..i] == Outcomes(rows[..i], layout.artCol, index);
  }

  /** The reconciliation loop over the marketplace rows (cost_updater.py:90-152). */
  method ReconcileRows(rows: seq<Row>, layout: SheetLayout, index: PriceMap) returns (t: Tally)
    ensures t == TallyOf(Outcomes(rows, layout.artCol, index), layout)
  {
    t := Tally([], 0, [], []);
    var i := 0;
    while i < |rows|
      invariant i <= |rows|
      invariant t == TallyOf(Outcomes(rows[..i], layout.artCol, index), layout)
    {
      t := ProcessRow(rows, i, layout, index, t);
      i := i + 1;
    }
    assert rows[..|rows|] == rows;
  }

  /** Both stages: build the price index, then reconcile the marketplace rows against it. */
  method ProcessCostUpdate(priceRows: seq<Row>, cols: PriceColumns, rows: seq<Row>, layout: SheetLayout)
    returns (t: Tally)
    ensures t == TallyOf(Outcomes(rows, layout.artCol, IndexOf(priceRows, cols)), layout)
  {
    var index := BuildPriceIndex(priceRows, cols);
    t := ReconcileRows(rows, layout, index);
  }

  // ---------------------------------------------------------------------------
  // Properties of the results

  /** Every processed row is either found or missing: `found_count + len(missing_rows)` counts them all. */
  lemma {:induction false} FoundPlusMissing(outs: seq<Option<DebugRow>>, layout: SheetLayout)
    ensures TallyOf(outs, layout).found + |TallyOf(outs, layout).missing| == |Present(outs)|
  {
    if outs != [] {
      FoundPlusMissing(outs[..|outs| - 1], layout);
    }
  }

  /** One cell is written per found row. */
  lemma {:induction false} WritesCount(outs: seq<Option<DebugRow>>, layout: SheetLayout)
    ensures |TallyOf(outs, layout).writes| == TallyOf(outs, layout).found
  {
    if outs != [] {
      WritesCount(outs[..|outs| - 1], layout);
    }
  }

  /** The missing list is the unmatched part of the full debug table, in input order. */
  lemma {:induction false} MissingIsUnmatched(outs: seq<Option<DebugRow>>, layout: SheetLayout)
    ensures TallyOf(outs, layout).missing == Unmatched(Present(outs))
  {
    if outs != [] {
      var init := outs[..|outs| - 1];
      MissingIsUnmatched(init, layout);
      match outs[|outs| - 1]
      case None =>
      case Some(d) =>
        var ds := Present(init) + [d];
        assert ds[..|ds| - 1] == Present(init);
    }
  }

  /** The debug table is the first min(500, processed) entries of the full table. */
  lemma {:induction false} DebugIsPrefix(outs: seq<Option<DebugRow>>, layout: SheetLayout)
    ensures var all := Present(outs);
      TallyOf(outs, layout).debug == if |all| <= 500 then all else all[..500]
  {
    if outs != [] {
      var init := outs[..|outs| - 1];
      DebugIsPrefix(init, layout);
      match outs[|outs| - 1]
      case None =>
      case Some(d) =>
        var all := Present(init) + [d];
        if |Present(init)| >= 500 {
          assert all[..500] == Present(init)[..500];
        }
    }
  }

  /** The writes go to strictly increasing rows, so no cell is written twice. */
  predicate RowsIncreasing(ws: seq<CellWrite>)
  {
    forall a, b :: 0 <= a < b < |ws| ==> ws[a].row < ws[b].row
  }

  /** Writes go to strictly increasing rows below the header, so no cell is written twice. */
  lemma {:induction false} WritesIncreasing(outs: seq<Option<DebugRow>>, layout: SheetLayout)
    ensures RowsIncreasing(TallyOf(outs, layout).writes)
    ensures forall w :: w in TallyOf(outs, layout).writes ==> layout.header + 2 <= w.row < layout.header + 2 + |outs|
  {
    if outs != [] {
      var i := |outs| - 1;
      var init := outs[..i];
      WritesIncreasing(init, layout);
      var prev := TallyOf(init, layout).writes;
      var ws := TallyOf(outs, layout).writes;
      if outs[i].Some? && outs[i].value.matched {
        var last := CellWrite(layout.header + 2 + i, layout.costCol + 1, Num(outs[i].value.cost));
        assert ws == prev + [last];
        forall a, b | 0 <= a < b < |ws|
          ensures ws[a].row < ws[b].row
        {
          assert ws[a] == prev[a];
          if b < |prev| {
            assert ws[b] == prev[b];
          } else {
            assert prev[a] in prev;
          }
        }
        forall w | w in ws
          ensures layout.header + 2 <= w.row < layout.header + 2 + |outs|
        {
          if w != last {
            assert w in prev;
          }
        }
      } else {
        assert ws == prev;
      }
    }
  }

  /** Every write belongs to a matched row, sits in that row's cost cell and carries its cost. */
  lemma {:induction false} WritesSound(outs: seq<Option<DebugRow>>, layout: SheetLayout, w: CellWrite)
    requires w in TallyOf(outs, layout).writes
    ensures exists i ::
      && 0 <= i < |outs| && outs[i].Some? && outs[i].value.matched
      && w == CellWrite(layout.header + 2 + i, layout.costCol + 1, Num(outs[i].value.cost))
  {
    var i := |outs| - 1;
    var init := outs[..i];
    if w in TallyOf(init, layout).writes {
      WritesSound(init, layout, w);
      var j :| 0 <= j < |init| && init[j].Some? && init[j].value.matched
        && w == CellWrite(layout.header + 2 + j, layout.costCol + 1, Num(init[j].value.cost));
      assert init[j] == outs[j];
    }
  }

  /** Every matched row gets its cost written in its own row of the cost column. */
  lemma {:induction false} WritesComplete(outs: seq<Option<DebugRow>>, layout: SheetLayout, i: nat)
    requires i < |outs| && outs[i].Some? && outs[i].value.matched
    ensures CellWrite(layout.header + 2 + i, layout.costCol + 1, Num(outs[i].value.cost)) in TallyOf(outs, layout).writes
  {
    var last := |outs| - 1;
    if i < last {
      assert outs[..last][i] == outs[i];
      WritesComplete(outs[..last], layout, i);
    }
  }

  /** A skipped or unmatched row gets no write in its Excel row. */
  lemma UnmatchedNotWritten(outs: seq<Option<DebugRow>>, layout: SheetLayout, i: nat)
    requires i < |outs| && (outs[i].None? || !outs[i].value.matched)
    ensures forall w :: w in TallyOf(outs, layout).writes ==> w.row != layout.header + 2 + i
  {
    forall w | w in TallyOf(outs, layout).writes
      ensures w.row != layout.header + 2 + i
    {
      WritesSound(outs, layout, w);
    }
  }

  // ---------------------------------------------------------------------------
  // Rows as the sheet gives them

  /** The number of rows whose article cell exists and is not blank. */
  function PresentCount(rows: seq<Row>, artCol: nat): nat
  {
    if rows == [] then 0
    else
      var last := rows[|rows| - 1];
      PresentCount(rows[..|rows| - 1], artCol) + if artCol < |last| && last[artCol].Some? then 1 else 0
  }

  /** The processed rows are exactly those with an article cell that exists and is not blank. */
  lemma {:induction false} ProcessedArePresent(rows: seq<Row>, artCol: nat, index: PriceMap)
    ensures |Present(Outcomes(rows, artCol, index))| == PresentCount(rows, artCol)
  {
    if rows != [] {
      var init := rows[..|rows| - 1];
      ProcessedArePresent(init, artCol, index);
      var outs := Outcomes(rows, artCol, index);
      assert outs[..|rows| - 1] == Outcomes(init, artCol, index);
    }
  }

  /** `found_count + len(missing_rows)` is the number of rows with a present article. */
  lemma CountsAddUp(rows: seq<Row>, layout: SheetLayout, index: PriceMap)
    ensures var t := TallyOf(Outcomes(rows, layout.artCol, index), layout);
      t.found + |t.missing| == PresentCount(rows, layout.artCol)
  {
    FoundPlusMissing(Outcomes(rows, layout.artCol, index), layout);
    ProcessedArePresent(rows, layout.artCol, index);
  }

  /**
   * Every cell written holds a number that is a non-negative cost, for a price list read into a
   * valid index, and it goes to the cost column of a row whose article code is in the index.
   */
  lemma WrittenCosts(rows: seq<Row>, layout: SheetLayout, index: PriceMap, w: CellWrite)
    requires ValidIndex(index)
    requires w in TallyOf(Outcomes(rows, layout.artCol, index), layout).writes
    ensures w.col == layout.costCol + 1 && w.value.Num? && w.value.r >= 0.0
    ensures exists i ::
      && 0 <= i < |rows| && w.row == layout.header + 2 + i
      && layout.artCol < |rows[i]| && rows[i][layout.artCol].Some?
      && ParseArticle(rows[i][layout.artCol].value).code in index
  {
    var outs := Outcomes(rows, layout.artCol, index);
    WritesSound(outs, layout, w);
    var i :| 0 <= i < |outs| && outs[i].Some? && outs[i].value.matched
      && w == CellWrite(layout.header + 2 + i, layout.costCol + 1, Num(outs[i].value.cost));
    var article := rows[i][layout.artCol].value;
    LookupCostNonNegative(article, ParseArticle(article), index);
  }

  // ---------------------------------------------------------------------------
  // Examples, with "ABC" priced 50 in packs of 3

  /** A plain "ABC" uses the price-list pack: 50 * 3 = 150. */
  lemma PackQuantityExample(code: string)
    requires code == "ABC"
    ensures Reconcile([Some(code)], 0, map[code := PriceEntry(50.0, 3.0)])
      == Some(DebugRow(code, code, true, 50.0, 3.0, 150.0, Some(FromPriceList)))
  {
    VisibleNotSpace('A');
    VisibleNotSpace('C');
    assert Strip(code) == code;
    assert FindMarker(code).None?;
  }

  /** "ABC(2)" in the second column uses the bracketed quantity: 50 * 2 = 100. */
  lemma BracketQuantityExample(code: string)
    requires code == "ABC"
    ensures Reconcile([None, Some(code + "(2)")], 1, map[code := PriceEntry(50.0, 3.0)])
      == Some(DebugRow(code + "(2)", code, true, 50.0, 2.0, 100.0, Some(FromBrackets)))
  {
    VisibleNotSpace('A');
    VisibleNotSpace('C');
    assert code + "(2)" == code + "(" + NatToString(2) + ")";
    ArticleRoundTrip(code, 2);
  }

  /** "XYZ(5)" is not in the index: it is listed as missing with all amounts zero. */
  lemma MissingExample(code: string, other: string)
    requires code == "ABC" && other == "XYZ"
    ensures Reconcile([Some(other + "(5)")], 0, map[code := PriceEntry(50.0, 3.0)])
      == Some(DebugRow(other + "(5)", other, false, 0.0, 0.0, 0.0, None))
  {
    VisibleNotSpace('X');
    VisibleNotSpace('Z');
    assert other + "(5)" == other + "(" + NatToString(5) + ")";
    ArticleRoundTrip(other, 5);
  }

  /**
   * From price list to written cost: the price-list row ("ABC", "50", "3") and a marketplace
   * sheet whose only row has "ABC" in its first column, with the header in the first sheet
   * row and the cost in the second column: one row is found, and 150 is written into Excel
   * row 2, column 2.
   */
  lemma PriceListToCostExample(code: string, price: string, qty: string)
    requires code == "ABC" && price == "50" && qty == "3"
    ensures var index := IndexOf([[Some(code), Some(price), Some(qty)]], PriceColumns(0, 1, 2));
      var t := TallyOf(Outcomes([[Some(code)]], 0, index), SheetLayout(0, 0, 1));
      t.writes == [CellWrite(2, 2, Num(150.0))] && t.found == 1 && t.missing == []
  {
    PriceRowExample(code, price, qty);
    var index := map[code := PriceEntry(50.0, 3.0)];
    PackQuantityExample(code);
    var outs := Outcomes([[Some(code)]], 0, index);
    assert outs == [Reconcile([Some(code)], 0, index)];
    assert outs[..0] == [];
  }
}
