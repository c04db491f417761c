/**
 * The selling-price calculator: for every row of a product sheet, the full-margin and
 * minimum-margin prices from the row's cost, commission and fixed fees, written back into
 * two destination columns.
 */
module SellingPrice {
  import opened Sheet
  import opened Numbers
  import opened PriceFormula

  /**
   * The calculator's settings, with every chosen column name already resolved to its
   * zero-based position in the sheet (None when the name is not a column of the sheet).
   */
  datatype PriceConfig = PriceConfig(
    cost: Option<nat>, commission: Option<nat>, fees: seq<Option<nat>>,
    marginStd: real, marginMin: real, step: real,
    destFull: Option<nat>, destMin: Option<nat>, header: nat)

  // ---------------------------------------------------------------------------
  // The fee columns

  /** The `idx_fixes` loop (app.py:68-71): keep the position of every fee column that resolved. */
  method CollectFeeColumns(fees: seq<Option<nat>>) returns (idxs: seq<nat>)
    ensures idxs == Present(fees)
  {
    idxs := [];
    var i := 0;
    while i < |fees|
      invariant i <= |fees|
      invariant idxs == Present(fees[..i])
    {
      var ix := fees[i];
      if ix.Some? {
        idxs := idxs + [ix.value];
      }
      assert fees[..i + 1][..i] == fees[..i];
      i := i + 1;
    }
    assert fees[..|fees|] == fees;
  }

  // ---------------------------------------------------------------------------
  // One row

  /** `row.iloc[idx]`: raises when the column did not resolve or is past the end of the row. */
  function CellAt(row: Row, idx: Option<nat>): Outcome<Cell>
  {
    if idx.Some? && idx.value < |row| then Ok(row[idx.value]) else Raises
  }

  /**
   * `sum(to_float(row.iloc[ix]) for ix in idxs)`: a sum from 0, left to right, in which an
   * unparseable fee is NaN and makes the whole sum NaN, and a column past the row's end raises.
   */
  function FeeSum(row: Row, idxs: seq<nat>): (r: Outcome<Float>)
    ensures r.Ok? && r.value.Num? ==> r.value.r >= 0.0
  {
    if idxs == [] then Ok(Num(0.0))
    else
      match FeeSum(row, idxs[..|idxs| - 1])
      case Raises => Raises
      case Ok(total) =>
        match CellAt(row, Some(idxs[|idxs| - 1]))
        case Raises => Raises
        case Ok(c) => Ok(Add(total, ToFloat(c, NaN)))
  }

  /** The fee sum raises exactly when some fee column lies past the end of the row. */
  lemma {:induction false} FeeSumRaisesIff(row: Row, idxs: seq<nat>)
    ensures FeeSum(row, idxs).Raises? <==> exists ix :: ix in idxs && ix >= |row|
  {
    if idxs != [] {
      var init := idxs[..|idxs| - 1];
      var last := idxs[|idxs| - 1];
      FeeSumRaisesIff(row, init);
      assert idxs == init + [last];
      assert last in idxs;
      assert forall ix :: ix in init ==> ix in idxs;
      if !FeeSum(row, init).Raises? && last < |row| {
        forall ix | ix in idxs
          ensures ix < |row|
        {
          assert ix in init || ix == last;
        }
      }
    }
  }

  /**
   * A fee sum that does not raise is NaN exactly when some fee cell does not parse, and is
   * otherwise a non-negative number (the parser drops signs).
   */
  lemma {:induction false} FeeSumValue(row: Row, idxs: seq<nat>)
    requires forall ix :: ix in idxs ==> ix < |row|
    ensures FeeSum(row, idxs).Ok?
    ensures FeeSum(row, idxs).value.NaN? <==> exists ix :: ix in idxs && ToFloat(row[ix], NaN).NaN?
    ensures FeeSum(row, idxs).value.Num? ==> FeeSum(row, idxs).value.r >= 0.0
  {
    if idxs != [] {
      var init := idxs[..|idxs| - 1];
      var last := idxs[|idxs| - 1];
      assert idxs == init + [last];
      assert last in idxs;
      assert forall ix :: ix in init ==> ix in idxs;
      FeeSumValue(row, init);
      var total := FeeSum(row, init).value;
      assert FeeSum(row, idxs) == Ok(Add(total, ToFloat(row[last], NaN)));
      if FeeSum(row, idxs).value.NaN? {
        if total.Num? {
          assert ToFloat(row[last], NaN).NaN?;
        }
      } else {
        forall ix | ix in idxs
          ensures ToFloat(row[ix], NaN).Num?
        {
          assert ix in init || ix == last;
        }
      }
    }
  }

  /** A single fee column in range sums to that fee alone. */
  lemma FeeSumSingle(row: Row, ix: nat)
    requires ix < |row|
    ensures FeeSum(row, [ix]) == Ok(Add(Num(0.0), ToFloat(row[ix], NaN)))
  {
    assert [ix][..0] == [];
  }

  /** What the two `calc` calls give for one row: the full-margin and the minimum-margin price. */
  datatype Prices = Prices(full: Option<Float>, min: Option<Float>)

  /**
   * The body of the `try` for one row (app.py:76-88): read the cost, the commission and the
   * fees, then price the row at the standard margin and at the minimum margin. Any step
   * that raises makes the whole row raise.
   */
  function RowPrices(row: Row, cfg: PriceConfig, fixes: seq<nat>): (r: Outcome<Prices>)
    ensures r.Ok? ==>
      && cfg.cost.Some? && cfg.cost.value < |row| && cfg.commission.Some? && cfg.commission.value < |row|
      && (r.value.full.Some? || r.value.min.Some? ==> ToFloat(row[cfg.cost.value], NaN).Num?)
  {
    match CellAt(row, cfg.cost)
    case Raises => Raises
    case Ok(costCell) =>
      match CellAt(row, cfg.commission)
      case Raises => Raises
      case Ok(commissionCell) =>
        match FeeSum(row, fixes)
        case Raises => Raises
        case Ok(fix) =>
          var cost := ToFloat(costCell, NaN);
          var commission := ToFraction(commissionCell);
          match Calc(cost, commission, fix, cfg.marginStd, cfg.step)
          case Raises => Raises
          case Ok(full) =>
            match Calc(cost, commission, fix, cfg.marginMin, cfg.step)
            case Raises => Raises
            case Ok(min) => Ok(Prices(full, min))
  }

  /** Python truthiness of a `calc` result: None and 0.0 are false, NaN and any other number true. */
  predicate Truthy(p: Option<Float>)
  {
    match p
    case None => false
    case Some(NaN) => true
    case Some(Num(x)) => x != 0.0
  }

  /** One entry of `results`: the row's position and its two prices. */
  datatype PriceResult = PriceResult(idx: nat, full: Option<Float>, min: Option<Float>)

  /**
   * What row `i` adds to `results`: an entry at its own position exactly when pricing it does
   * not raise and at least one of its prices is truthy.
   */
  function RowResult(row: Row, i: nat, cfg: PriceConfig, fixes: seq<nat>): (r: Option<PriceResult>)
    ensures r.Some? ==> r.value.idx == i && (Truthy(r.value.full) || Truthy(r.value.min))
    ensures r.Some? <==>
      && RowPrices(row, cfg, fixes).Ok?
      && (Truthy(RowPrices(row, cfg, fixes).value.full) || Truthy(RowPrices(row, cfg, fixes).value.min))
  {
    match RowPrices(row, cfg, fixes)
    case Raises => None
    case Ok(ps) => if Truthy(ps.full) || Truthy(ps.min) then Some(PriceResult(i, ps.full, ps.min)) else None
  }

  /** What each row adds to `results`, row by row. */
  function Outcomes(rows: seq<Row>, cfg: PriceConfig, fixes: seq<nat>): (outs: seq<Option<PriceResult>>)
    ensures |outs| == |rows|
    ensures forall j :: 0 <= j < |rows| ==> outs[j] == RowResult(rows[j], j, cfg, fixes)
  {
    seq(|rows|, j requires 0 <= j < |rows| => RowResult(rows[j], j, cfg, fixes))
  }

  /** The `results` list after the rows in order. */
  function Results(rows: seq<Row>, cfg: PriceConfig, fixes: seq<nat>): seq<PriceResult>
  {
    Present(Outcomes(rows, cfg, fixes))
  }

  // ---------------------------------------------------------------------------
  // The row loop

  /** The body of the row loop (app.py:76-90), with the `except` skipping a row that raises. */
  method EvaluateRow(row: Row, i: nat, cfg: PriceConfig, fixes: seq<nat>) returns (res: Option<PriceResult>)
    ensures res == RowResult(row, i, cfg, fixes)
  {
    var costCell := CellAt(row, cfg.cost);
    if costCell.Raises? {
      return None;
    }
    var commissionCell := CellAt(row, cfg.commission);
    if commissionCell.Raises? {
      return None;
    }
    var fix := FeeSum(row, fixes);
    if fix.Raises? {
      return None;
    }
    var cost := ToFloat(costCell.value, NaN);
    var commission := ToFraction(commissionCell.value);
    var full := Calc(cost, commission, fix.value, cfg.marginStd, cfg.step);
    if full.Raises? {
      return None;
    }
    var min := Calc(cost, commission, fix.value, cfg.marginMin, cfg.step);
    if min.Raises? {
      return None;
    }
    if Truthy(full.value) || Truthy(min.value) {
      res := Some(PriceResult(i, full.value, min.value));
    } else {
      res := None;
    }
  }

  /** One pass of the row loop: row `i` extends the results of the rows before it. */
  method ProcessRow(rows: seq<Row>, i: nat, cfg: PriceConfig, fixes: seq<nat>, results: seq<PriceResult>)
    returns (results': seq<PriceResult>)
    requires i < |rows| && results == Present(Outcomes(rows, cfg, fixes)[..i])
    ensures results' == Present(Outcomes(rows, cfg, fixes)[..i + 1])
  {
    var res := EvaluateRow(rows[i], i, cfg, fixes);
    results' := results;
    if res.Some? {
      results' := results' + [res.value];
    }
    ghost var outs := Outcomes(rows, cfg, fixes);
    assert outs[..i + 1][..i] == outs[..i];
  }

  /** The row loop (app.py:73-92). */
  method ComputeResults(rows: seq<Row>, cfg: PriceConfig, fixes: seq<nat>) returns (results: seq<PriceResult>)
    ensures results == Results(rows, cfg, fixes)
  {
    results := [];
    var i := 0;
    while i < |rows|
      invariant i <= |rows|
      invariant results == Present(Outcomes(rows, cfg, fixes)[..i])
    {
      results := ProcessRow(rows, i, cfg, fixes, results);
      i := i + 1;
    }
    assert Outcomes(rows, cfg, fixes)[..|rows|] == Outcomes(rows, cfg, fixes);
  }

  // ---------------------------------------------------------------------------
  // Properties of the results

  /** Every entry present at position `j` of `outs` carries `j` as its row position. */
  predicate Indexed(outs: seq<Option<PriceResult>>)
  {
    forall j :: 0 <= j < |outs| && outs[j].Some? ==> outs[j].value.idx == j
  }

  /** The entries have strictly increasing row positions. */
  predicate IdxIncreasing(rs: seq<PriceResult>)
  {
    forall a, b :: 0 <= a < b < |rs| ==> rs[a].idx < rs[b].idx
  }

  /** Keeping the entries that carry their own positions gives strictly increasing positions. */
  lemma {:induction false} IndexedIncreasing(outs: seq<Option<PriceResult>>)
    requires Indexed(outs)
    ensures IdxIncreasing(Present(outs))
    ensures forall r :: r in Present(outs) ==> r.idx < |outs|
  {
    if outs != [] {
      var i := |outs| - 1;
      var init := outs[..i];
      assert Indexed(init) by {
        forall j | 0 <= j < |init| && init[j].Some?
          ensures init[j].value.idx == j
        {
          assert init[j] == outs[j];
        }
      }
      IndexedIncreasing(init);
      var prev := Present(init);
      var rs := Present(outs);
      match outs[i]
      case None =>
      case Some(last) =>
        assert rs == prev + [last];
        forall a, b | 0 <= a < b < |rs|
          ensures rs[a].idx < rs[b].idx
        {
          assert rs[a] == prev[a];
          if b < |prev| {
            assert rs[b] == prev[b];
          } else {
            assert prev[a] in prev;
          }
        }
        forall r | r in rs
          ensures r.idx < |outs|
        {
          if r != last {
            assert r in prev;
          }
        }
    }
  }

  /** Every entry of `results` is the result of its own row. */
  lemma ResultsSound(rows: seq<Row>, cfg: PriceConfig, fixes: seq<nat>, r: PriceResult)
    requires r in Results(rows, cfg, fixes)
    ensures r.idx < |rows| && RowResult(rows[r.idx], r.idx, cfg, fixes) == Some(r)
  {
    var outs := Outcomes(rows, cfg, fixes);
    PresentSound(outs, r);
    var j :| 0 <= j < |outs| && outs[j] == Some(r);
  }

  /** Every row with a result is in `results`. */
  lemma ResultsComplete(rows: seq<Row>, cfg: PriceConfig, fixes: seq<nat>, i: nat)
    requires i < |rows| && RowResult(rows[i], i, cfg, fixes).Some?
    ensures RowResult(rows[i], i, cfg, fixes).value in Results(rows, cfg, fixes)
  {
    PresentComplete(Outcomes(rows, cfg, fixes), i);
  }

  /** The results are in row order, with at most one entry per row, all within the sheet. */
  lemma ResultsIncreasing(rows: seq<Row>, cfg: PriceConfig, fixes: seq<nat>)
    ensures IdxIncreasing(Results(rows, cfg, fixes))
    ensures forall r :: r in Results(rows, cfg, fixes) ==> r.idx < |rows|
  {
    var outs := Outcomes(rows, cfg, fixes);
    IndexedIncreasing(outs);
  }

  /**
   * A row gets a result only when its cost, commission and fee columns all exist, its cost
   * parses to a number, and at least one of its prices is truthy.
   */
  lemma RowResultFacts(row: Row, i: nat, cfg: PriceConfig, fixes: seq<nat>)
    requires RowResult(row, i, cfg, fixes).Some?
    ensures var r := RowResult(row, i, cfg, fixes).value;
      && (Truthy(r.full) || Truthy(r.min))
      && cfg.cost.Some? && cfg.cost.value < |row| && ToFloat(row[cfg.cost.value], NaN).Num?
      && cfg.commission.Some? && cfg.commission.value < |row|
      && forall ix :: ix in fixes ==> ix < |row|
  {
    FeeSumRaisesIff(row, fixes);
  }

  /** A fee column past the end of a row makes the row raise, so it gets no result. */
  lemma FeeMissingSkipsRow(row: Row, i: nat, cfg: PriceConfig, fixes: seq<nat>, ix: nat)
    requires ix in fixes && ix >= |row|
    ensures RowResult(row, i, cfg, fixes).None?
  {
    FeeSumRaisesIff(row, fixes);
  }

  /**
   * With a positive step, a fee cell that does not parse makes the fee sum NaN, so the row
   * either gets no price or raises in `math.ceil`: either way it is left out of the results.
   */
  lemma NanFeeSkipsRow(row: Row, i: nat, cfg: PriceConfig, fixes: seq<nat>, ix: nat)
    requires cfg.step > 0.0
    requires forall j :: j in fixes ==> j < |row|
    requires ix in fixes && ToFloat(row[ix], NaN).NaN?
    ensures RowResult(row, i, cfg, fixes).None?
  {
    FeeSumValue(row, fixes);
  }

  /** Without a resolved cost column every row raises, and there are no results. */
  lemma NoCostColumnNoResults(rows: seq<Row>, cfg: PriceConfig, fixes: seq<nat>)
    requires cfg.cost.None?
    ensures Results(rows, cfg, fixes) == []
  {
    PresentNone(Outcomes(rows, cfg, fixes));
  }

  /** Margins of 99 % or more leave no room for a price: one row gets none. */
  lemma NoMarginRoomNoResult(row: Row, i: nat, cfg: PriceConfig, fixes: seq<nat>)
    requires cfg.marginStd >= 0.99 && cfg.marginMin >= 0.99
    ensures RowResult(row, i, cfg, fixes).None?
  {
  }

  /**
   * Margins of 99 % or more leave no room for any commission: both denominators are at most
   * 0.01, so no row is priced.
   */
  lemma NoMarginRoomNoResults(rows: seq<Row>, cfg: PriceConfig, fixes: seq<nat>)
    requires cfg.marginStd >= 0.99 && cfg.marginMin >= 0.99
    ensures Results(rows, cfg, fixes) == []
  {
    var outs := Outcomes(rows, cfg, fixes);
    forall j | 0 <= j < |outs|
      ensures outs[j].None?
    {
      NoMarginRoomNoResult(rows[j], j, cfg, fixes);
    }
    PresentNone(outs);
  }

  /**
   * A price in the results is NaN (unparseable fees with no rounding step) or a positive
   * number, and with a positive step it is a whole number of steps.
   */
  lemma ResultPrices(row: Row, i: nat, cfg: PriceConfig, fixes: seq<nat>)
    requires RowResult(row, i, cfg, fixes).Some?
    ensures var r := RowResult(row, i, cfg, fixes).value;
      && (Truthy(r.full) && r.full.value.Num? ==> r.full.value.r > 0.0)
      && (Truthy(r.min) && r.min.value.Num? ==> r.min.value.r > 0.0)
      && (cfg.step > 0.0 && r.full.Some? ==> r.full.value.Num? && MultipleOf(r.full.value.r, cfg.step))
      && (cfg.step > 0.0 && r.min.Some? ==> r.min.value.Num? && MultipleOf(r.min.value.r, cfg.step))
  {
    RowResultFacts(row, i, cfg, fixes);
    FeeSumValue(row, fixes);
    var cost := ToFloat(row[cfg.cost.value], NaN);
    var commission := ToFraction(row[cfg.commission.value]);
    var fix := FeeSum(row, fixes).value;
    var r := RowResult(row, i, cfg, fixes).value;
    if r.full.Some? && r.full.value.Num? {
      CalcPrice(cost, commission, fix, cfg.marginStd, cfg.step, r.full.value.r);
    }
    if r.min.Some? && r.min.value.Num? {
      CalcPrice(cost, commission, fix, cfg.marginMin, cfg.step, r.min.value.r);
    }
  }

  // ---------------------------------------------------------------------------
  // Writing the prices back

  /**
   * The cells one result writes, at Excel row `header + 2 + idx`: the full price into the
   * full-price column when it is truthy and the column resolved, then the minimum price likewise.
   */
  function ItemWrites(item: PriceResult, cfg: PriceConfig): (ws: seq<CellWrite>)
    ensures |ws| <= 2
    ensures forall w :: w in ws ==> WrittenFor(w, item, cfg)
    ensures Truthy(item.full) && cfg.destFull.Some? && Truthy(item.min) && cfg.destMin.Some? ==>
      && |ws| == 2
      && ws[0] == CellWrite(cfg.header + 2 + item.idx, cfg.destFull.value + 1, item.full.value)
      && ws[1] == CellWrite(cfg.header + 2 + item.idx, cfg.destMin.value + 1, item.min.value)
  {
    var r := cfg.header + 2 + item.idx;
    (if Truthy(item.full) && cfg.destFull.Some? then [CellWrite(r, cfg.destFull.value + 1, item.full.value)] else [])
    + (if Truthy(item.min) && cfg.destMin.Some? then [CellWrite(r, cfg.destMin.value + 1, item.min.value)] else [])
  }

  /** Every write of the results, in order: at most two cells per result. */
  function PlanWrites(results: seq<PriceResult>, cfg: PriceConfig): (ws: seq<CellWrite>)
    ensures |ws| <= 2 * |results|
  {
    if results == [] then []
    else PlanWrites(results[..|results| - 1], cfg) + ItemWrites(results[|results| - 1], cfg)
  }

  /** The write loop (app.py:99-108): the cells written, and `cnt`, which counts every result. */
  method WritePrices(results: seq<PriceResult>, cfg: PriceConfig) returns (writes: seq<CellWrite>, cnt: nat)
    ensures writes == PlanWrites(results, cfg)
    ensures cnt == |results|
  {
    writes := [];
    cnt := 0;
    var k := 0;
    while k < |results|
      invariant k <= |results| && cnt == k
      invariant writes == PlanWrites(results[..k], cfg)
    {
      var item := results[k];
      var r := cfg.header + 2 + item.idx;
      var w := writes;
      if Truthy(item.full) && cfg.destFull.Some? {
        w := w + [CellWrite(r, cfg.destFull.value + 1, item.full.value)];
      }
      if Truthy(item.min) && cfg.destMin.Some? {
        w := w + [CellWrite(r, cfg.destMin.value + 1, item.min.value)];
      }
      assert w == writes + ItemWrites(item, cfg);
      writes := w;
      cnt := cnt + 1;
      assert results[..k + 1][..k] == results[..k];
      k := k + 1;
    }
    assert results[..|results|] == results;
  }

  /**
   * `w` is a write `item` asks for: in its Excel row, either its truthy full price in the
   * full-price column or its truthy minimum price in the minimum-price column.
   */
  predicate WrittenFor(w: CellWrite, item: PriceResult, cfg: PriceConfig)
  {
    && w.row == cfg.header + 2 + item.idx
    && ((Truthy(item.full) && cfg.destFull.Some? && w.col == cfg.destFull.value + 1 && w.value == item.full.value)
        || (Truthy(item.min) && cfg.destMin.Some? && w.col == cfg.destMin.value + 1 && w.value == item.min.value))
  }

  /**
   * Every write comes from some result: it goes to that result's Excel row and either puts
   * its truthy full price into the full-price column or its truthy minimum price into the
   * minimum-price column.
   */
  lemma {:induction false} WritesSound(results: seq<PriceResult>, cfg: PriceConfig, w: CellWrite)
    requires w in PlanWrites(results, cfg)
    ensures exists item :: item in results && WrittenFor(w, item, cfg)
  {
    var init := results[..|results| - 1];
    var last := results[|results| - 1];
    if w in PlanWrites(init, cfg) {
      WritesSound(init, cfg, w);
      var item :| item in init && WrittenFor(w, item, cfg);
      assert item in results;
    } else {
      assert w in ItemWrites(last, cfg);
      assert WrittenFor(w, last, cfg);
      assert last in results;
    }
  }

  /** A truthy full price is written to its row whenever the full-price column resolved, and so is a truthy minimum price. */
  lemma {:induction false} WritesComplete(results: seq<PriceResult>, cfg: PriceConfig, k: nat)
    requires k < |results|
    ensures var item := results[k];
      && (Truthy(item.full) && cfg.destFull.Some? ==>
            CellWrite(cfg.header + 2 + item.idx, cfg.destFull.value + 1, item.full.value) in PlanWrites(results, cfg))
      && (Truthy(item.min) && cfg.destMin.Some? ==>
            CellWrite(cfg.header + 2 + item.idx, cfg.destMin.value + 1, item.min.value) in PlanWrites(results, cfg))
  {
    var last := |results| - 1;
    if k < last {
      assert results[..last][k] == results[k];
      WritesComplete(results[..last], cfg, k);
    }
  }

  /** Without destination columns nothing is written, whatever the results. */
  lemma {:induction false} NoDestinationNoWrites(results: seq<PriceResult>, cfg: PriceConfig)
    requires cfg.destFull.None? && cfg.destMin.None?
    ensures PlanWrites(results, cfg) == []
  {
    if results != [] {
      NoDestinationNoWrites(results[..|results| - 1], cfg);
    }
  }

  // ---------------------------------------------------------------------------
  // The whole calculation

  /**
   * `process_selling_price` on a sheet whose column names have been resolved: collect the
   * fee columns, price the rows, write the prices; `cnt` is the number of rows priced.
   */
  method ProcessSellingPrice(rows: seq<Row>, cfg: PriceConfig) returns (writes: seq<CellWrite>, cnt: nat)
    ensures var results := Results(rows, cfg, Present(cfg.fees));
      writes == PlanWrites(results, cfg) && cnt == |results|
  {
    var fixes := CollectFeeColumns(cfg.fees);
    var results := ComputeResults(rows, cfg, fixes);
    writes, cnt := WritePrices(results, cfg);
  }

  /**
   * Every cell the calculator writes is in a data row of the sheet, in one of the two
   * destination columns, and holds NaN or a positive price, a whole number of steps when the
   * step is positive.
   */
  lemma WrittenPrices(rows: seq<Row>, cfg: PriceConfig, w: CellWrite)
    requires w in PlanWrites(Results(rows, cfg, Present(cfg.fees)), cfg)
    ensures cfg.header + 2 <= w.row < cfg.header + 2 + |rows|
    ensures (cfg.destFull.Some? && w.col == cfg.destFull.value + 1) || (cfg.destMin.Some? && w.col == cfg.destMin.value + 1)
    ensures w.value.Num? ==> w.value.r > 0.0
    ensures cfg.step > 0.0 ==> w.value.Num? && MultipleOf(w.value.r, cfg.step)
  {
    var fixes := Present(cfg.fees);
    var results := Results(rows, cfg, fixes);
    WritesSound(results, cfg, w);
    var item :| item in results && WrittenFor(w, item, cfg);
    ResultsSound(rows, cfg, fixes, item);
    ResultPrices(rows[item.idx], item.idx, cfg, fixes);
  }

  // ---------------------------------------------------------------------------
  // Examples: cost in column 0, commission in column 1, one fee in column 2

  /** The configuration of the examples: margins 15 % and 5 %, prices in steps of 10, written to columns 3 and 4. */
  function ExampleConfig(): PriceConfig
  {
    PriceConfig(Some(0), Some(1), [Some(2)], 0.15, 0.05, 10.0, Some(3), Some(4), 0)
  }

  /**
   * A row whose cells read as cost 100, commission 10 % and fee 20 ("100", "10" and "20",
   * say): the full price is 120 / 0.75 = 160 and the minimum price 120 / 0.85 = 141.18...,
   * rounded up to 150.
   */
  lemma PricedRowExample(row: Row, i: nat)
    requires |row| == 3
    requires ToFloat(row[0], NaN) == Num(100.0) && ToFraction(row[1]) == 0.1 && ToFloat(row[2], NaN) == Num(20.0)
    ensures RowResult(row, i, ExampleConfig(), [2]) == Some(PriceResult(i, Some(Num(160.0)), Some(Num(150.0))))
  {
    FeeSumSingle(row, 2);
    CalcExample();
    CalcRoundsUpExample();
  }

  /** The cells "100", "10" and "20" read as cost 100, commission 10 % and fee 20. */
  lemma PricedRowCells(cost: string, commission: string, fee: string)
    requires cost == "100" && commission == "10" && fee == "20"
    ensures ToFloat(Some(cost), NaN) == Num(100.0)
    ensures ToFraction(Some(commission)) == 0.1
    ensures ToFloat(Some(fee), NaN) == Num(20.0)
  {
    assert cost == NatToString(100);
    ToFloatNatRoundTrip(100, NaN);
    assert commission == NatToString(10);
    ToFractionPercent(10);
    assert fee == NatToString(20);
    ToFloatNatRoundTrip(20, NaN);
  }

  /** Cost 0 with a zero fee prices at 0, which is falsy, so the row is left out of the results. */
  lemma ZeroPriceRowExample(row: Row, i: nat)
    requires |row| == 3
    requires ToFloat(row[0], NaN) == Num(0.0) && ToFraction(row[1]) == 0.1 && ToFloat(row[2], NaN) == Num(0.0)
    ensures RowResult(row, i, ExampleConfig(), [2]).None?
  {
    FeeSumSingle(row, 2);
    CalcFree(0.1, 0.15, 10.0);
    CalcFree(0.1, 0.05, 10.0);
  }
}
