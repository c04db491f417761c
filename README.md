# Ozon price calculator: cost reconciliation and selling-price calculator

The tool works on spreadsheets of products sold on the Ozon marketplace and has two stages.

1. **Cost reconciliation** (`cost_updater.py`):
   - It reads a supplier price list into an index that maps a supplier code to its unit price and pack size.
   - Then it goes through the marketplace sheet. For each row it parses the article (`UT-001(10)` is code `UT-001`, quantity 10) and looks the code up.
   - It writes `price * quantity` into the cost column of every matched row.
   - It lists the unmatched articles and keeps a debug table of the first 500 processed rows.
2. **Selling-price calculator** (`app.py`):
   - For every row of a product sheet it reads the cost, the marketplace commission and the fixed fees.
   - It computes a price at the standard margin and one at the minimum margin: `(cost + fees) / (1 - (commission + margin))`, rounded up to a price step.
   - It writes both prices into two destination columns.

Both stages read numbers from cell text with the same forgiving parser, `to_float`:
- it strips the text, drops non-breaking spaces and spaces, and turns commas into dots;
- it keeps only digits and dots, and falls back to a default when `float()` refuses the result.

Modules:
- `Sheet`: cells, Python floats with NaN, exceptions caught per row, cell writes, and `Present`, the filter that keeps the values that are not None (the resolved fee columns, the priced rows, the processed rows).
- `Numbers`: `str.strip`, the `to_float` normaliser, and `float()` on digit-and-dot strings.
- `Articles`: `parse_article_quantity`, with its regular expression as a predicate.
- `PriceIndex`: the price-list loop.
- `CostUpdate`: the reconciliation loop.
- `PriceFormula`: `ceil_to_step`, `to_fraction` and the `calc` closure.
- `SellingPrice`: the fee columns, the row loop and the write loop of `process_selling_price`.

Every loop is a method proved against a function of its input. The properties are proved about those functions.

A cell is `None` when it is blank (pandas NaN). Otherwise it is `Some(text)`, holding the cell's `str()` text. An exception that the source catches for one row is the `Raises` outcome, and that row is skipped.

## Model

| member | source | states |
|---|---|---|
| Numbers.Strip | cost_updater.py:12 | The result has no whitespace at either end. Text without whitespace at its ends is returned unchanged. |
| Numbers.StripFrame | cost_updater.py:12 | The input is the stripped text framed by whitespace only: stripping removes nothing but leading and trailing whitespace. |
| Numbers.StripIdempotent | cost_updater.py:12 | Stripping twice is stripping once. |
| Numbers.Normalize | cost_updater.py:12-14 | The text handed to `float()` consists only of digits and dots. |
| Numbers.NormalizeIsFiltered | cost_updater.py:12-14 | Stripping and removing spaces and non-breaking spaces change nothing the digit filter keeps. Normalising is: commas to dots, then keep digits and dots. |
| Numbers.NormalizeIgnores | cost_updater.py:12-14 | Inserting a character that is not a digit, dot or comma (a letter, a currency sign, a minus sign, a space) anywhere leaves the normalised text unchanged. |
| Numbers.FilteredDots | cost_updater.py:12-14 | The number of dots in the filtered text is the number of commas plus the number of dots in the input. |
| Numbers.ParseFloat | cost_updater.py:16 | `float()` on a digit-and-dot string, when it succeeds, is non-negative. |
| Numbers.FloatSyntaxIff | cost_updater.py:16 | On a digit-and-dot string, `float()` succeeds exactly when there is at most one dot and at least one digit. |
| Numbers.ToFloat | cost_updater.py:9-18 | A blank cell gives the default. Any other result is the default or a non-negative number, and the function never raises. |
| Numbers.ToFloatParsesIff | cost_updater.py:9-18 | The text parses to a number exactly when its normalised form has a digit and at most one dot. Otherwise the default is returned. |
| Numbers.TwoSeparatorsGiveDefault | cost_updater.py:9-18 | Text with two or more separators (commas or dots in total) gives the default. |
| Numbers.ParseDecimal | cost_updater.py:16 | `whole.frac` parses to the value of `whole` plus the decimal value of `frac`, when at least one side has digits: ".5" is 0.5 and "5." is 5. |
| Numbers.NormalizeDecimalComma | cost_updater.py:12-14 | A decimal comma between two digit runs normalises to a decimal point. |
| Numbers.ToFloatDecimalComma | cost_updater.py:9-18 | `whole,frac` reads as `whole + 0.frac` when at least one side has digits: a decimal comma is honoured. |
| Numbers.LeadingCommaExample | cost_updater.py:9-18 | ",5" reads as 0.5: digits are needed on one side of the comma only. |
| Numbers.NatToStringRoundTrip | cost_updater.py:29 | The decimal digits of `n` read back as `n`, as `int()` does on the bracketed quantity. |
| Numbers.ToFloatNatRoundTrip | cost_updater.py:9-18 | The decimal text of a whole number reads back as that number. |
| Numbers.ToFloatIgnores | cost_updater.py:9-18 | Inserting a character that is not a digit, dot or comma does not change the result. |
| Numbers.ToFloatGroupedExample | cost_updater.py:10 | "1 200,00" (space-grouped, decimal comma) reads as 1200, as the docstring says. |
| Numbers.ToFloatCommaThousandsExample | cost_updater.py:10-18 | "1,200.00" gives the default, not the 1200 the docstring promises. |
| Numbers.ToFloatDropsSign | cost_updater.py:14 | A leading minus sign is filtered away: "-x" reads as "x". |
| Articles.DigitRunStart | cost_updater.py:26 | The returned position starts a run of digits that ends at the given end, and the run cannot be extended to the left. |
| Articles.FindMarker | cost_updater.py:26 | A bracket position it returns is a match of `^(.*?)\((\d+)\)$`. |
| Articles.FindMarkerComplete | cost_updater.py:26 | Every match of the regular expression is the one `FindMarker` returns, so the match is unique. |
| Articles.ParseArticle | cost_updater.py:20-31 | The code looked up is always stripped. Without a quantity it is the whole stripped article. |
| Articles.ParseArticleMarker | cost_updater.py:25-30 | When the stripped article ends in `(digits)`, the code is the stripped text before the bracket and the quantity is the value of the digits. |
| Articles.ParseArticleNoMarker | cost_updater.py:25-31 | Without a match, the code is the stripped article and there is no quantity. |
| Articles.ArticleRoundTrip | cost_updater.py:20-31 | Parsing `code(n)` gives back `code` and `n`, for any stripped code without a line break, brackets inside it included. |
| Articles.PlainArticleExample | cost_updater.py:20-31 | " UT-001 " parses to code "UT-001" with no quantity. |
| Articles.NestedBracketsExample | cost_updater.py:26-30 | "A(1)(2)" parses to code "A(1)" and quantity 2: only the last bracket group counts. |
| PriceIndex.PackQty | cost_updater.py:57-58 | The pack size kept is always positive. A positive parsed quantity is kept as it is. A quantity that is NaN (blank or unparseable) or not positive becomes 1. |
| PriceIndex.RowEntry | cost_updater.py:48-63 | A row with a column out of range stores nothing. A stored entry has a non-empty code, a non-negative price and a positive pack. |
| PriceIndex.RowEntryIff | cost_updater.py:48-61 | A row is stored exactly when its columns exist, its stripped code is non-empty and its price parses. It is stored under that stripped code with the parsed price and the pack size. |
| PriceIndex.BlankCodeKeyedNan | cost_updater.py:48-61 | A blank code cell is read as the text "nan", so a row with a blank code and a parseable price is stored under the key "nan". |
| PriceIndex.Fold | cost_updater.py:61 | Storing the entries in order into an empty dict leaves at most one key per entry. |
| PriceIndex.IndexOf | cost_updater.py:45-63 | The index holds only non-empty codes, non-negative prices and positive packs. |
| PriceIndex.BuildPriceIndex | cost_updater.py:45-63 | The loop builds exactly `IndexOf(rows)`, the entries of the rows stored in order. |
| PriceIndex.FoldSound | cost_updater.py:61 | A code in the fold was stored by some entry, and by none after the one whose value is kept. |
| PriceIndex.FoldLastWins | cost_updater.py:61 | The last entry storing a code gives its value. |
| PriceIndex.FoldComplete | cost_updater.py:61 | Every stored code is in the fold. |
| PriceIndex.IndexSound | cost_updater.py:45-63 | A code is in the index only if some row stored it, and no later row stored that code again. |
| PriceIndex.IndexLastWriteWins | cost_updater.py:45-63 | For duplicate codes, the last row wins. |
| PriceIndex.IndexComplete | cost_updater.py:45-63 | Every code some row stores is in the index. |
| PriceIndex.ShortRowSkipped | cost_updater.py:62-63 | A row too short for the chosen columns (the `IndexError`) leaves the index unchanged. |
| PriceIndex.PriceRowExample | cost_updater.py:45-63 | The price-list row ("ABC", "50", "3") gives the index {"ABC": price 50, pack 3}. |
| CostUpdate.Lookup | cost_updater.py:104-140 | A row is found exactly when its code is in the index. A found row's quantity comes from the brackets when present, otherwise from the pack size, and its cost is price times quantity. A missing row has all amounts zero and an empty formula. |
| CostUpdate.LookupCostNonNegative | cost_updater.py:130 | A valid index never yields a negative cost. |
| CostUpdate.Reconcile | cost_updater.py:96-101 | A row is skipped exactly when its article column is out of range or its article is blank. |
| CostUpdate.Outcomes | cost_updater.py:95-140 | There is one outcome per row, and outcome `i` is the reconciliation of row `i`. |
| CostUpdate.ReconcileRow | cost_updater.py:96-140 | The loop body computes `Reconcile` of its row. |
| CostUpdate.Record | cost_updater.py:115-152 | Recording one row only appends: earlier writes, missing entries and debug rows are kept. A processed row adds exactly one to `found_count + len(missing_rows)`. The debug table never grows past 500. |
| CostUpdate.TallyOf | cost_updater.py:90-152 | After all rows, the debug table has at most 500 rows, and no more rows are found or missing than were read. |
| CostUpdate.RecordRow | cost_updater.py:115-152 | The bookkeeping for one row is `Record`: a write and a count for a found row, a missing entry for an unmatched one, and a debug entry while there are fewer than 500. |
| CostUpdate.ProcessRow | cost_updater.py:95-152 | One pass extends the results of the rows before it by the row's own outcome. |
| CostUpdate.ReconcileRows | cost_updater.py:90-152 | The loop's results are the tally of the outcomes of all rows, in order. |
| CostUpdate.ProcessCostUpdate | cost_updater.py:33-152 | Both stages: the tally of the marketplace rows against the index of the price list. |
| CostUpdate.FoundPlusMissing | cost_updater.py:135-140 | `found_count + len(missing_rows)` equals the number of processed rows. |
| CostUpdate.WritesCount | cost_updater.py:133-135 | One cell is written per found row. |
| CostUpdate.MissingIsUnmatched | cost_updater.py:139-140 | The missing list is the unmatched part of the full debug table, in input order. |
| CostUpdate.DebugIsPrefix | cost_updater.py:143-152 | The debug table is the first min(500, processed) entries, in order. |
| CostUpdate.WritesIncreasing | cost_updater.py:133-134 | Writes go to strictly increasing Excel rows from `header + 2` on, so no cell is written twice. |
| CostUpdate.WritesSound | cost_updater.py:133-134 | Every write is the cost of a found row, in that row's cost cell. |
| CostUpdate.WritesComplete | cost_updater.py:133-134 | Every found row's cost is written. |
| CostUpdate.UnmatchedNotWritten | cost_updater.py:115-140 | A skipped or unmatched row gets no write. |
| CostUpdate.ProcessedArePresent | cost_updater.py:96-101 | The processed rows are exactly the rows with a present article. |
| CostUpdate.CountsAddUp | cost_updater.py:92-140 | `found_count + len(missing_rows)` is the number of rows with a present article. |
| CostUpdate.WrittenCosts | cost_updater.py:115-135 | Every written cell is in the cost column. It holds a non-negative number, and its row's parsed article code is in the index. |
| CostUpdate.PackQuantityExample | cost_updater.py:125-130 | "ABC" priced 50 in packs of 3 costs 150. |
| CostUpdate.BracketQuantityExample | cost_updater.py:121-130 | "ABC(2)" uses the bracketed 2 and costs 100. |
| CostUpdate.MissingExample | cost_updater.py:139-140 | "XYZ(5)" is not in the index: listed as missing with amounts zero. |
| CostUpdate.PriceListToCostExample | cost_updater.py:45-135 | From the price-list row ("ABC", "50", "3") and a marketplace row "ABC": one row is found, nothing is missing, and cost 150 is written into its cost cell. |
| PriceFormula.Ceil | app.py:20 | `math.ceil`: the least integer not below `x`. |
| PriceFormula.CeilToStep | app.py:18-21 | Without a positive step the value passes through, NaN included. With a positive step exactly NaN raises. |
| PriceFormula.CeilToStepLeastMultiple | app.py:18-21 | With a positive step the result is the least multiple of the step at or above `x`. It lies in `[x, x + step)`. |
| PriceFormula.CeilToStepIdempotent | app.py:18-21 | A whole number of steps is returned unchanged. |
| PriceFormula.CeilToStepTwice | app.py:18-21 | Rounding twice is rounding once. |
| PriceFormula.CeilToStepExamples | app.py:18-21 | 101 in steps of 10 is 110, and 160 stays 160. |
| PriceFormula.ToFraction | app.py:23-27 | The commission fraction always lies in [0, 0.9999]. |
| PriceFormula.ToFractionOf | app.py:23-27 | A value above 1 is a percentage and is divided by 100. A value up to 1 is kept. Either is capped at 0.9999. |
| PriceFormula.ToFractionDefault | app.py:24 | A blank or unparseable commission is 0. |
| PriceFormula.ToFractionPercent | app.py:23-27 | The whole numbers 2 to 99 read as percentages. 0 stays 0. 1 and 100 or more are capped at 0.9999. |
| PriceFormula.ToFractionPercentExample | app.py:23-27 | "15" is 0.15. |
| PriceFormula.ToFractionCappedExample | app.py:23-27 | "150" is capped at 0.9999. |
| PriceFormula.ToFractionCommaExample | app.py:23-27 | "0,15" is 0.15. |
| PriceFormula.ToFractionDropsSign | app.py:24-25 | "-15" is 0.15: the sign is gone before the `f < 0` test. |
| PriceFormula.Calc | app.py:81-85 | `calc` gives None exactly when the denominator is at most 0.01 or the cost is NaN. It raises exactly when a price is due, the fees are NaN and the step is positive. |
| PriceFormula.CalcBreakEven | app.py:81-85 | Without a positive step, the price times the denominator is exactly cost plus fees. With one, the price is a multiple of the step, covers the break-even price, and exceeds it by less than one step. |
| PriceFormula.CalcPrice | app.py:81-85 | A non-negative cost and non-negative fees give a non-negative price. With a positive step the price is a multiple of the step. |
| PriceFormula.CalcExample | app.py:81-85 | Cost 100, commission 10 %, fees 20, margin 15 %, step 10 give 160. |
| PriceFormula.CalcRoundsUpExample | app.py:81-85 | The same at margin 5 % gives 141.18..., rounded up to 150. |
| PriceFormula.CalcFree | app.py:81-85 | A zero cost with zero fees prices at 0. |
| PriceFormula.CalcNoRoomExample | app.py:82-83 | Commission 50 % with margin 60 % gives no price. |
| Sheet.Present | app.py:68-71 | Keeping the present entries never gives more values than there were entries. |
| Sheet.PresentIff | app.py:68-71 | A value is kept exactly when it is present among the entries: a fee position is kept exactly when some chosen fee column resolved to it. |
| Sheet.PresentConcat | app.py:68-71 | Filtering keeps order: the values kept from `a + b` are those of `a`, then those of `b`. |
| Sheet.PresentAll | app.py:68-71 | When every entry is present (every fee column resolved), all are kept, position by position. |
| SellingPrice.CollectFeeColumns | app.py:68-71 | The loop keeps exactly the resolved fee columns, in order. |
| SellingPrice.FeeSum | app.py:79 | A fee sum that does not raise and is a number is non-negative. |
| SellingPrice.FeeSumRaisesIff | app.py:79 | The fee sum raises exactly when a fee column lies past the end of the row. |
| SellingPrice.FeeSumValue | app.py:79 | A fee sum that does not raise is NaN exactly when some fee cell does not parse. Otherwise it is a non-negative number. |
| SellingPrice.RowPrices | app.py:76-88 | A row's prices are computed only when its cost and commission columns resolved and lie within the row. A price, when there is one, comes from a cost that parses to a number. |
| SellingPrice.RowResult | app.py:76-92 | A row gets a result exactly when pricing it does not raise and at least one of its two prices is truthy. The result carries the row's own position. |
| SellingPrice.EvaluateRow | app.py:76-92 | The loop body gives the row's result: None when any step raises or when neither price is truthy. |
| SellingPrice.ProcessRow | app.py:74-92 | One pass extends the results of the rows before it. |
| SellingPrice.ComputeResults | app.py:73-92 | The loop builds exactly `Results(rows)`. |
| SellingPrice.ResultsSound | app.py:73-92 | Every entry of `results` is the result of its own row. |
| SellingPrice.ResultsComplete | app.py:73-92 | Every row with a result is in `results`. |
| SellingPrice.ResultsIncreasing | app.py:74-91 | The results are in strictly increasing row order, within the sheet. |
| SellingPrice.RowResultFacts | app.py:76-91 | A row is priced only if its cost, commission and fee columns exist, its cost parses, and one of its prices is truthy. |
| SellingPrice.FeeMissingSkipsRow | app.py:79-92 | A fee column past the end of the row makes the row raise, and the row is skipped. |
| SellingPrice.NanFeeSkipsRow | app.py:79-92 | With a positive step, a fee cell that does not parse makes the fee sum NaN: the row either gets no price or `math.ceil` raises, and it is left out of the results. |
| SellingPrice.NoCostColumnNoResults | app.py:65-92 | An unresolved cost column (`iloc[None]` raises) prices no row. |
| SellingPrice.NoMarginRoomNoResult | app.py:81-90 | With both margins at 99 % or more, no row is priced. |
| SellingPrice.NoMarginRoomNoResults | app.py:73-92 | With both margins at 99 % or more, the results are empty. |
| SellingPrice.ResultPrices | app.py:76-91 | A truthy numeric price is positive. With a positive step every price is a number and a whole number of steps. |
| SellingPrice.ItemWrites | app.py:102-107 | One result writes at most two cells, and each is one of its truthy prices in its own Excel row and destination column. When both are written, the full price comes first, so with one destination column for both the minimum price is the one left in the cell. |
| SellingPrice.PlanWrites | app.py:99-108 | At most two cells are written per result. |
| SellingPrice.WritePrices | app.py:101-108 | The loop's writes are `PlanWrites(results)`, and `cnt` is the number of results. |
| SellingPrice.WritesSound | app.py:102-107 | Every write belongs to some result: it is a truthy price in that result's row and in its destination column. |
| SellingPrice.WritesComplete | app.py:102-107 | Every truthy price whose destination column resolved is written. |
| SellingPrice.NoDestinationNoWrites | app.py:104-108 | With no destination columns nothing is written, though `cnt` still counts every result. |
| SellingPrice.ProcessSellingPrice | app.py:51-108 | The writes and `cnt` are those of the results of the rows under the resolved fee columns. |
| SellingPrice.WrittenPrices | app.py:94-108 | Every written cell is in a data row and a destination column. It holds NaN or a positive price, and with a positive step a number that is a whole number of steps. |
| SellingPrice.PricedRowExample | app.py:76-91 | Cost 100, commission 10 % and fee 20 price at 160 (margin 15 %) and 150 (margin 5 %). |
| SellingPrice.PricedRowCells | app.py:77-79 | The cells "100", "10" and "20" read as cost 100, commission 0.1 and fee 20. |
| SellingPrice.ZeroPriceRowExample | app.py:87-91 | A zero price is falsy, so the row is not in the results. |

## Left out

- The Streamlit interface (app.py:120-279) is not modelled. That covers file upload, sheet and column choice, previews and downloads.
- Reading and writing workbooks is left out: temporary files, `pd.read_excel`, `openpyxl`, and the sheet choice at cost_updater.py:83-87. Sheets are given as sequences of rows of cells, and the result of each stage is its list of cell writes.
- The Excel file for missing articles is left out (cost_updater.py:154-168). The model returns the missing list itself.
- `get_col_idx`, `get_file_columns` and `detect_header` are left out. Column names are looked up in the sheet, which the model does not hold. The model takes each chosen column already resolved to `Option<nat>` (None when the name is not a column).
- Duplicate column names are not modelled. `read_excel` renames repeated headers (`X`, `X.1`), so the column lookup never meets them, and on a non-unique index `get_loc` would return a slice or a boolean mask rather than a position.
- Floating point is exact: prices are reals and Python floats are `NaN` or a real. IEEE rounding, infinities and overflow are not modelled. `ParseFloat` accepts only the digit-and-dot strings the normaliser can produce, so exponents and `inf` never reach it.
- `\d` in the article pattern and the digit filter match only ASCII digits here. Python's `\d` also matches other Unicode decimal digits.
- A cell is its `str()` text. The marketplace sheet and the price list are read with `dtype=str`. In the calculator's sheet a numeric cell is its Python text (`1200.0`), which the parser reads the same way.
- The debug table's formula text (`f"{price} * {qty} (из скобок)"`) is kept as a tag: `FromBrackets` or `FromPriceList`.
- The status strings are kept as a boolean `matched`.
- The docstring of `to_float` promises that "1,200.00" reads as 1200. The code gives the default, because both separators become dots. The model follows the code (`Numbers.ToFloatCommaThousandsExample`).
- PriceFormula.ToFraction: the `np.isnan(f) or f < 0` guard is modelled, but it can never fire. `to_float` with default 0.0 never returns NaN or a negative number.
- SellingPrice.RowPrices: only the exceptions the model can produce are modelled: a column that did not resolve, a column past the end of the row, and `math.ceil` of NaN. The bare `except` would catch others too, such as overflow.
