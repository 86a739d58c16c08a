# Georgia election map: the table-derivation layer

A model of the data layer of a Dash dashboard for the 2016 Georgia presidential election.
It has two parts. `api_calls.py` wraps three endpoints of a remote election API, and the model
builds the query each wrapper sends. `app.py` reshapes the fetched county results table in
four ways:

- a `winner` column naming each county's leading candidate (pandas `idxmax`);
- a `FIPS` column inserted in front, copied from a FIPS CSV row by row;
- statewide totals, one `(Candidate, votes)` row per column;
- a county pivot, one `(Candidate, Votes)` row per column of the county picked in the dropdown.

The model is split into five modules:

- `Values` (values.dfy): Python values (`None`, `NaN`, integers, strings), truthiness, pandas'
  element-wise `==`, and the exceptions as an `Error` datatype inside `Result`/`Outcome`.
- `Frame` (frame.dfy): the pandas operations the code uses, over a `Table` value (column
  names plus rows). It also has the `DataFrame` class, whose `SetColumn` and `Insert` methods
  change a frame in place.
- `CountyResults` (county_results.dfy): the winner and FIPS statements. Both source files
  contain them word for word. `Derive` runs them on the frame object.
- `ApiCalls` (api_calls.dfy): the three request builders, and what `api_calls.py` does at
  module level.
- `App` (app.dfy): `list.remove`, the statewide totals, the county pivot, the dropdown, what
  `app.py` does at module load, and the data half of the `update_charts` callback.

The alias at app.py:34 is kept. `countyResults` and `results` are one `DataFrame` object, so
both names see the `winner` and `FIPS` columns. Two consequences are proved:

- The statewide chart lists `FIPS`, every fetched column except `county_name`, then `winner`.
- The county pivot drops `FIPS` (the first column) and keeps `county_name`.

Two behaviours of the code follow from this and are kept as written:

- The pivot drops column 0, which is `FIPS` after app.py:36. It raises a length-mismatch
  ValueError when zero rows match the selected county, and also when several rows match.
- The statewide totals also sum `FIPS` and `winner`, not just the candidate columns.

## Model

| member | source | states |
|---|---|---|
| Values.FalsyValues | api_calls.py:39-44 | The values `if v:` rejects are exactly `None`, `0` and `""`. NaN is truthy. |
| Values.MissingEqualsNothing | app.py:178 | Under pandas `==`, a missing value (`None`, NaN) equals nothing, itself included. Present values are equal exactly when they are the same value. The comparison is symmetric. |
| Frame.GetColumn | app.py:27 | `df[name]` succeeds exactly when the column exists, else KeyError(name). On success it holds one cell per row, in row order, from that column. |
| Frame.Aligned | app.py:36 | Re-indexing onto 0..n-1 gives exactly n cells. Cell i is the Series' cell i if it has one, else NaN. |
| Frame.AlignedSameLength | app.py:36 | A Series as long as the frame is inserted unchanged. |
| Frame.WithColumn | app.py:35 | Assigning a column keeps the table well formed: distinct names, one cell per column in every row. |
| Frame.WithColumnAppends | app.py:35 | A new column is appended at the end. Row count and every existing cell stay the same, and row i gets value i. This is a proof step; the read-back property is `GetColumnWithColumn`. |
| Frame.WithColumnReplaces | app.py:35 | Assigning an existing column keeps the column list. Only that column's cells change, to the new values. |
| Frame.GetColumnWithColumn | app.py:35 | Reading back an assigned column gives the assigned values. Every other column reads as before. |
| Frame.InsertAt | app.py:36 | `insert` succeeds exactly when the name is new and `loc` is at most the column count. Otherwise it raises "already exists" first, then index-out-of-bounds. On success the table is well formed. |
| Frame.InsertAtShifts | app.py:36 | The new column is at `loc` with the aligned values. Columns and cells from `loc` on move one place right. Row count is unchanged. This is a proof step; the read-back property is `GetColumnInsertAt`. |
| Frame.GetColumnInsertAt | app.py:36 | The inserted column reads back as the positionally aligned values. Every other column reads as before. |
| Frame.Absent | app.py:35 | Lists exactly the requested names that are not columns. This is the payload of the KeyError from `df[[...]]`. |
| Frame.FirstMax | app.py:35 | Returns a position holding the maximum, with every earlier position strictly smaller. |
| Frame.FirstMaxUnique | app.py:35 | Only one position has that property, so the tie-break is deterministic. |
| Frame.IdxMax | app.py:35 | Row-wise `idxmax` fails with KeyError if a column is missing, and with TypeError if a cell is not an integer. Otherwise each row gets the name of a column holding the row's maximum, with all earlier names strictly smaller (earliest wins a tie). |
| Frame.ColumnTotal | app.py:44 | A column sum is a number exactly when the column holds no text. Missing cells are skipped. |
| Frame.ColumnTotalAppend | app.py:44 | Totals are conserved: the sum over two blocks of rows is the sum of their sums. |
| Frame.ColumnTotalSingle | app.py:44 | A single cell totals to its own value. An integer sums to itself, a missing value (`None`, NaN) is skipped and gives 0, and text gives no numeric total. |
| Frame.MatchingRows | app.py:178 | `df[df[c] == v]` keeps exactly the rows whose cell equals v under pandas `==`, in row order. |
| Frame.MatchingRowsSingle | app.py:178-180 | The selection has exactly one row exactly when one row alone matches, and then it is that row. |
| Frame.DataFrame.SetColumn | app.py:35 | The frame's new contents are `WithColumn` of its old contents. |
| Frame.DataFrame.Insert | app.py:36 | The frame's new contents are `InsertAt` of its old contents, or unchanged when the insert raises. The outcome reports which. |
| CountyResults.AfterWinner | app.py:35 | The winner assignment succeeds exactly when all three candidate columns exist and hold integers. |
| CountyResults.Derivation | app.py:35-36 | The derivation succeeds exactly when three things hold: the winner step succeeds, the FIPS table has `FIPS`, and the results do not already have it. |
| CountyResults.Attempt | app.py:35-36 | The table the two statements leave behind is always well formed. |
| CountyResults.Derive | app.py:34-36 | Runs both statements on the shared frame. It succeeds exactly as `Derivation` does. Otherwise it raises `Derivation`'s exception (missing candidate columns, a non-integer cell, no `FIPS` in the CSV, or `FIPS` already present) and leaves the partial state `Attempt` describes. |
| CountyResults.DerivationShape | app.py:35-36 | Given no `winner` beforehand, the columns become `FIPS`, the originals in order, then `winner`. Row i becomes FIPS code i, its original cells, then its winner. |
| CountyResults.DerivationCells | app.py:35-36 | The same shape, cell by cell: original column j sits at j + 1, and `winner` is last. |
| CountyResults.WinnerIsFirstMaximum | app.py:35 | Every county's winner is a candidate whose votes are at least the other two's. Earlier candidates in the list have strictly fewer. |
| CountyResults.DerivationKeepsColumn | app.py:35-36 | Every column other than `FIPS` and `winner` reads the same after the derivation. |
| CountyResults.FipsIsPositional | app.py:36 | Column 0 is `FIPS`. Row i holds FIPS_df's row i (matched by position, not county name), or NaN past its end. |
| ApiCalls.GetResultsByCounty | api_calls.py:15-27 | The request goes to base URL + `/get_results`. Its parameters are exactly `sheet_number`, `year`, `month`, `result_column`, each holding its argument. |
| ApiCalls.GetTurnoutByCounty | api_calls.py:32-46 | The request goes to base URL + `/get_turnout`. `year` and `month` are always present. `race`, `gender` and `age_grp` are present exactly when their argument is truthy, and then hold it unchanged. There are no other keys. |
| ApiCalls.GetDistribution | api_calls.py:49-55 | The request goes to base URL + `/get_distribution`. Its parameters are exactly `county_name`, `year`, `month`, `axis`, `metric`, each holding its argument. |
| ApiCalls.DefaultRequests | api_calls.py:15-54 | The defaults are sheet 2, 2016, 11, "total_votes" for results, and "Fulton", 2016, 11, "age_grp", "voted" for distributions. |
| ApiCalls.LoadModule | api_calls.py:61-71 | Reads `county_name` first, then derives winner and FIPS through the alias, so `countyResults` is `results`. A missing `county_name` raises KeyError('county_name') and leaves the table unchanged. Otherwise a failure raises the derivation's exception and leaves `Attempt`. |
| App.Remove | app.py:43 | `list.remove` succeeds exactly when the item is present, and drops its first occurrence. Otherwise it raises ValueError. |
| App.RemoveDistinct | app.py:42-43 | With distinct names, removal shortens the list by one, shifts later names left, and leaves no copy of the removed name. |
| App.RemoveAppend | app.py:43 | Removing an item does not touch anything after its first occurrence. |
| App.StateWide | app.py:44-46 | One (Candidate, votes) row per entry of the column list, in order. Votes are the total of that column over all rows. |
| App.StateWideRows | app.py:42-46 | The statewide table has one row per column except `county_name`, in column order. `county_name` is never a candidate. Each row's votes total its own column. |
| App.TwoCountyTotals | app.py:42-46 | Worked example: Appling {A: 100, B: 50} and Fulton {A: 9000, B: 9500}. Removing `county_name` from the column list leaves [A, B], which total A 9100 and B 9550. |
| App.TwoCountyWinners | app.py:35 | In the same example the winners are A for Appling and B for Fulton. |
| App.ColumnListAfterDerivation | app.py:34-43 | Because of the alias, the statewide column list is `FIPS`, the fetched columns without `county_name`, then `winner`. |
| App.CountyPivot | app.py:178-180 | Without `county_name` it raises KeyError. Otherwise it succeeds exactly when one row alone matches; zero or several matches raise a length-mismatch ValueError. On success it gives one (Candidate, Votes) pair per column after column 0, in order, holding that row's cells. |
| App.PivotOfWidened | app.py:178-180 | Pivoting a table widened by one column on each side gives every original column, with the selected row's cells, then the last column. |
| App.PivotAfterDerivation | app.py:178-180 | After module load the pivot drops `FIPS`, not `county_name`. A uniquely matched county charts every fetched column, `county_name` included, then its winner. |
| App.CountySelector | app.py:63 | One option per county in row order, whose text and value are both the county. The initial value is the first county. An empty column raises KeyError(0). |
| App.PivotOfDistinctCounty | app.py:178-180 | When county names are unique strings, selecting any one of them pivots successfully. |
| App.SelectingAnOptionSucceeds | app.py:63 | With unique county names, pivoting the derived table succeeds both for every dropdown option and for the initial selection. |
| App.LoadModule | app.py:26-46 | Module load keeps `results` and `countyResults` as one object and leaves the derived table in it. `fips` and `values` are its FIPS and winner columns. The column list is the derived columns minus `county_name`, and the statewide table is taken over the derived table. A missing `county_name` raises KeyError('county_name'). Any other failure raises the derivation's exception. Failures leave the partial state. |
| App.UpdateCharts | app.py:176-184 | The callback fails exactly when the pivot fails, and then sends no request. Otherwise it returns the pivot plus three distribution requests for the selected county (2016, 11, metric "voted", axes age_grp, gender and race). |

## Left out

- HTTP and file I/O are not modelled (`requests.get`, `pd.read_json`, `pd.read_csv`). The fetched results table and the FIPS CSV are inputs, and each wrapper returns the request it would send.
- `requests` drops `None`-valued parameters from the query string. The model gives the dictionary the code builds, not the URL sent.
- Plotly figures and Dash layout are not modelled: `state_results`, `generate_map`, the figure half of `update_charts`, `graphs` apart from its dropdown options, `description_card`, `generate_control_card`, `app.layout` and server start-up. They only render.
- Callback dispatch, including overlapping callbacks, is Dash framework behaviour and is not modelled.
- App.LoadModule: models app.py's own load (lines 26-46) only. It does not compose it with the module-level code of api_calls.py (lines 61-71), which the import at app.py:11 runs first. That code does its own fetch and derivation, which ApiCalls.LoadModule models separately. A failure there stops app.py before line 26.
- georgiaMap.py is not part of this model. It is a plotting script with no logic of its own, and as written it does not parse.
- Frame.IdxMax: does not model how pandas skips NaN in `idxmax`. Any cell that is not an integer in a candidate column is a TypeError in the model.
- Frame.ColumnTotal: text columns (the `winner` column at app.py:44) total to the abstract `NonNumeric`. The model does not give pandas' object-dtype sum, and does not model the integer-to-float promotion a NaN brings.
- Frame.DataFrame.SetColumn: covers only the form the source uses, a Series on the frame's own index, so it needs one value per row.
- Frame.InsertAt: takes `loc` as a natural number. Negative positions are not modelled.
- Frames carry the default 0..n-1 row index, which makes index alignment the same as position. Column names are distinct, as JSON object keys and `insert` guarantee.
- Python `bool` and `float` values are not modelled. Integers are unbounded. Request arguments are Python ints. Table cells are pandas int64, whose sums at app.py:44 would wrap past 2^63 - 1; vote counts never reach that.
