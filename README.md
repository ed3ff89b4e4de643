# Sales dashboard summary, modelled in Dafny

`sales_dashboard.py` is a Streamlit page for a retail sales CSV. Once a file
is uploaded, it does the following in order:

- reads the file into a pandas data frame;
- coerces the `Sales`, `Profit`, `Discount` and `Quantity` columns to numbers, turning any unreadable cell into a missing value;
- computes three KPIs: total sales, total profit, and profit margin as a percentage, which is 0 when total sales is 0;
- draws the views:
  - sales per category;
  - sales per region;
  - the ten sub-categories with the largest profit;
  - a discount/profit scatter plot;
  - when the file has a `State` column, sales per state.

Without an upload it shows only a hint.

This project models that pipeline on values, in six modules:

- `Table`: the frame.
  - A header (the list of column names) and rows.
  - Each row is a map from column name to a `Cell`: missing, text or a number.
  - A row that lacks a column reads as missing there.
- `Numbers`: the decimal notation that `to_numeric` accepts: an optional sign, digits, and at most one point.
  - Integers and decimals written out in that notation are read back as the numbers they denote.
- `Coercion`: the coercion loop.
  - As pure functions: `ToNumeric`, `ToNumericColumn`, `Coerce`.
  - As the imperative loop over a `DataFrame` object whose rows it overwrites column by column. That loop is proved equal to the pure definition.
- `Aggregation`:
  - the skip-missing column sums behind the KPIs;
  - `groupby(key)[value].sum()`, which gives one group per distinct non-missing key.
- `Ranking`: `sort_values(ascending=False).head(10)`.
- `Dashboard`: the page as a whole.
  - Streamlit shows each element as the script reaches it, and an exception ends the run.
  - So the page is modelled as the panels shown, in order, plus the error that stopped the run, if any.

The KPI panel, the three group-by views and the State map are each related
to the sums they promise.

The code behaves as follows, in ways that are easy to miss, and the model
keeps each of them:

- A missing column raises pandas' `KeyError` naming the first missing column the script touches. It does not report a list of every missing name.
- The four numeric columns are checked first, before anything is shown. The group-by columns are checked later, after the KPIs are already on the page.
- A file with a header and no rows is not an error. All sums are 0 and the margin is 0.
- Ties among sub-category profits are not broken by first appearance. The order of tied entries is not promised.
- pandas sorts group-by keys. The model builds groups in order of first appearance and promises no order, so either order satisfies its contracts.
- The State map is drawn only when the run reaches it.
  - That requires the scatter plot's columns, including `Product Name`, to be present.
  - It also requires a valid marker size in every row the scatter plot draws. The plot sizes its markers by `Sales`, and plotly rejects a NaN or negative size.
  - `color="Category"` splits the rows into one trace per category, with a group-by that leaves out rows whose category is missing. Those rows are never drawn, so their Sales cells are not checked. The one exception is a Category column with a single distinct value, all missing included: then the whole frame is one trace and every row is checked.
  - So one unreadable or negative Sales value in a drawn row stops the run after the top-ten view, with no scatter plot and no State map.
  - A frame without a `Product Name` column stops at the same point, because the scatter plot names that column.

## Model

| member | source | states |
|---|---|---|
| Table.FirstAbsent | sales_dashboard.py:17-18 | the position of the first wanted column the header lacks: every column before it is present, and the one at it is absent |
| Numbers.NumberRoundTrip | sales_dashboard.py:18 | every integer written in decimal is read back by `to_numeric` as that same number |
| Numbers.UnsignedRoundTrip | sales_dashboard.py:18 | the digits of a natural number parse back to that number |
| Numbers.NonNumericRejected | sales_dashboard.py:18 | text holding a character that is not a digit, a point or a leading sign is not a number |
| Numbers.ParseNumber | sales_dashboard.py:18 | reads plain decimal text with an optional sign; ParseNumberIff states exactly what it accepts, and the round-trip lemmas what it reads |
| Numbers.ParseUnsignedIff | sales_dashboard.py:18 | the unsigned reader accepts a text iff it holds only digits and points, at most one point, and at least one digit |
| Numbers.ParseNumberIff | sales_dashboard.py:18 | text is read as a number iff it is that unsigned notation, optionally after one `-` or `+`: "+5", ".5", "5." and "007" are numbers; "", "-", "." and "1.2.3" are not |
| Numbers.ShiftedValue | sales_dashboard.py:18 | moving `d` by `k` places to the right of the point gives `d` divided by 10^k |
| Numbers.PaddedText | sales_dashboard.py:18 | the fraction digits written for `d` have exactly `k` characters |
| Numbers.PaddedDigits | sales_dashboard.py:18 | the fraction text written for `d` is all digits, and those digits denote `d` |
| Numbers.DotAfterDigits | sales_dashboard.py:18 | in digits followed by a point and more text, the first point is the one after the digits; the digits come before it and the rest after it |
| Numbers.UnsignedDecimal | sales_dashboard.py:18 | digits, a point and digits read, without a sign, as the whole part plus the fraction the second digits denote |
| Numbers.PaddedDecimalValue | sales_dashboard.py:18 | the digits of `n` and the `k` fraction digits of `d` denote `n` plus `d` divided by 10^k |
| Numbers.SignedParse | sales_dashboard.py:18 | text that starts with a digit and reads without a sign as `x` is read as `x`, and as `-x` with a minus sign in front |
| Numbers.DecimalStringUnsigned | sales_dashboard.py:18 | a decimal written out starts with a digit and reads, without a sign, as the number it denotes |
| Numbers.DecimalRoundTrip | sales_dashboard.py:18 | a decimal written with `k` digits after the point is read back as `n` plus `d` divided by 10^k |
| Numbers.NegativeDecimalRoundTrip | sales_dashboard.py:18 | the same decimal with a minus sign in front is read back as its negation |
| Coercion.TextRejected | sales_dashboard.py:18 | a text cell holding a character that cannot appear in a number becomes missing |
| Coercion.IntegerTextRead | sales_dashboard.py:18 | a text cell holding an integer written in decimal becomes that number |
| Coercion.ToNumeric | sales_dashboard.py:18 | a coerced cell is a number or missing, and a cell that already is one is unchanged |
| Coercion.ToNumericColumn | sales_dashboard.py:18 | overwriting one column coerces every row's cell in that column and leaves every other cell and the row count unchanged |
| Coercion.CoercedThrough | sales_dashboard.py:17-18 | the loop's effect after a prefix of the column list; CoercedCells states which cells it coerces and which it keeps |
| Coercion.CoercedCells | sales_dashboard.py:17-18 | coercing a list of columns one after another coerces exactly the cells in those columns |
| Coercion.CoercedNumeric | sales_dashboard.py:17-18 | after the loop, each of the four numeric columns holds only numbers and missing cells |
| Coercion.Coerce | sales_dashboard.py:17-18 | fails iff a numeric column is absent, with KeyError for the first absent one; otherwise keeps header and row count, coerces exactly the four columns, and leaves them numeric or missing |
| Coercion.DataFrame.constructor | sales_dashboard.py:14 | the frame object holds the uploaded header and rows |
| Coercion.DataFrame.CoerceNumericColumns | sales_dashboard.py:17-18 | the loop keeps the header, has coerced exactly the columns before the first absent one when it stops, reports KeyError for that column, and agrees with `Coerce` |
| Aggregation.ColumnSum | sales_dashboard.py:21-22 | `df[col].sum()`, skipping missing cells; PresentMembers, ColumnSumSnoc, MissingContributesNothing and AllMissingSumsToZero state what it adds |
| Aggregation.SumAppend | sales_dashboard.py:21-22 | the sum of two lists of numbers added end to end is the sum of their sums |
| Aggregation.PresentMembers | sales_dashboard.py:21-22 | a number is among those a column sum adds iff some row's cell in that column holds it |
| Aggregation.ColumnSumAppend | sales_dashboard.py:21-22 | column sums over consecutive stretches of rows add up |
| Aggregation.ColumnSumOne | sales_dashboard.py:21-22 | a one-row column sum is that row's number, or 0 when its cell is missing |
| Aggregation.ColumnSumSnoc | sales_dashboard.py:21-22 | one more row adds its number (or 0) to the column sum |
| Aggregation.MissingContributesNothing | sales_dashboard.py:21-22 | removing a row whose cell is not a number leaves the column sum unchanged |
| Aggregation.AllMissingSumsToZero | sales_dashboard.py:21-22 | a column with no numbers sums to 0 |
| Aggregation.WithKeyPart | sales_dashboard.py:34 | a key's group holds each row at most as many times as the rows do |
| Aggregation.WithKeyMembers | sales_dashboard.py:34 | a row belongs to a key's group iff it is one of the rows and has that key |
| Aggregation.KeysOfMembers | sales_dashboard.py:34 | a key is among the group keys iff it is not missing and some row has it |
| Aggregation.KeySetMembers | sales_dashboard.py:34 | a key is in the set of a group list's keys iff some entry has it |
| Aggregation.Find | sales_dashboard.py:34 | the position of the group with a key, or the list's length when no group has it |
| Aggregation.Accumulate | sales_dashboard.py:34 | one row's step of the group-by; AccumulateStep states that it keeps the group-by's defining property |
| Aggregation.AccumulateStep | sales_dashboard.py:34 | if a group list is the group-by of some rows, one step with the next row's key and number gives the group-by of those rows and that row |
| Aggregation.GroupSum | sales_dashboard.py:34 | `groupby(key)[value].sum()`; GroupSumSpec and GroupSumPartition state its contract |
| Aggregation.KeySetSize | sales_dashboard.py:34 | a group list with distinct keys has as many keys as entries |
| Aggregation.GroupSumSpec | sales_dashboard.py:34 | the group-by result has distinct keys, exactly the rows' non-missing keys, and for each key the skip-missing sum over the rows with that key |
| Aggregation.GroupEntry | sales_dashboard.py:34 | any one group's key occurs in the rows and its total is the sum over that key's rows |
| Aggregation.GroupTotalUpdate | sales_dashboard.py:34 | replacing one group changes the sum of the group totals by the difference |
| Aggregation.GroupTotalStep | sales_dashboard.py:34 | one row's step changes the sum of the group totals by that row's number, or not at all when its key is missing |
| Aggregation.DroppedStep | sales_dashboard.py:34 | one more row adds its number to the dropped rows' sum exactly when its key is missing |
| Aggregation.GroupSumPartition | sales_dashboard.py:34 | the group totals add up to the column sum less the rows whose key is missing |
| Aggregation.GroupSumCoversTotal | sales_dashboard.py:34 | when no row lacks a key, the group totals add up to the column sum |
| Ranking.Insert | sales_dashboard.py:44 | inserting a group adds exactly that group |
| Ranking.InsertSorted | sales_dashboard.py:44 | inserting into a list sorted largest first keeps it sorted |
| Ranking.SortDescending | sales_dashboard.py:44 | the result is sorted largest first and is a permutation of the input |
| Ranking.Top | sales_dashboard.py:44 | `sort_values(ascending=False).head(10)`; TopSpec and TopMembers state its contract |
| Ranking.PrefixSorted | sales_dashboard.py:44 | a prefix of a sorted list is sorted and is part of the list |
| Ranking.BeyondPrefix | sales_dashboard.py:44 | in a sorted list, an entry beyond the first n is no larger than the n-th |
| Ranking.TopSpec | sales_dashboard.py:44 | the top view has min(10, n) entries, sorted largest first, drawn from the input, and every group left out is no larger than the last shown |
| Ranking.TopMembers | sales_dashboard.py:44 | every group the top view shows is one of the input's groups |
| Dashboard.Summarize | sales_dashboard.py:21-58 | the run after coercion, as the panels shown and the error that stopped it; KpiPanel, CategoryPanel, RegionPanel, SubCategoryPanel, MissingScatterColumn, SizesRejected, FinalPanels and NoStateMapWithout state what it shows |
| Dashboard.ProfitMargin | sales_dashboard.py:23 | the margin times total sales is 100 times total profit when sales are nonzero, and the margin is 0 when they are zero |
| Dashboard.Dashboard | sales_dashboard.py:13-61 | nothing is computed without an upload; a missing numeric column stops the run before any panel with a KeyError; the first panel shown is the KPIs |
| Dashboard.Run | sales_dashboard.py:13-58 | the run that builds the frame object and coerces it in place produces the page `Dashboard` describes |
| Dashboard.CoercionPasses | sales_dashboard.py:17-18 | with the four numeric columns present, coercion succeeds, keeps the header, and the run goes on to the summary |
| Dashboard.StopsAtMissingGroupColumn | sales_dashboard.py:34-44 | a missing Category, Region or Sub-Category column stops the run with KeyError for it, after exactly the panels before that group-by |
| Dashboard.ScatterPasses | sales_dashboard.py:49-50 | with the numeric and view columns present, every column the scatter plot names exists |
| Dashboard.KpiPanel | sales_dashboard.py:21-29 | the first panel holds the Sales and Profit column sums and their guarded margin |
| Dashboard.CategoryPanel | sales_dashboard.py:34-36 | with a Category column, the second panel is sales grouped by category |
| Dashboard.RegionPanel | sales_dashboard.py:39-41 | with Category and Region columns, the third panel is sales grouped by region |
| Dashboard.SubCategoryPanel | sales_dashboard.py:44-46 | with the three group-by columns, the fourth panel is the top ten of profit grouped by sub-category |
| Dashboard.MissingScatterColumn | sales_dashboard.py:49-50 | with the numeric and group-by columns but no Product Name, the scatter plot fails with a plot column error for Product Name after exactly the KPIs and the three bar charts |
| Dashboard.StopsAtMissingScatterColumn | sales_dashboard.py:49-58 | from the upload: a frame lacking only Product Name stops after four panels with that error, and no State map |
| Dashboard.FinalPanels | sales_dashboard.py:49-58 | with every needed column and a valid size in every drawn row, the run completes with the scatter plot fifth, and a sixth panel, the State map, exactly when there is a State column |
| Dashboard.SizesRejected | sales_dashboard.py:49-51 | with every needed column but some drawn row's Sales cell missing or negative, the scatter plot fails: the run stops with a plot value error for Sales after exactly the KPIs and the three bar charts |
| Dashboard.CategoryKept | sales_dashboard.py:17-18 | coercion leaves every Category cell as it was, so the rows drawn are decided by the uploaded frame |
| Dashboard.SalesSizeAt | sales_dashboard.py:18-49 | a Sales cell that coerces to missing or to a negative number, in a row the scatter plot draws, fails the size check on the coerced rows |
| Dashboard.StopsAtInvalidSize | sales_dashboard.py:49-58 | from the upload: one Sales cell in a drawn row that coerces to missing or to a negative number stops the run after four panels, with a plot value error for Sales and no State map |
| Dashboard.CompletesIffValidSizes | sales_dashboard.py:49-58 | with every needed column, the run completes iff every drawn row of the coerced frame has a valid size |
| Dashboard.UnplottedSizesIgnored | sales_dashboard.py:49-51 | when some row has a category, missing or negative Sales cells only in rows without one do not stop the run: the scatter plot is drawn |
| Dashboard.NoStateMapWithout | sales_dashboard.py:54-58 | without a State column no panel of the summary is a State map |
| Dashboard.StateMapOnlyWithColumn | sales_dashboard.py:13-58 | for every upload, a State map is shown only when the frame has a State column |
| Dashboard.StateViewIffColumn | sales_dashboard.py:54-58 | with every needed column present and a valid size in every drawn row, the run completes without error, and a State map is shown iff the frame has a State column |
| Dashboard.KpiTotals | sales_dashboard.py:21-23 | the KPIs are the skip-missing sums of the coerced Sales and Profit columns, and the margin is their guarded percentage |
| Dashboard.GroupView | sales_dashboard.py:34 | a group-by result has one entry per distinct key, each the sum over its rows, adding up to the column total when no key is missing |
| Dashboard.CategoryView | sales_dashboard.py:34-36 | the category view has one entry per category, each the sum of its rows' sales, adding up to the KPI total sales when no row lacks a category |
| Dashboard.RegionView | sales_dashboard.py:39-41 | the same for the region view |
| Dashboard.StateView | sales_dashboard.py:54-58 | with a State column (and the columns and valid sizes in drawn rows needed to get there), the sixth panel is the state view with the same promises |
| Dashboard.OccursOnce | sales_dashboard.py:44 | an entry occurs at most once in a group list with distinct keys |
| Dashboard.SubListDistinct | sales_dashboard.py:44 | part of a group list with distinct keys has distinct keys |
| Dashboard.TopView | sales_dashboard.py:44 | the top ten by profit has min(10, number of sub-categories) entries, sorted largest first, with distinct keys, each the sum over its rows, and any group left out no larger than the last shown |
| Dashboard.SubCategoryView | sales_dashboard.py:44-46 | the fourth panel of a run that reaches it is that top-ten view of the coerced rows |

## Left out

- Page layout and UI are not modelled: the title, the columns layout, the metric text formatting (`$…,.2f`, `…%`) and the separator.
- Plotly figures are not modelled. The scatter plot appears only as the step that fails, either when a column it names is absent or when a drawn row's Sales value is not a valid marker size. Other plotting failures are not modelled, such as a choropleth given State values that are not USA state codes.
- Dashboard.Plotted: follows plotly's colour split as described above. The order of the traces, and of the rows within each trace, is not modelled.
- `read_csv` is not modelled: CSV bytes, quoting, encodings and dtype inference. The frame is given already read, with text or number cells.
- Numbers.ParseNumber: covers plain decimal notation only. Exponents, surrounding whitespace and the `inf`/`nan` spellings accepted by `to_numeric` are not modelled.
- Numbers are exact reals. float64 rounding in sums and in the margin is not modelled. Nor is int64 wrap-around when a column that `read_csv` typed as integers sums past 2^63 - 1.
- Ranking.SortDescending: the order among equal profits is not promised, because the source's sort is not stable.
- Aggregation.GroupSum: builds groups in first-appearance order, while pandas sorts group keys. The contracts state nothing about group order.
- Grouping keys are compared as whole cell values. pandas' treatment of text versus numeric keys of equal spelling is not modelled.
- A text cell in a numeric column cannot survive coercion, so sums treat any non-number as contributing nothing.
- `streamlit_app.py` is not part of this model. It is a separate demo page that takes no part in the sales summary.
- Streamlit's rerun-on-interaction lifecycle and file upload I/O are not modelled. The upload is a parameter: `None` or a frame.
