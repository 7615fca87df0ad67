# Transaction pipeline of the personal finance dashboard

A Dafny model of the data path of a small personal finance dashboard built on
pandas. The dashboard loads a CSV of credit-card transactions and offers the
distinct categories in a sidebar. It shows the rows of the selected category,
largest amount first. It then fills missing cells with 0 in place, narrows the
frame to the selected category and groups it by `(Category, Transaction Date)`,
summing `Amount`. A companion analysis script does the same grouping over all
rows and also totals the `Amount` column.

Everything in that path is a pandas call, so the model states pandas' own
semantics for each one:

- `unique` keeps one of each value (NaN included) in first-occurrence order.
- A boolean mask keeps the matching rows in their original order. NaN equals
  nothing, so a NaN selection matches no row.
- `sort_values(by="Amount", ascending=False)` gives a permutation with
  non-increasing amounts and NaN last. The default quicksort is not stable, so
  the order among equal amounts is left open.
- `fillna(0)` writes the integer 0 into every empty cell. In a text column
  that 0 is a value distinct from every string.
- `groupby(...).sum()` uses the defaults `sort=True` and `dropna=True`. Keys
  come out ascending. A category level that mixes the filled 0 with strings is
  sorted with numbers first. Rows with a NaN key part are dropped, and sums
  skip NaN.

The same definitions serve both scripts. Rows are `Table.Txn` values whose
cells are `Option`s. Amounts are whole cents and dates are already-parsed day
numbers. The in-place `fillna` is a method over an `array<Txn>`. The other
steps are functions with lemmas.

Two consequences of pandas' defaults shape the model:

- `groupby` sorts keys by default (`sort=True`), so the grouped table is in
  ascending key order, not first-appearance order.
- `sort_values`' default quicksort is not stable, so the order of equal
  amounts is left open; `AmountSort.AmountsAgree` shows the amount column is
  fixed all the same.

Modules: `Table` (rows, keys, orders, sums), `FillNa`, `Categories` (unique
list and filter), `AmountSort`, `GroupBy`, `NumberFormat`, `Dashboard`
(app/streamlit_app.py) and `Analysis` (app/test.py).

## Model

| member | source | states |
|---|---|---|
| FillNa.FillRow | app/streamlit_app.py:234 | after filling, a row has no missing cell, its present cells are unchanged, and each empty cell holds 0 |
| FillNa.FillAllSpec | app/streamlit_app.py:234 | `fillna(0)` keeps the row count, leaves no cell missing, keeps every present cell of every row, and keeps the amount total |
| FillNa.FillNaInPlace | app/test.py:15 | the in-place `fillna(0, inplace=True)` leaves the array holding exactly the filled rows |
| Categories.Unique | app/streamlit_app.py:29 | `unique` has no duplicates and holds exactly the values of its input |
| Categories.UniqueFirstSeenOrder | app/streamlit_app.py:29 | `unique` lists values in the order of their first occurrence |
| Categories.CategoryListSpec | app/streamlit_app.py:29 | the category list has no duplicates, holds exactly the categories occurring in the frame (NaN included), and is in first-occurrence order |
| Categories.Filter | app/streamlit_app.py:32 | a row is in the filtered view iff it is a frame row whose category equals the selection; the view is no longer than the frame |
| Categories.FilterSelects | app/streamlit_app.py:32 | the filtered view is the subsequence of matching rows in original order: the k-th view row is the frame row at the k-th matching position, positions increase, and a position is listed iff its row matches, so the length is the number of matching rows |
| Categories.FilterNaNIsEmpty | app/streamlit_app.py:29-32 | selecting the NaN option that `unique` offers for an empty Category cell gives an empty view |
| Categories.SelectedCategoryNonEmpty | app/streamlit_app.py:29-32 | any non-NaN option of the category list shows at least one row |
| Categories.FilterAfterFill | app/streamlit_app.py:234-235 | filtering after `fillna(0)` gives the filled rows of the filter before it, so the grouped block and the sidebar select the same rows |
| AmountSort.InsertDescending | app/streamlit_app.py:33 | inserting one row into a descending view gives a descending view with that row added |
| AmountSort.SortByAmount | app/streamlit_app.py:33 | the sorted view is a permutation (same multiset) of its input with non-increasing amounts, NaN last |
| AmountSort.AmountsAgree | app/streamlit_app.py:33 | any two admissible sorted views of the same rows have the same amount at every position; only the order of equal-amount rows is open |
| Dashboard.TopAmountView | app/streamlit_app.py:32-33 | for any admissible result of the sort (a descending permutation of the filtered view), every row shown is a frame row of the selected category, and the amount column is the same as that of `SortByAmount` |
| Table.KeyLessTransitive | app/streamlit_app.py:238 | the `(Category, Transaction Date)` key order is transitive |
| Table.KeyLessConnected | app/streamlit_app.py:238 | any two distinct keys are ordered one way or the other |
| GroupBy.AddTo | app/test.py:20 | adding a row's amount under a key keeps keys ascending, adds the key to the key set, adds the amount to that key's group only, and adds it to the table total |
| GroupBy.GroupSum | app/test.py:20 | the grouped table has ascending keys, exactly the keys of the rows kept, each key's amount the sum over its rows, a total equal to the kept rows' total, and at most one group per row |
| GroupBy.GroupSumSpec | app/test.py:20 | the grouped table meets the group-by-sum specification: ascending unique keys, exactly the rows' keys, each amount the sum over that key's rows, no more groups than rows |
| GroupBy.GroupSumUnique | app/test.py:20 | any table meeting the group-by-sum specification is the grouped table, so the specification fixes the result |
| GroupBy.NothingDropped | app/test.py:15-20 | when no key part is missing, every row's key is a group and the grouped amounts add up to the column total |
| Dashboard.GroupedTableSpec | app/streamlit_app.py:234-238 | the grouped table of the selected rows meets the group-by-sum specification; every group is of the selected category; groups add up to the selected total; every selected row's key is a group; no selected row gives no group |
| Dashboard.GroceriesExample | app/streamlit_app.py:235-238 | two Groceries rows of one day and a Travel row give, for Groceries, a two-row view and one group with the summed amount |
| Dashboard.GroupSelectedCategory | app/streamlit_app.py:234-238 | the echoed block fills the frame in place, selects the filled rows of the category (the same rows as the sidebar filter), and groups them per the specification, all in the selected category, with the total conserved |
| Analysis.GroupedFrameSpec | app/test.py:15-24 | after `fillna(0)` the grouping drops no row, has at most as many groups as rows, and its amounts add up to `total_transactions`, which equals the total as loaded |
| Analysis.Analyse | app/test.py:15-24 | the script fills the frame in place, groups it per the specification, and the grouped amounts add up to `total_transactions` |
| NumberFormat.IntToString | app/streamlit_app.py:123-125 | the integer text in the f-string is a well-formed literal that reads back as the integer |
| NumberFormat.FormatNumber | app/streamlit_app.py:120-125 | the result is text exactly when num is at most one million or a whole number of millions |
| NumberFormat.FormatNumberMeaning | app/streamlit_app.py:120-125 | up to one million the text is "q K" with q the floor of num / 1000; above it, "q M" with q times one million exactly num |
| NumberFormat.FormatNumberAtOneMillion | app/streamlit_app.py:121-125 | exactly one million is still written in thousands, "1000 K" |
| NumberFormat.FormatNumberWholeMillions | app/streamlit_app.py:121-123 | two million is written "2 M" |
| NumberFormat.FormatNumberFloorsNegatives | app/streamlit_app.py:125 | floor division rounds a negative amount down: -1500 gives "-2 K" |

## Left out

- User interface and I/O: page configuration, sidebar widgets, `file_uploader` (its result is unused), `read_csv`, and `st.dataframe`/`st.write`/`print`. The rows and the selected category are parameters.
- Chart builders and plotting (`make_heatmap`, `make_donut`, `make_choropleth`, the seaborn/matplotlib calls). They hand data to charting libraries.
- `calculate_population_difference`, `calculate_amount_date` and `make_choropleth`. They read columns this data lacks, or an undefined name, and cannot run on it. The commented-out Gains/Losses block is not live code.
- The spiral demo and `average_amount_per_category`. Both work in floating point.
- NumberFormat.FormatNumber: returns `None` for the `round(num / 1000000, 1)` branch (num above one million and not a whole number of millions), because that branch uses floating-point rounding.
- Amounts are float64 in the source. The model uses integer cents so sums are exact. Floating-point rounding of sums is not modelled.
- Date parsing (`astype('datetime64[ns]')`). Dates are already-parsed day numbers. A missing date filled with 0 is day 0 (the epoch), which is what the cast makes of 0.
- Columns the pipeline never reads (Posted Date, Type, Memo) are not in the row type. `fillna` fills them too, with no effect on any result here.
- The misspelled `"Categoy"` in the displayed column order. It only affects which columns are shown.
