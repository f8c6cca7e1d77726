# Collections dashboard: the filter-and-aggregate core

`dash_cob.py` is a Streamlit dashboard over a collections spreadsheet. Each row
of the sheet is one open bill: a debtor (`Razão`), a salesperson
(`Vendedor`), a state (`Estado`), a city (`Cidade`), a due date (`Data_Venc`)
and an outstanding balance (`Saldo`). With the user interface taken away, the
script is a small pipeline, and this project models that pipeline as Dafny
functions and proves properties about it:

1. **Normalisation at load time.** The due date is coerced to a date or to
   missing. Year and month (`Ano`, `Mes`) are derived from it. The salesperson
   is upper-cased.
2. **Sidebar filters.** Each of salesperson, state, year and month is either
   "select all" or an explicit choice. "Select all" stands for the sorted
   distinct present values of that column.
3. **The mask.** A row is kept when its year, month, state and salesperson are
   each in the matching list. Kept rows stay in their original order.
4. **The indicators and tables.** These are:
   - the number of distinct debtors and the total balance;
   - the balance by city;
   - the ten largest debtors;
   - the state with the largest balance;
   - the balance by salesperson in ascending order;
   - the balance by (year, month), with Portuguese month abbreviations;
   - the balance by state.

   An empty selection yields the sentinels 0, 0, two empty tables and `""`.

The modules are:

- `Wrappers` holds `Option`.
- `Orders` holds strict total orders, sorted sequences, and Python's
  code-point order on strings.
- `Records` holds the row types, date coercion, upper-casing and
  normalisation.
- `Grouping` holds `groupby(...).sum()` and `nunique()`.
- `Ranking` holds `sort_values`, `nlargest` and `idxmax`.
- `Filtering` holds the sidebar selections and the mask.
- `Dashboard` holds the indicators, the chart tables and a whole run.

Balances are exact integers (cents). A missing text cell or an unreadable date
is `None`. pandas drops those keys when it groups, counts distinct values or
tests membership, and so does the model.

Three behaviours of the code are worth spelling out:

- **Ties in the top-ten table** go to the debtor whose name sorts first.
  `groupby` sorts the debtors by name, and `nlargest` (`keep='first'`) keeps
  the earlier of two equal balances. `Ranking.NLargestTiesGoToSmallerKeys`
  and `Dashboard.TopDebtorsLeaveOutNoLarger` state this.
- **Month names** are the Portuguese abbreviations Jan, Fev, Mar, Abr, Mai,
  Jun, Jul, Ago, Set, Out, Nov, Dez.
- **"Select all"** keeps only the rows whose year, month, state and
  salesperson are all present, because a missing value is in no list.
  `Filtering.SelectAllKeepsFullyKeyed` states this. On a table with no such
  gaps it keeps every row (`Filtering.SelectAllKeepsCompleteTable`).

## Model

| member | source | states |
|---|---|---|
| Records.CoerceDate | dash_cob.py:53 | the coerced date is present exactly when the cell holds a real calendar day within the nanosecond Timestamp range, and it is then that day |
| Records.Normalize | dash_cob.py:53-58 | a normalised row is well formed: year and month are missing exactly when the due date is, they equal its year and month otherwise, the month is in 1..12, and the salesperson is upper-cased; the other columns are unchanged |
| Records.NormalizeAll | dash_cob.py:53-58 | the table is normalised row by row, keeping its length and order |
| Records.UpperCell | dash_cob.py:58 | upper-casing keeps a cell present or missing and leaves it upper-cased |
| Records.UpperIdempotent | dash_cob.py:58 | upper-casing an upper-cased name changes nothing |
| Records.UpperHasNoAsciiLowercase | dash_cob.py:58 | no ASCII lower-case letter survives upper-casing |
| Records.UpperAppend | dash_cob.py:58 | upper-casing works character by character: it distributes over concatenation |
| Records.UpperChar | dash_cob.py:58 | one character upper-cases to one or two characters, two exactly for ß; an ASCII lower-case letter becomes its capital and any other ASCII character stays as it is |
| Records.Upper | dash_cob.py:58 | upper-casing a name gives a result at least as long as the name and at most twice as long |
| Orders.SortedSet | dash_cob.py:70 | `sorted(set(...))`: strictly ascending, holding exactly the given values |
| Orders.StrLtIsStrictTotalOrder | dash_cob.py:70 | Python's string order (code point by code point, a prefix first) is a strict total order |
| Orders.DistinctCardinality | dash_cob.py:121 | a sequence without repetitions has as many distinct values as elements |
| Filtering.Available | dash_cob.py:70-102 | the options of a filter are strictly ascending and are exactly the values present in that column |
| Filtering.Inclusions | dash_cob.py:70-102 | an explicit choice is used as chosen; "select all" stands for the strictly ascending list of exactly the values present in that column of the whole table |
| Filtering.Filter | dash_cob.py:107-112 | the masked frame is no longer than the table, and each kept row matches all four lists and comes from the table |
| Filtering.IsIn | dash_cob.py:107-112 | `isin`: a missing cell is in no list, and a present cell is in the list exactly when some entry equals it |
| Filtering.Matches | dash_cob.py:107-112 | a row passing the mask has a year, a month, a state and a salesperson, each in its list |
| Filtering.MatchingIndices | dash_cob.py:107-112 | the positions of the matching rows are increasing, in range, and hold position j exactly when row j matches |
| Filtering.FilterKeepsExactlyTheMatches | dash_cob.py:107-112 | the k-th kept row is the k-th matching row of the table, so the result is the subsequence of matching rows in their original order |
| Filtering.FilterKeepsAllWhenAllMatch | dash_cob.py:107-112 | when every row matches, the table comes back unchanged |
| Filtering.SelectAllMatchesFullyKeyed | dash_cob.py:70-112 | with every "select all" box ticked, a row of the table passes exactly when its year, month, state and salesperson are all present |
| Filtering.SelectAllKeepsFullyKeyed | dash_cob.py:70-112 | with every "select all" box ticked, position j is kept exactly when row j has all four filter values |
| Filtering.SelectAllKeepsCompleteTable | dash_cob.py:70-112 | on a table with no missing filter values, "select all" keeps every row in order |
| Filtering.NoChosenStateKeepsNothing | dash_cob.py:107-112 | a state list holding none of the table's states leaves no row |
| Grouping.KeysOf | dash_cob.py:70 | the present keys of the rows are exactly the keys some row has |
| Grouping.GroupSum | dash_cob.py:123-126 | one row per present key, strictly ascending by key, each holding the summed balance of that key's rows |
| Grouping.Unique | dash_cob.py:121 | `unique()` has no repetitions and the same values as its input |
| Grouping.CountDistinct | dash_cob.py:121 | `nunique()` is the number of distinct present keys |
| Grouping.GroupTotalsAddUp | dash_cob.py:122-126 | the group sums add up to the summed balance of the rows whose key is present |
| Grouping.KeyedTotalOfKeyedRows | dash_cob.py:122 | when no row misses the key, that sum is the whole total |
| Grouping.Total | dash_cob.py:122 | `Saldo.sum()` adds the balances one row at a time: the total of a table is the total without its last row plus that row's balance |
| Grouping.TabulateSum | dash_cob.py:123-126 | summing per distinct key covering every present key gives the total of the keyed rows |
| Ranking.SortByTotal | dash_cob.py:153 | the sort orders by balance, is a permutation, and keeps rows of equal balance in their original order |
| Ranking.SortKeepsSum | dash_cob.py:153 | sorting keeps the sum of the balance column |
| Ranking.NLargest | dash_cob.py:124 | `nlargest(n)` returns min(n, size) rows, largest balance first, drawn from the table |
| Ranking.NLargestLeavesOutNoLarger | dash_cob.py:124 | no row left out has a larger balance than a row kept |
| Ranking.NLargestKeepsEarliestTies | dash_cob.py:124 | among rows of equal balance, the kept ones are the earliest, in their original order |
| Ranking.NLargestTiesGoToSmallerKeys | dash_cob.py:124 | on a key-sorted table, a row left out with the same balance as a kept row has the larger key |
| Ranking.NLargestLeftOutRow | dash_cob.py:124 | on a key-sorted table, a row whose key `nlargest` leaves out has a balance no larger than any kept row's, and a larger key on a tie |
| Ranking.NLargestRowFromTable | dash_cob.py:124 | every row `nlargest` keeps is a row of the table it ranks |
| Ranking.SubTableKeepsKeysDistinct | dash_cob.py:124 | rows drawn from a table with one row per key have one row per key |
| Ranking.IdxMax | dash_cob.py:125 | `idxmax()` is the position of a largest balance, and no earlier position has one as large |
| Ranking.IdxMaxPicksSmallestKey | dash_cob.py:125 | on a key-sorted table, every other row with the largest balance has a larger key |
| Dashboard.MonthNamesFollowMonthOrder | dash_cob.py:175-185 | month m in 1..12 is named by the m-th of Jan..Dez, other numbers by nothing, and the names are distinct |
| Dashboard.MonthName | dash_cob.py:179 | `map(meses_nomes)`: a month number has a name exactly when it is 1..12, and then the name is the m-th of Jan..Dez |
| Dashboard.DebtorTotals | dash_cob.py:124 | the balance by debtor is strictly ascending by name, with exactly the present debtors and their summed balances |
| Dashboard.CityTotals | dash_cob.py:123 | the balance by city is strictly ascending by name, with exactly the present cities and their summed balances |
| Dashboard.StateTotals | dash_cob.py:203 | the balance by state is strictly ascending by name, with exactly the present states and their summed balances |
| Dashboard.SalespersonTotals | dash_cob.py:153 | the balance by salesperson is strictly ascending by name, with exactly the present salespeople and their summed balances |
| Dashboard.MostDelinquentState | dash_cob.py:125 | the most delinquent state occurs in the rows; no state owes more; a state owing as much sorts after it |
| Dashboard.TopDebtors | dash_cob.py:124 | `top_10_devedores` has at most ten rows, largest balance first, drawn from the balance by debtor |
| Dashboard.StateTotalsMaximum | dash_cob.py:125 | the state of a largest row of the state table occurs in the rows, its summed balance bounds every row's state total, and a state with an equal total sorts after it |
| Dashboard.DistinctDebtors | dash_cob.py:121 | `Razão.nunique()` is the number of distinct debtor names present |
| Dashboard.ComputeKpis | dash_cob.py:120-128 | an empty selection gives 0, 0, no cities, no debtors and ""; otherwise the client count is the number of distinct debtors, the total is the sum of the balances, and the state is the most delinquent one |
| Dashboard.MonthTable | dash_cob.py:169-187 | one month row per (year, month) group, in group order, named through the month dictionary |
| Dashboard.SalespersonChart | dash_cob.py:153 | the salesperson chart is ascending by balance and a permutation of the balance by salesperson |
| Dashboard.ComputeCharts | dash_cob.py:150-203 | the salesperson bars are ascending by balance, the months strictly ascending by (year, month), and the states strictly ascending by name, each state with its summed balance |
| Dashboard.Render | dash_cob.py:53-128 | every row the dashboard shows has all four filter values and is well formed, and the charts exist exactly when the selection is not empty |
| Dashboard.DebtorTotalsCountDebtors | dash_cob.py:121-124 | the balance by debtor has one row per distinct debtor name |
| Dashboard.TopDebtorsShape | dash_cob.py:124 | the top-debtors table has ten rows, or one per debtor when there are fewer; no debtor repeats; largest balance first |
| Dashboard.TopDebtorsTotals | dash_cob.py:124 | each top debtor occurs in the rows and carries its summed balance |
| Dashboard.TopDebtorsLeaveOutNoLarger | dash_cob.py:124 | a debtor left out owes no more than any kept, and one owing as much sorts after it by name |
| Dashboard.TotalsAddUp | dash_cob.py:122-126 | on filtered rows, the state table and the salesperson chart each add up to the total balance |
| Dashboard.SalespersonChartSpec | dash_cob.py:153 | the salesperson chart is ascending by balance, a permutation of the group table, each salesperson once and upper-cased, with its summed balance |
| Dashboard.MonthTableOrdered | dash_cob.py:169-187 | the month table is strictly ascending by (year, month) |
| Dashboard.MonthTableRows | dash_cob.py:169-173 | each month row is a (year, month) some row has, with the summed balance of that month's rows |
| Dashboard.MonthTableCoversRows | dash_cob.py:169-173 | every row with a year and a month has its month row |
| Dashboard.MonthTableNames | dash_cob.py:175-185 | on normalised rows every month is in 1..12 and is named by its entry of Jan..Dez |
| Dashboard.SelectAllKeepsDatedRows | dash_cob.py:53-112 | with every "select all" box ticked, a sheet row is kept exactly when its due date is readable and its state and salesperson are filled in |
| Dashboard.EmptySelectionSentinels | dash_cob.py:127-128 | a selection that leaves no row gives the sentinels and no charts |
| Dashboard.CaseVariantsMerge | dash_cob.py:58-126 | two rows of state SP whose salesperson is written "x" and "X" give one salesperson "X" owing 150, two clients, a total of 150 and state SP |
| Dashboard.CaseVariantsSalespersonTotals | dash_cob.py:126 | in that example the balance by salesperson is the single row ("X", 150) |

## Left out

- The login form, the session state, the sidebar widgets and logout (dash_cob.py:10-42, 63-68) are interface code. The choice each widget returns is a parameter (`Filters`).
- Reading the sheet from a fixed path and stripping the column names (dash_cob.py:47-50) is I/O. The model starts from the rows.
- How `pd.to_datetime` parses text is not modelled. A due-date cell arrives as blank, unreadable text, or year/month/day fields. Only the coercion of non-dates and of dates out of range to missing is modelled.
- The GeoJSON download (dash_cob.py:205-206) is network I/O. The Plotly figures and `st.dataframe`/`st.metric` display (dash_cob.py:130-166, 189-226) are presentation. The model stops at the tables they are drawn from.
- Floating point is not modelled: balances are exact integers, the money formatting of line 132 is absent, and so is the 1.1 axis scale of line 195.
- A missing `Saldo` cell is not modelled (pandas skips it when summing). Every row carries a balance.
- The script's failure on an empty selection (`inad_mes_a_mes` is used at lines 190-195 without being defined) is not modelled. An empty selection gives the sentinels of line 128 and no charts.
- The first `Inad_por_vendedor` (line 126) is replaced by the sorted one of line 153 before any use. Only the latter is part of `Charts`.
- Records.UpperChar: covers ASCII and Latin-1 (including ß to "SS", µ to capital mu and ÿ to capital Y with diaeresis). Python's upper-casing of other scripts is not modelled.
- Ranking.NLargest: keeps equal balances in their original order (key order) on every path. When the table has no more than ten debtors, pandas' `nlargest` returns `sort_values(ascending=False).head(n)` with its default, non-stable quicksort, so debtors of equal balance may then come out in another order. Which debtors are kept is the same, since all are.
- Dashboard.SalespersonChart: modelled as a stable sort. pandas' default quicksort may order salespeople of equal balance differently.
- Dashboard.MonthTable: the categorical `Mes_Nome` column is kept as an optional name. Its ordering is not modelled, because the table is sorted by the numeric month.
- Filtering.Inclusions: an explicit choice may be any list of values. The widget only offers present values, but the mask treats any list the same way.
