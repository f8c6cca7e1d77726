/**
 * The collections dashboard without its user interface: normalise the loaded
 * table, filter it by the sidebar selections, and compute the indicators
 * (distinct debtors, total balance, most delinquent state), the tables
 * (balance by city, top debtors) and, for a non-empty selection, the data
 * behind the three charts (by salesperson, month by month, by state).
 */
module Dashboard {
  import opened Wrappers
  import opened Orders
  import opened Records
  import opened Grouping
  import opened Ranking
  import opened Filtering

  /** How many debtors the top-debtors table lists. */
  const TopN: nat := 10

  /** `ordem_meses`, also the ordered categories of the `Mes_Nome` column. */
  const MonthOrder: seq<string> :=
    ["Jan", "Fev", "Mar", "Abr", "Mai", "Jun", "Jul", "Ago", "Set", "Out", "Nov", "Dez"]

  /** `meses_nomes`. */
  const MonthNames: map<int, string> :=
    map[1 := "Jan", 2 := "Fev", 3 := "Mar", 4 := "Abr", 5 := "Mai", 6 := "Jun",
        7 := "Jul", 8 := "Ago", 9 := "Set", 10 := "Out", 11 := "Nov", 12 := "Dez"]

  /** `Series.map(meses_nomes)`: a month the dictionary lacks maps to missing. */
  function MonthName(m: int): (n: Option<string>)
    ensures n.Some? <==> 1 <= m <= 12
    ensures n.Some? ==> n.value == MonthOrder[m - 1]
  {
    if m in MonthNames then Some(MonthNames[m]) else None
  }

  /** The name of month m is the m-th category, and the categories are
      distinct, so ordering by `Mes_Nome` is ordering by month. */
  lemma MonthNamesFollowMonthOrder()
    ensures forall m :: 1 <= m <= 12 ==> MonthName(m) == Some(MonthOrder[m - 1])
    ensures forall m :: m < 1 || 12 < m ==> MonthName(m) == None
    ensures NoDuplicates(MonthOrder)
  {
  }

  datatype Kpis = Kpis(
    totalClients: nat,              // total_clientes
    totalBalance: int,              // total_inad
    byCity: Table<string>,          // total_regiao (by Cidade)
    topDebtors: Table<string>,      // top_10_devedores
    mostDelinquentState: string)    // regiao_mais_inadimplente

  /** One row of `inad_mes_a_mes`. */
  datatype MonthRow = MonthRow(year: int, month: int, monthName: Option<string>, total: int)

  datatype Charts = Charts(
    bySalesperson: Table<string>,   // Inad_por_vendedor, ascending
    byMonth: seq<MonthRow>,         // inad_mes_a_mes
    byState: Table<string>)         // total_regiao (by Estado)

  /** What one run of the script computes; the charts exist only for a
      non-empty selection. */
  datatype View = View(filtered: seq<Record>, kpis: Kpis, charts: Option<Charts>)

  predicate AllHaveState(rows: seq<Record>) {
    forall i :: 0 <= i < |rows| ==> rows[i].state.Some?
  }

  // ---------------------------------------------------------------------
  // The grouped tables

  /** `groupby('Razão')['Saldo'].sum()`. */
  function DebtorTotals(rows: seq<Record>): (t: Table<string>)
    ensures StrictlySorted(KeyColumn(t), StrLt)
    ensures forall k :: k in KeyColumn(t) <==> exists i :: 0 <= i < |rows| && rows[i].debtor == Some(k)
    ensures forall j :: 0 <= j < |t| ==> t[j].1 == SumWhere(rows, DebtorKey, t[j].0)
  {
    StrLtIsStrictTotalOrder();
    var t := GroupSum(rows, DebtorKey, StrLt);
    assert forall k :: (exists i :: 0 <= i < |rows| && rows[i].debtor == Some(k))
                   <==> (exists i :: 0 <= i < |rows| && DebtorKey(rows[i]) == Some(k));
    t
  }

  /** `groupby('Cidade')['Saldo'].sum()`. */
  function CityTotals(rows: seq<Record>): (t: Table<string>)
    ensures StrictlySorted(KeyColumn(t), StrLt)
    ensures forall k :: k in KeyColumn(t) <==> exists i :: 0 <= i < |rows| && rows[i].city == Some(k)
    ensures forall j :: 0 <= j < |t| ==> t[j].1 == SumWhere(rows, CityKey, t[j].0)
  {
    StrLtIsStrictTotalOrder();
    var t := GroupSum(rows, CityKey, StrLt);
    assert forall k :: (exists i :: 0 <= i < |rows| && rows[i].city == Some(k))
                   <==> (exists i :: 0 <= i < |rows| && CityKey(rows[i]) == Some(k));
    t
  }

  /** `groupby('Estado')['Saldo'].sum()`. */
  function StateTotals(rows: seq<Record>): (t: Table<string>)
    ensures StrictlySorted(KeyColumn(t), StrLt)
    ensures forall k :: k in KeyColumn(t) <==> exists i :: 0 <= i < |rows| && rows[i].state == Some(k)
    ensures forall j :: 0 <= j < |t| ==> t[j].1 == SumWhere(rows, StateKey, t[j].0)
  {
    StrLtIsStrictTotalOrder();
    var t := GroupSum(rows, StateKey, StrLt);
    assert forall k :: (exists i :: 0 <= i < |rows| && rows[i].state == Some(k))
                   <==> (exists i :: 0 <= i < |rows| && StateKey(rows[i]) == Some(k));
    t
  }

  /** `groupby('Vendedor')['Saldo'].sum()`. */
  function SalespersonTotals(rows: seq<Record>): (t: Table<string>)
    ensures StrictlySorted(KeyColumn(t), StrLt)
    ensures forall k :: k in KeyColumn(t) <==> exists i :: 0 <= i < |rows| && rows[i].salesperson == Some(k)
    ensures forall j :: 0 <= j < |t| ==> t[j].1 == SumWhere(rows, SalespersonKey, t[j].0)
  {
    StrLtIsStrictTotalOrder();
    var t := GroupSum(rows, SalespersonKey, StrLt);
    assert forall k :: (exists i :: 0 <= i < |rows| && rows[i].salesperson == Some(k))
                   <==> (exists i :: 0 <= i < |rows| && SalespersonKey(rows[i]) == Some(k));
    t
  }

  /** A row of the state table that no state's total exceeds, and that
      every state of equal total follows by name, does the same among the
      rows' states. */
  lemma StateTotalsMaximum(rows: seq<Record>, m: int)
    requires AllHaveState(rows)
    requires 0 <= m < |StateTotals(rows)|
    requires var t := StateTotals(rows);
      forall j :: 0 <= j < |t| ==> t[j].1 <= t[m].1 && (j != m && t[j].1 == t[m].1 ==> StrLt(t[m].0, t[j].0))
    ensures var s := StateTotals(rows)[m].0;
      exists i :: 0 <= i < |rows| && rows[i].state == Some(s)
    ensures var s := StateTotals(rows)[m].0;
      forall i :: 0 <= i < |rows| ==>
        SumWhere(rows, StateKey, rows[i].state.value) <= SumWhere(rows, StateKey, s)
        && (rows[i].state.value != s && SumWhere(rows, StateKey, rows[i].state.value) == SumWhere(rows, StateKey, s)
            ==> StrLt(s, rows[i].state.value))
  {
    var t := StateTotals(rows);
    assert KeyColumn(t)[m] == t[m].0;
    forall i | 0 <= i < |rows|
      ensures SumWhere(rows, StateKey, rows[i].state.value) <= t[m].1
      ensures rows[i].state.value != t[m].0 && SumWhere(rows, StateKey, rows[i].state.value) == t[m].1
              ==> StrLt(t[m].0, rows[i].state.value)
    {
      var k := rows[i].state.value;
      assert k in KeyColumn(t);
      var j :| 0 <= j < |t| && KeyColumn(t)[j] == k;
      assert t[j] == (k, SumWhere(rows, StateKey, k));
    }
  }

  /** `groupby('Estado')['Saldo'].sum().idxmax()`: the state with the largest
      summed balance; of several, the first in state order. */
  function MostDelinquentState(rows: seq<Record>): (s: string)
    requires rows != [] && AllHaveState(rows)
    ensures exists i :: 0 <= i < |rows| && rows[i].state == Some(s)
    ensures forall i :: 0 <= i < |rows| ==>
              SumWhere(rows, StateKey, rows[i].state.value) <= SumWhere(rows, StateKey, s)
    ensures forall i :: 0 <= i < |rows| && rows[i].state.value != s
              && SumWhere(rows, StateKey, rows[i].state.value) == SumWhere(rows, StateKey, s)
              ==> StrLt(s, rows[i].state.value)
  {
    var t := StateTotals(rows);
    assert rows[0].state.value in KeyColumn(t);
    var m := IdxMax(t);
    IdxMaxPicksSmallestKey(t, StrLt);
    StateTotalsMaximum(rows, m);
    t[m].0
  }

  /** `groupby('Razão')['Saldo'].sum().nlargest(10)`. */
  function TopDebtors(rows: seq<Record>): (top: Table<string>)
    ensures |top| <= TopN
    ensures OrderedByTotal(top, true)
    ensures multiset(top) <= multiset(DebtorTotals(rows))
  {
    NLargest(DebtorTotals(rows), TopN)
  }

  /** `Razão.nunique()` counts the distinct debtor names present. */
  lemma DistinctDebtors(rows: seq<Record>)
    ensures CountDistinct(rows, DebtorKey) == |set i | 0 <= i < |rows| && rows[i].debtor.Some? :: rows[i].debtor.value|
  {
    var key := DebtorKey;
    var a := set i | 0 <= i < |rows| && key(rows[i]).Some? :: key(rows[i]).value;
    var b := set i | 0 <= i < |rows| && rows[i].debtor.Some? :: rows[i].debtor.value;
    assert CountDistinct(rows, key) == |a|;
    forall x | x in a ensures x in b {
      var i :| 0 <= i < |rows| && key(rows[i]).Some? && key(rows[i]).value == x;
    }
    forall x | x in b ensures x in a {
      var i :| 0 <= i < |rows| && rows[i].debtor.Some? && rows[i].debtor.value == x;
      assert key(rows[i]).Some? && key(rows[i]).value == x;
    }
    assert a == b;
  }

  /** Lines 120-128: the indicators and tables above the charts, or the
      sentinels when the selection is empty. */
  function ComputeKpis(rows: seq<Record>): (k: Kpis)
    requires AllHaveState(rows)
    ensures rows == [] ==> k == Kpis(0, 0, [], [], "")
    ensures rows != [] ==>
      && k.totalClients == |set i | 0 <= i < |rows| && rows[i].debtor.Some? :: rows[i].debtor.value|
      && k.totalBalance == Total(rows)
      && k.mostDelinquentState == MostDelinquentState(rows)
      && k.byCity == CityTotals(rows)
      && k.topDebtors == TopDebtors(rows)
  {
    if rows == [] then Kpis(0, 0, [], [], "")
    else
      DistinctDebtors(rows);
      Kpis(CountDistinct(rows, DebtorKey), Total(rows), CityTotals(rows), TopDebtors(rows), MostDelinquentState(rows))
  }

  /** Line 153: the balance by salesperson, ascending. */
  function SalespersonChart(rows: seq<Record>): (chart: Table<string>)
    ensures OrderedByTotal(chart, false)
    ensures multiset(chart) == multiset(SalespersonTotals(rows))
  {
    SortByTotal(SalespersonTotals(rows), false)
  }

  /** Lines 169-187: the balance by (year, month), with the month's name. */
  function MonthTable(rows: seq<Record>): (mt: seq<MonthRow>)
    ensures |mt| == |GroupSum(rows, YearMonthKey, PairLt)|
    ensures forall i :: 0 <= i < |mt| ==>
      var g := GroupSum(rows, YearMonthKey, PairLt)[i];
      mt[i] == MonthRow(g.0.0, g.0.1, MonthName(g.0.1), g.1)
  {
    PairLtIsStrictTotalOrder();
    var g := GroupSum(rows, YearMonthKey, PairLt);
    seq(|g|, i requires 0 <= i < |g| => MonthRow(g[i].0.0, g[i].0.1, MonthName(g[i].0.1), g[i].1))
  }

  /** The three chart tables: the salesperson bars ascending by balance, the
      months in (year, month) order, and the states by name. */
  function ComputeCharts(rows: seq<Record>): (c: Charts)
    ensures OrderedByTotal(c.bySalesperson, false)
    ensures forall j, k :: 0 <= j < k < |c.byMonth| ==>
              PairLt((c.byMonth[j].year, c.byMonth[j].month), (c.byMonth[k].year, c.byMonth[k].month))
    ensures StrictlySorted(KeyColumn(c.byState), StrLt)
    ensures forall j :: 0 <= j < |c.byState| ==> c.byState[j].1 == SumWhere(rows, StateKey, c.byState[j].0)
  {
    MonthTableOrdered(rows);
    Charts(SalespersonChart(rows), MonthTable(rows), StateTotals(rows))
  }

  /** One run of the script on the loaded sheet and the sidebar filters. */
  function Render(raws: seq<RawRecord>, f: Filters): (v: View)
    ensures forall i :: 0 <= i < |v.filtered| ==> FullyKeyed(v.filtered[i]) && WellFormed(v.filtered[i])
    ensures v.charts.Some? <==> v.filtered != []
  {
    var table := NormalizeAll(raws);
    var kept := Filter(table, Inclusions(table, f));
    forall i | 0 <= i < |kept| ensures FullyKeyed(kept[i]) && WellFormed(kept[i]) {
      var j :| 0 <= j < |table| && table[j] == kept[i];
    }
    View(kept, ComputeKpis(kept), if kept == [] then None else Some(ComputeCharts(kept)))
  }

  // ---------------------------------------------------------------------
  // Properties of the views

  /** One row per distinct debtor name present. */
  lemma DebtorTotalsCountDebtors(rows: seq<Record>)
    ensures NoDuplicates(KeyColumn(DebtorTotals(rows)))
    ensures |DebtorTotals(rows)| == |set i | 0 <= i < |rows| && rows[i].debtor.Some? :: rows[i].debtor.value|
  {
    var g := DebtorTotals(rows);
    assert NoDuplicates(KeyColumn(g)) by {
      StrLtIsStrictTotalOrder();
      StrictlySortedHasNoDuplicates(KeyColumn(g), StrLt);
    }
    DistinctCardinality(KeyColumn(g));
    var a := set x | x in KeyColumn(g);
    var b := set i | 0 <= i < |rows| && rows[i].debtor.Some? :: rows[i].debtor.value;
    forall x | x in a ensures x in b {
      var i :| 0 <= i < |rows| && rows[i].debtor == Some(x);
    }
    forall x | x in b ensures x in a {
      var i :| 0 <= i < |rows| && rows[i].debtor.Some? && rows[i].debtor.value == x;
    }
    assert a == b;
  }

  /** `top_10_devedores`: at most ten debtors (fewer only when there are fewer
      debtors), none twice, largest balance first. */
  lemma TopDebtorsShape(rows: seq<Record>)
    ensures var top := TopDebtors(rows);
      var clients := |set i | 0 <= i < |rows| && rows[i].debtor.Some? :: rows[i].debtor.value|;
      && |top| == (if clients < TopN then clients else TopN)
      && NoDuplicates(KeyColumn(top))
      && OrderedByTotal(top, true)
  {
    DebtorTotalsCountDebtors(rows);
    SubTableKeepsKeysDistinct(TopDebtors(rows), DebtorTotals(rows));
  }

  /** Each row of `top_10_devedores` is a debtor of the rows with the summed
      balance of that debtor. */
  lemma TopDebtorsTotals(rows: seq<Record>)
    ensures var top := TopDebtors(rows);
      forall j :: 0 <= j < |top| ==>
        (exists i :: 0 <= i < |rows| && rows[i].debtor == Some(top[j].0))
        && top[j].1 == SumWhere(rows, DebtorKey, top[j].0)
  {
    var g := DebtorTotals(rows);
    var top := NLargest(g, TopN);
    forall j | 0 <= j < |top|
      ensures (exists i :: 0 <= i < |rows| && rows[i].debtor == Some(top[j].0))
      ensures top[j].1 == SumWhere(rows, DebtorKey, top[j].0)
    {
      NLargestRowFromTable(g, TopN, j);
      var a :| 0 <= a < |g| && g[a] == top[j];
      assert KeyColumn(g)[a] == top[j].0 && KeyColumn(g)[a] in KeyColumn(g);
    }
  }

  /** No debtor left out of `top_10_devedores` owes more than one kept, and
      one left out owing as much as one kept comes later by name. */
  lemma TopDebtorsLeaveOutNoLarger(rows: seq<Record>, i: int, j: int)
    requires 0 <= i < |rows| && rows[i].debtor.Some?
    requires rows[i].debtor.value !in KeyColumn(TopDebtors(rows))
    requires 0 <= j < |TopDebtors(rows)|
    ensures var top := TopDebtors(rows);
      && SumWhere(rows, DebtorKey, rows[i].debtor.value) <= top[j].1
      && (SumWhere(rows, DebtorKey, rows[i].debtor.value) == top[j].1 ==> StrLt(top[j].0, rows[i].debtor.value))
  {
    var g := DebtorTotals(rows);
    var d := rows[i].debtor.value;
    assert d in KeyColumn(g);
    var a :| 0 <= a < |g| && KeyColumn(g)[a] == d;
    assert g[a] == (d, SumWhere(rows, DebtorKey, d));
    NLargestLeftOutRow(g, TopN, StrLt, a, j);
  }

  /** Every filtered row has a state and a salesperson, so the state table
      and the salesperson chart each add up to the total balance. */
  lemma TotalsAddUp(rows: seq<Record>)
    requires forall i :: 0 <= i < |rows| ==> FullyKeyed(rows[i])
    ensures SumTotals(StateTotals(rows)) == Total(rows)
    ensures SumTotals(SalespersonChart(rows)) == Total(rows)
  {
    StrLtIsStrictTotalOrder();
    GroupTotalsAddUp(rows, StateKey, StrLt);
    KeyedTotalOfKeyedRows(rows, StateKey);
    GroupTotalsAddUp(rows, SalespersonKey, StrLt);
    KeyedTotalOfKeyedRows(rows, SalespersonKey);
    SortKeepsSum(SalespersonTotals(rows), false);
  }

  /** `Inad_por_vendedor`: the per-salesperson totals, each salesperson once
      and in upper case (so no two rows are case variants of one name),
      ordered by ascending balance, ties in name order. */
  lemma SalespersonChartSpec(rows: seq<Record>)
    requires forall i :: 0 <= i < |rows| ==> WellFormed(rows[i])
    ensures var chart := SalespersonChart(rows);
      && OrderedByTotal(chart, false)
      && multiset(chart) == multiset(SalespersonTotals(rows))
      && NoDuplicates(KeyColumn(chart))
      && (forall j :: 0 <= j < |chart| ==>
            Upper(chart[j].0) == chart[j].0
            && chart[j].1 == SumWhere(rows, SalespersonKey, chart[j].0))
  {
    var g := SalespersonTotals(rows);
    var chart := SalespersonChart(rows);
    assert NoDuplicates(KeyColumn(g)) by {
      StrLtIsStrictTotalOrder();
      StrictlySortedHasNoDuplicates(KeyColumn(g), StrLt);
    }
    SubTableKeepsKeysDistinct(chart, g);
    forall j | 0 <= j < |chart|
      ensures Upper(chart[j].0) == chart[j].0
      ensures chart[j].1 == SumWhere(rows, SalespersonKey, chart[j].0)
    {
      assert chart[j] in multiset(g);
      var a :| 0 <= a < |g| && g[a] == chart[j];
      assert KeyColumn(g)[a] == chart[j].0;
      var i :| 0 <= i < |rows| && SalespersonKey(rows[i]) == Some(chart[j].0);
      assert WellFormed(rows[i]);
    }
  }

  /** `inad_mes_a_mes` is strictly ascending by (year, month), so no
      (year, month) appears twice. */
  lemma MonthTableOrdered(rows: seq<Record>)
    ensures var mt := MonthTable(rows);
      forall j, k :: 0 <= j < k < |mt| ==> PairLt((mt[j].year, mt[j].month), (mt[k].year, mt[k].month))
  {
    var g := GroupSum(rows, YearMonthKey, PairLt);
    var mt := MonthTable(rows);
    forall j, k | 0 <= j < k < |mt| ensures PairLt((mt[j].year, mt[j].month), (mt[k].year, mt[k].month)) {
      assert (mt[j].year, mt[j].month) == KeyColumn(g)[j];
      assert (mt[k].year, mt[k].month) == KeyColumn(g)[k];
    }
  }

  /** Each row of `inad_mes_a_mes` is a (year, month) some row has, with the
      summed balance of the rows of that month. */
  lemma MonthTableRows(rows: seq<Record>)
    ensures var mt := MonthTable(rows);
      forall j :: 0 <= j < |mt| ==>
        (exists i :: 0 <= i < |rows| && rows[i].year == Some(mt[j].year) && rows[i].month == Some(mt[j].month))
        && mt[j].total == SumWhere(rows, YearMonthKey, (mt[j].year, mt[j].month))
  {
    var g := GroupSum(rows, YearMonthKey, PairLt);
    var mt := MonthTable(rows);
    forall j | 0 <= j < |mt|
      ensures exists i :: 0 <= i < |rows| && rows[i].year == Some(mt[j].year) && rows[i].month == Some(mt[j].month)
      ensures mt[j].total == SumWhere(rows, YearMonthKey, (mt[j].year, mt[j].month))
    {
      assert (mt[j].year, mt[j].month) == g[j].0 == KeyColumn(g)[j];
      assert KeyColumn(g)[j] in KeyColumn(g);
      var i :| 0 <= i < |rows| && YearMonthKey(rows[i]) == Some(g[j].0);
      assert rows[i].year == Some(mt[j].year) && rows[i].month == Some(mt[j].month);
    }
  }

  /** Every row with a year and a month is counted in `inad_mes_a_mes`. */
  lemma MonthTableCoversRows(rows: seq<Record>)
    ensures var mt := MonthTable(rows);
      forall i :: 0 <= i < |rows| && rows[i].year.Some? && rows[i].month.Some? ==>
        exists j :: 0 <= j < |mt| && mt[j].year == rows[i].year.value && mt[j].month == rows[i].month.value
  {
    var g := GroupSum(rows, YearMonthKey, PairLt);
    var mt := MonthTable(rows);
    forall i | 0 <= i < |rows| && rows[i].year.Some? && rows[i].month.Some?
      ensures exists j :: 0 <= j < |mt| && mt[j].year == rows[i].year.value && mt[j].month == rows[i].month.value
    {
      var ym := (rows[i].year.value, rows[i].month.value);
      assert YearMonthKey(rows[i]) == Some(ym);
      assert ym in KeyColumn(g);
      var j :| 0 <= j < |g| && KeyColumn(g)[j] == ym;
      assert g[j].0 == ym;
      assert mt[j].year == ym.0 && mt[j].month == ym.1;
    }
  }

  /** `Mes_Nome`: on normalised rows every month is 1..12 and is named by
      its entry of Jan, Fev, ..., Dez. */
  lemma MonthTableNames(rows: seq<Record>)
    requires forall i :: 0 <= i < |rows| ==> WellFormed(rows[i])
    ensures var mt := MonthTable(rows);
      forall j :: 0 <= j < |mt| ==>
        1 <= mt[j].month <= 12 && mt[j].monthName == Some(MonthOrder[mt[j].month - 1])
  {
    MonthTableRows(rows);
    MonthNamesFollowMonthOrder();
    var mt := MonthTable(rows);
    forall j | 0 <= j < |mt| ensures 1 <= mt[j].month <= 12 {
      var i :| 0 <= i < |rows| && rows[i].year == Some(mt[j].year) && rows[i].month == Some(mt[j].month);
      assert WellFormed(rows[i]);
    }
  }

  /** With every "select all" box ticked, the dashboard keeps exactly the
      sheet's rows whose due date could be read and whose state and
      salesperson are filled in. */
  lemma SelectAllKeepsDatedRows(raws: seq<RawRecord>)
    ensures var table := NormalizeAll(raws);
      forall j :: 0 <= j < |raws| ==>
        (j in MatchingIndices(table, Inclusions(table, SelectAll))
         <==> CoerceDate(raws[j].due).Some? && raws[j].state.Some? && raws[j].salesperson.Some?)
  {
    var table := NormalizeAll(raws);
    SelectAllKeepsFullyKeyed(table);
    assert forall j :: 0 <= j < |raws| ==>
      (FullyKeyed(table[j]) <==> CoerceDate(raws[j].due).Some? && raws[j].state.Some? && raws[j].salesperson.Some?);
  }

  /** A selection that leaves no row yields the sentinels and no charts. */
  lemma EmptySelectionSentinels(raws: seq<RawRecord>, f: Filters)
    requires Render(raws, f).filtered == []
    ensures Render(raws, f).kpis == Kpis(0, 0, [], [], "")
    ensures Render(raws, f).charts == None
  {
  }

  // ---------------------------------------------------------------------
  // Two rows of one state whose salesperson is written "x" and "X"

  const CaseVariantSheet: seq<RawRecord> := [
    RawRecord(Some("A"), Some("x"), Some("SP"), Some("Campinas"), Ymd(2024, 1, 10), 100),
    RawRecord(Some("B"), Some("X"), Some("SP"), Some("Santos"), Ymd(2024, 1, 20), 50)]

  const CaseVariantTable: seq<Record> := [
    Record(Some("A"), Some("X"), Some("SP"), Some("Campinas"), Some(Date(2024, 1, 10)), Some(2024), Some(1), 100),
    Record(Some("B"), Some("X"), Some("SP"), Some("Santos"), Some(Date(2024, 1, 20)), Some(2024), Some(1), 50)]

  lemma CaseVariantsNormalize()
    ensures NormalizeAll(CaseVariantSheet) == CaseVariantTable
  {
    assert Upper("x") == "X" && Upper("X") == "X";
  }

  lemma CaseVariantsSalespersonTotals()
    ensures SalespersonTotals(CaseVariantTable) == [("X", 150)]
  {
    var rows := CaseVariantTable;
    var g := SalespersonTotals(rows);
    assert forall k :: k in KeyColumn(g) <==> k == "X" by {
      assert rows[0].salesperson == Some("X");
    }
    assert NoDuplicates(KeyColumn(g)) by {
      StrLtIsStrictTotalOrder();
      StrictlySortedHasNoDuplicates(KeyColumn(g), StrLt);
    }
    DistinctCardinality(KeyColumn(g));
    assert (set k | k in KeyColumn(g)) == {"X"};
    assert g[0].0 == KeyColumn(g)[0] == "X";
    assert SumWhere(rows, SalespersonKey, "X") == 150;
  }

  lemma CaseVariantsDebtors()
    ensures |set i | 0 <= i < |CaseVariantTable| && CaseVariantTable[i].debtor.Some? :: CaseVariantTable[i].debtor.value| == 2
  {
    var table := CaseVariantTable;
    var debtors := set i | 0 <= i < |table| && table[i].debtor.Some? :: table[i].debtor.value;
    forall x | x in debtors ensures x == "A" || x == "B" {
      var i :| 0 <= i < |table| && table[i].debtor.Some? && table[i].debtor.value == x;
    }
    assert table[0].debtor.value in debtors && table[1].debtor.value in debtors;
    assert debtors == {"A", "B"};
  }

  lemma CaseVariantsState()
    ensures MostDelinquentState(CaseVariantTable) == "SP"
  {
    var s := MostDelinquentState(CaseVariantTable);
    var i :| 0 <= i < |CaseVariantTable| && CaseVariantTable[i].state == Some(s);
  }

  lemma CaseVariantsFilter()
    ensures Filter(CaseVariantTable, Inclusions(CaseVariantTable, SelectAll)) == CaseVariantTable
  {
    var table := CaseVariantTable;
    assert FullyKeyed(table[0]) && FullyKeyed(table[1]);
    SelectAllKeepsCompleteTable(table);
  }

  lemma CaseVariantsChart()
    ensures SalespersonChart(CaseVariantTable) == [("X", 150)]
  {
    CaseVariantsSalespersonTotals();
    var g := SalespersonTotals(CaseVariantTable);
    assert SortByTotal(g, false) == InsertByTotal(g[0], SortByTotal(g[1..], false), false);
  }

  lemma CaseVariantsKpis(rows: seq<Record>)
    requires rows == CaseVariantTable
    ensures AllHaveState(rows)
    ensures var k := ComputeKpis(rows);
      k.totalClients == 2 && k.totalBalance == 150 && k.mostDelinquentState == "SP"
  {
    assert rows[0].state.Some? && rows[1].state.Some?;
    var k := ComputeKpis(rows);
    CaseVariantsDebtors();
    CaseVariantsState();
    assert k.totalBalance == Total(rows) == rows[0].balance + rows[1].balance;
  }

  /** After upper-casing, "x" and "X" form the single salesperson "X" owing
      150; the two debtors and the one state are counted as such. The sheet
      is a parameter equal to the example rather than the constant itself, so
      that the verifier does not evaluate the whole run on the literal. */
  lemma CaseVariantsMerge(sheet: seq<RawRecord>)
    requires sheet == CaseVariantSheet
    ensures var v := Render(sheet, SelectAll);
      && v.filtered == CaseVariantTable
      && v.kpis.totalClients == 2
      && v.kpis.totalBalance == 150
      && v.kpis.mostDelinquentState == "SP"
      && v.charts.Some?
      && v.charts.value.bySalesperson == [("X", 150)]
  {
    CaseVariantsNormalize();
    CaseVariantsFilter();
    CaseVariantsKpis(CaseVariantTable);
    CaseVariantsChart();
  }

}
