/**
 * The sidebar filters and the boolean mask that applies them: each of the
 * four dimensions (salesperson, state, year, month) is either "select all",
 * which stands for the sorted distinct present values of that column, or an
 * explicit choice; a row is kept when all four of its values are chosen.
 */
module Filtering {
  import opened Wrappers
  import opened Orders
  import opened Records
  import opened Grouping

  /** A sidebar filter: the "select all" box ticked, or an explicit choice. */
  datatype Selection<T> = All | Chosen(values: seq<T>)

  datatype Filters = Filters(
    salespeople: Selection<string>,
    states: Selection<string>,
    years: Selection<int>,
    months: Selection<int>)

  /** The four inclusion lists the mask checks each row against. */
  datatype Inclusion = Inclusion(
    salespeople: seq<string>,
    states: seq<string>,
    years: seq<int>,
    months: seq<int>)

  const SelectAll := Filters(All, All, All, All)

  /** `sorted(df[col].dropna().unique())`: the options of one filter. */
  function Available<T(==,!new)>(rows: seq<Record>, key: Record -> Option<T>, lt: (T, T) -> bool): (vs: seq<T>)
    requires StrictTotalOrder(lt)
    ensures StrictlySorted(vs, lt)
    ensures forall v :: v in vs <==> exists i :: 0 <= i < |rows| && key(rows[i]) == Some(v)
  {
    SortedSet(KeysOf(rows, key), lt)
  }

  function Resolve<T>(sel: Selection<T>, available: seq<T>): seq<T> {
    match sel
    case All => available
    case Chosen(values) => values
  }

  /** The inclusion lists for the filters, "select all" standing for the
      options computed over the whole (unfiltered) table. */
  function Inclusions(rows: seq<Record>, f: Filters): (inc: Inclusion)
    ensures f.salespeople.Chosen? ==> inc.salespeople == f.salespeople.values
    ensures f.salespeople.All? ==> StrictlySorted(inc.salespeople, StrLt)
    ensures f.salespeople.All? ==> forall v :: v in inc.salespeople <==> exists i :: 0 <= i < |rows| && SalespersonKey(rows[i]) == Some(v)
    ensures f.states.Chosen? ==> inc.states == f.states.values
    ensures f.states.All? ==> StrictlySorted(inc.states, StrLt)
    ensures f.states.All? ==> forall v :: v in inc.states <==> exists i :: 0 <= i < |rows| && StateKey(rows[i]) == Some(v)
    ensures f.years.Chosen? ==> inc.years == f.years.values
    ensures f.years.All? ==> StrictlySorted(inc.years, IntLt)
    ensures f.years.All? ==> forall v :: v in inc.years <==> exists i :: 0 <= i < |rows| && YearKey(rows[i]) == Some(v)
    ensures f.months.Chosen? ==> inc.months == f.months.values
    ensures f.months.All? ==> StrictlySorted(inc.months, IntLt)
    ensures f.months.All? ==> forall v :: v in inc.months <==> exists i :: 0 <= i < |rows| && MonthKey(rows[i]) == Some(v)
  {
    StrLtIsStrictTotalOrder();
    IntLtIsStrictTotalOrder();
    Inclusion(
      Resolve(f.salespeople, Available(rows, SalespersonKey, StrLt)),
      Resolve(f.states, Available(rows, StateKey, StrLt)),
      Resolve(f.years, Available(rows, YearKey, IntLt)),
      Resolve(f.months, Available(rows, MonthKey, IntLt)))
  }

  /** `Series.isin(values)`: a missing cell is in no list. */
  predicate IsIn<T(==)>(cell: Option<T>, values: seq<T>): (b: bool)
    ensures cell.None? ==> !b
    ensures cell.Some? ==> (b <==> exists k :: 0 <= k < |values| && values[k] == cell.value)
  {
    cell.Some? && cell.value in values
  }

  /** The row passes all four conditions of the mask; only a row with all
      four filter values can. */
  predicate Matches(r: Record, inc: Inclusion): (m: bool)
    ensures m ==> FullyKeyed(r)
    ensures m ==> r.year.value in inc.years && r.month.value in inc.months
                  && r.state.value in inc.states && r.salesperson.value in inc.salespeople
  {
    && IsIn(r.year, inc.years)
    && IsIn(r.month, inc.months)
    && IsIn(r.state, inc.states)
    && IsIn(r.salesperson, inc.salespeople)
  }

  /** The masked frame `df[mask]`: the matching rows, in their order. */
  function Filter(rows: seq<Record>, inc: Inclusion): (kept: seq<Record>)
    ensures |kept| <= |rows|
    ensures forall i :: 0 <= i < |kept| ==> Matches(kept[i], inc) && kept[i] in rows
  {
    if rows == [] then []
    else
      var init := Filter(rows[..|rows| - 1], inc);
      var last := rows[|rows| - 1];
      assert forall x :: x in rows[..|rows| - 1] ==> x in rows;
      if Matches(last, inc) then init + [last] else init
  }

  /** The positions of the matching rows, in increasing order. */
  function MatchingIndices(rows: seq<Record>, inc: Inclusion): (idx: seq<int>)
    ensures forall k :: 0 <= k < |idx| ==> 0 <= idx[k] < |rows|
    ensures forall k, l :: 0 <= k < l < |idx| ==> idx[k] < idx[l]
    ensures forall j :: 0 <= j < |rows| ==> (j in idx <==> Matches(rows[j], inc))
  {
    if rows == [] then []
    else
      var init := MatchingIndices(rows[..|rows| - 1], inc);
      if Matches(rows[|rows| - 1], inc) then init + [|rows| - 1] else init
  }

  /** The filter keeps exactly the matching rows: its k-th row is the k-th
      matching row of the input, so the result is the subsequence of the
      input made of the rows that match, in their original order. */
  lemma {:induction false} FilterKeepsExactlyTheMatches(rows: seq<Record>, inc: Inclusion)
    ensures |Filter(rows, inc)| == |MatchingIndices(rows, inc)|
    ensures forall k :: 0 <= k < |Filter(rows, inc)| ==>
              Filter(rows, inc)[k] == rows[MatchingIndices(rows, inc)[k]]
  {
    if rows != [] {
      var n := |rows| - 1;
      var init := rows[..n];
      FilterKeepsExactlyTheMatches(init, inc);
      var f, idx := Filter(init, inc), MatchingIndices(init, inc);
      assert Filter(rows, inc) == if Matches(rows[n], inc) then f + [rows[n]] else f;
      assert MatchingIndices(rows, inc) == if Matches(rows[n], inc) then idx + [n] else idx;
      forall k | 0 <= k < |f| ensures f[k] == rows[idx[k]] {
        assert init[idx[k]] == rows[idx[k]];
      }
    }
  }

  /** A filter whose lists all accept a row keeps it; if they accept every
      row, the frame comes back unchanged. */
  lemma {:induction false} FilterKeepsAllWhenAllMatch(rows: seq<Record>, inc: Inclusion)
    requires forall i :: 0 <= i < |rows| ==> Matches(rows[i], inc)
    ensures Filter(rows, inc) == rows
  {
    if rows != [] {
      FilterKeepsAllWhenAllMatch(rows[..|rows| - 1], inc);
      assert rows == rows[..|rows| - 1] + [rows[|rows| - 1]];
    }
  }

  predicate FullyKeyed(r: Record) {
    r.year.Some? && r.month.Some? && r.state.Some? && r.salesperson.Some?
  }

  /** With every "select all" box ticked, a row of the table passes exactly
      when its year, month, state and salesperson are all present. */
  lemma SelectAllMatchesFullyKeyed(rows: seq<Record>, r: Record)
    requires r in rows
    ensures Matches(r, Inclusions(rows, SelectAll)) <==> FullyKeyed(r)
  {
    var i :| 0 <= i < |rows| && rows[i] == r;
    var inc := Inclusions(rows, SelectAll);
    if FullyKeyed(r) {
      assert SalespersonKey(rows[i]) == Some(r.salesperson.value);
      assert StateKey(rows[i]) == Some(r.state.value);
      assert YearKey(rows[i]) == Some(r.year.value);
      assert MonthKey(rows[i]) == Some(r.month.value);
    }
  }

  /** With every "select all" box ticked, the filter keeps exactly the rows
      whose four filter columns are present. */
  lemma SelectAllKeepsFullyKeyed(rows: seq<Record>)
    ensures forall j :: 0 <= j < |rows| ==>
              (j in MatchingIndices(rows, Inclusions(rows, SelectAll)) <==> FullyKeyed(rows[j]))
  {
    forall j | 0 <= j < |rows|
      ensures j in MatchingIndices(rows, Inclusions(rows, SelectAll)) <==> FullyKeyed(rows[j])
    {
      SelectAllMatchesFullyKeyed(rows, rows[j]);
    }
  }

  /** On a table without missing filter values, "select all" keeps every row. */
  lemma SelectAllKeepsCompleteTable(rows: seq<Record>)
    requires forall j :: 0 <= j < |rows| ==> FullyKeyed(rows[j])
    ensures Filter(rows, Inclusions(rows, SelectAll)) == rows
  {
    var inc := Inclusions(rows, SelectAll);
    forall j | 0 <= j < |rows| ensures Matches(rows[j], inc) {
      SelectAllMatchesFullyKeyed(rows, rows[j]);
    }
    FilterKeepsAllWhenAllMatch(rows, inc);
  }

  /** A state list that holds none of the table's states (an explicit empty
      choice among them) leaves nothing. */
  lemma {:induction false} NoChosenStateKeepsNothing(rows: seq<Record>, inc: Inclusion)
    requires forall i :: 0 <= i < |rows| && rows[i].state.Some? ==> rows[i].state.value !in inc.states
    ensures Filter(rows, inc) == []
  {
    if rows != [] {
      NoChosenStateKeepsNothing(rows[..|rows| - 1], inc);
    }
  }

}
