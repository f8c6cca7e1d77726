/**
 * `df.groupby(col)['Saldo'].sum().reset_index()` and `df[col].nunique()`:
 * rows whose key is missing are dropped, the groups come out in ascending
 * key order, and each group carries the sum of its rows' balances.
 */
module Grouping {
  import opened Wrappers
  import opened Orders
  import opened Records

  /** A grouped-and-summed table: (key, summed balance) rows. */
  type Table<K> = seq<(K, int)>

  /** The present keys of the rows, in row order, repetitions included. */
  function KeysOf<K(!new)>(rows: seq<Record>, key: Record -> Option<K>): (ks: seq<K>)
    ensures forall k :: k in ks <==> exists i :: 0 <= i < |rows| && key(rows[i]) == Some(k)
  {
    if rows == [] then []
    else
      var rest := KeysOf(rows[1..], key);
      assert forall k :: (exists i :: 0 <= i < |rows[1..]| && key(rows[1..][i]) == Some(k))
                     ==> (exists i :: 0 <= i < |rows| && key(rows[i]) == Some(k));
      assert forall k :: (exists i :: 0 <= i < |rows| && key(rows[i]) == Some(k))
                     ==> key(rows[0]) == Some(k) || (exists i :: 0 <= i < |rows[1..]| && key(rows[1..][i]) == Some(k));
      (if key(rows[0]).Some? then [key(rows[0]).value] else []) + rest
  }

  /** The key column of a table. */
  function KeyColumn<K>(t: Table<K>): (ks: seq<K>)
    ensures |ks| == |t| && forall i :: 0 <= i < |t| ==> ks[i] == t[i].0
  {
    seq(|t|, i requires 0 <= i < |t| => t[i].0)
  }

  /** Sum of the balances of the rows whose key is k. */
  function SumWhere<K(==)>(rows: seq<Record>, key: Record -> Option<K>, k: K): int {
    if rows == [] then 0
    else (if key(rows[0]) == Some(k) then rows[0].balance else 0) + SumWhere(rows[1..], key, k)
  }

  /** `df['Saldo'].sum()`. */
  function Total(rows: seq<Record>): (s: int)
    ensures rows != [] ==> s == Total(rows[..|rows| - 1]) + rows[|rows| - 1].balance
  {
    if rows == [] then 0
    else
      assert |rows| > 1 ==> rows[1..][..|rows| - 2] == rows[..|rows| - 1][1..];
      rows[0].balance + Total(rows[1..])
  }

  /** Sum of the balances of the rows whose key is present. */
  function KeyedTotal<K>(rows: seq<Record>, key: Record -> Option<K>): int {
    if rows == [] then 0
    else (if key(rows[0]).Some? then rows[0].balance else 0) + KeyedTotal(rows[1..], key)
  }

  /** Sum of a table's balance column. */
  function SumTotals<K>(t: Table<K>): int {
    if t == [] then 0 else t[0].1 + SumTotals(t[1..])
  }

  function Tabulate<K(==)>(ks: seq<K>, rows: seq<Record>, key: Record -> Option<K>): (t: Table<K>)
    ensures |t| == |ks|
    ensures forall i :: 0 <= i < |ks| ==> t[i] == (ks[i], SumWhere(rows, key, ks[i]))
  {
    if ks == [] then [] else [(ks[0], SumWhere(rows, key, ks[0]))] + Tabulate(ks[1..], rows, key)
  }

  /** `groupby(key)['Saldo'].sum()`: one row per present key, in ascending
      key order, holding the summed balance of that key's rows. */
  function GroupSum<K(==,!new)>(rows: seq<Record>, key: Record -> Option<K>, lt: (K, K) -> bool): (t: Table<K>)
    requires StrictTotalOrder(lt)
    ensures StrictlySorted(KeyColumn(t), lt)
    ensures forall k :: k in KeyColumn(t) <==> exists i :: 0 <= i < |rows| && key(rows[i]) == Some(k)
    ensures forall i :: 0 <= i < |t| ==> t[i].1 == SumWhere(rows, key, t[i].0)
  {
    var ks := SortedSet(KeysOf(rows, key), lt);
    var t := Tabulate(ks, rows, key);
    assert KeyColumn(t) == ks;
    t
  }

  /** pandas' `unique()`: the distinct values, each once. */
  function Unique<T(==,!new)>(xs: seq<T>): (u: seq<T>)
    ensures NoDuplicates(u)
    ensures forall x :: x in u <==> x in xs
  {
    if xs == [] then []
    else
      var u := Unique(xs[..|xs| - 1]);
      assert xs == xs[..|xs| - 1] + [xs[|xs| - 1]];
      if xs[|xs| - 1] in u then u else u + [xs[|xs| - 1]]
  }

  /** `nunique()`: the number of distinct present keys. */
  function CountDistinct<K(==,!new)>(rows: seq<Record>, key: Record -> Option<K>): (n: nat)
    ensures n == |set i | 0 <= i < |rows| && key(rows[i]).Some? :: key(rows[i]).value|
  {
    var u := Unique(KeysOf(rows, key));
    DistinctCardinality(u);
    assert (set x | x in u) == (set i | 0 <= i < |rows| && key(rows[i]).Some? :: key(rows[i]).value);
    |u|
  }

  // ---------------------------------------------------------------------
  // The group totals add up to the total of the keyed rows.

  lemma {:induction false} TabulateOfNoRows<K>(ks: seq<K>, key: Record -> Option<K>)
    ensures SumTotals(Tabulate(ks, [], key)) == 0
  {
    if ks != [] {
      TabulateOfNoRows(ks[1..], key);
      assert Tabulate(ks, [], key)[1..] == Tabulate(ks[1..], [], key);
    }
  }

  /** Splitting off the first row moves its balance to the one group that
      holds its key, if any. */
  lemma {:induction false} TabulateFirstRow<K>(ks: seq<K>, rows: seq<Record>, key: Record -> Option<K>)
    requires rows != [] && NoDuplicates(ks)
    ensures SumTotals(Tabulate(ks, rows, key))
         == (if key(rows[0]).Some? && key(rows[0]).value in ks then rows[0].balance else 0)
            + SumTotals(Tabulate(ks, rows[1..], key))
  {
    if ks != [] {
      assert Tabulate(ks, rows, key)[1..] == Tabulate(ks[1..], rows, key);
      assert Tabulate(ks, rows[1..], key)[1..] == Tabulate(ks[1..], rows[1..], key);
      TabulateFirstRow(ks[1..], rows, key);
      assert key(rows[0]) == Some(ks[0]) ==> ks[0] !in ks[1..];
    }
  }

  lemma {:induction false} TabulateSum<K>(ks: seq<K>, rows: seq<Record>, key: Record -> Option<K>)
    requires NoDuplicates(ks)
    requires forall i :: 0 <= i < |rows| && key(rows[i]).Some? ==> key(rows[i]).value in ks
    ensures SumTotals(Tabulate(ks, rows, key)) == KeyedTotal(rows, key)
  {
    if rows == [] {
      TabulateOfNoRows(ks, key);
    } else {
      TabulateFirstRow(ks, rows, key);
      assert forall i :: 0 <= i < |rows[1..]| ==> rows[1..][i] == rows[i + 1];
      TabulateSum(ks, rows[1..], key);
    }
  }

  /** Every keyed row lands in exactly one group, so the group totals add up
      to the sum over the rows whose key is present. */
  lemma GroupTotalsAddUp<K(!new)>(rows: seq<Record>, key: Record -> Option<K>, lt: (K, K) -> bool)
    requires StrictTotalOrder(lt)
    ensures SumTotals(GroupSum(rows, key, lt)) == KeyedTotal(rows, key)
  {
    var ks := SortedSet(KeysOf(rows, key), lt);
    StrictlySortedHasNoDuplicates(ks, lt);
    forall i | 0 <= i < |rows| && key(rows[i]).Some? ensures key(rows[i]).value in ks {
      assert key(rows[i]).value in KeysOf(rows, key);
    }
    TabulateSum(ks, rows, key);
  }

  /** When no row misses the key, the keyed total is the whole total. */
  lemma {:induction false} KeyedTotalOfKeyedRows<K>(rows: seq<Record>, key: Record -> Option<K>)
    requires forall i :: 0 <= i < |rows| ==> key(rows[i]).Some?
    ensures KeyedTotal(rows, key) == Total(rows)
  {
    if rows != [] {
      assert forall i :: 0 <= i < |rows[1..]| ==> rows[1..][i] == rows[i + 1];
      KeyedTotalOfKeyedRows(rows[1..], key);
    }
  }

}
