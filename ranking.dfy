/**
 * Ordering a grouped table by its balance column: `sort_values`, `nlargest`
 * and `idxmax` on the summed-balance series.
 */
module Ranking {
  import opened Orders
  import opened Grouping

  /** A balance of a strictly comes before a balance of b. */
  predicate Precedes(a: int, b: int, descending: bool) {
    if descending then a > b else a < b
  }

  predicate OrderedByTotal<K>(t: Table<K>, descending: bool) {
    forall i, j :: 0 <= i < j < |t| ==> !Precedes(t[j].1, t[i].1, descending)
  }

  /** The rows whose balance is v, in the order the table has them. */
  function WithTotal<K>(t: Table<K>, v: int): Table<K> {
    if t == [] then [] else (if t[0].1 == v then [t[0]] else []) + WithTotal(t[1..], v)
  }

  /** Inserts x in front of the first row that does not strictly precede it. */
  function InsertByTotal<K>(x: (K, int), s: Table<K>, descending: bool): (r: Table<K>)
    ensures multiset(r) == multiset(s) + multiset{x}
  {
    if s == [] || !Precedes(s[0].1, x.1, descending) then [x] + s
    else
      assert s == [s[0]] + s[1..];
      [s[0]] + InsertByTotal(x, s[1..], descending)
  }

  lemma {:induction false} InsertKeepsOrder<K>(x: (K, int), s: Table<K>, descending: bool)
    requires OrderedByTotal(s, descending)
    ensures OrderedByTotal(InsertByTotal(x, s, descending), descending)
  {
    if s != [] && Precedes(s[0].1, x.1, descending) {
      var rest := InsertByTotal(x, s[1..], descending);
      InsertKeepsOrder(x, s[1..], descending);
      forall y | y in rest ensures !Precedes(y.1, s[0].1, descending) {
        assert y in multiset(rest);
        assert y == x || y in s[1..];
      }
    }
  }

  /** The inserted row goes in front of every row with the same balance. */
  lemma {:induction false} InsertKeepsTies<K>(x: (K, int), s: Table<K>, descending: bool)
    ensures forall v :: WithTotal(InsertByTotal(x, s, descending), v)
                     == (if x.1 == v then [x] else []) + WithTotal(s, v)
  {
    if s == [] || !Precedes(s[0].1, x.1, descending) {
      assert ([x] + s)[1..] == s;
    } else {
      var rest := InsertByTotal(x, s[1..], descending);
      InsertKeepsTies(x, s[1..], descending);
      assert ([s[0]] + rest)[1..] == rest;
    }
  }

  /** A stable sort of the table by balance. */
  function SortByTotal<K>(t: Table<K>, descending: bool): (r: Table<K>)
    ensures OrderedByTotal(r, descending)
    ensures multiset(r) == multiset(t)
    ensures forall v :: WithTotal(r, v) == WithTotal(t, v)
  {
    if t == [] then []
    else
      assert t == [t[0]] + t[1..];
      var rest := SortByTotal(t[1..], descending);
      InsertKeepsOrder(t[0], rest, descending);
      InsertKeepsTies(t[0], rest, descending);
      InsertByTotal(t[0], rest, descending)
  }

  lemma {:induction false} WithTotalOfPrefix<K>(s: Table<K>, n: nat, v: int)
    requires n <= |s|
    ensures WithTotal(s[..n], v) <= WithTotal(s, v)
  {
    if n > 0 {
      assert s[..n][1..] == s[1..][..n - 1];
      WithTotalOfPrefix(s[1..], n - 1, v);
    }
  }

  /** `nlargest(n)` with keep='first': the n rows with the largest balances,
      largest first. */
  function NLargest<K>(t: Table<K>, n: nat): (r: Table<K>)
    ensures |r| == if |t| < n then |t| else n
    ensures OrderedByTotal(r, true)
    ensures multiset(r) <= multiset(t)
  {
    var s := SortByTotal(t, true);
    assert |s| == |t| by { assert |multiset(s)| == |multiset(t)|; }
    if |s| <= n then s
    else
      assert s == s[..n] + s[n..];
      s[..n]
  }

  /** No row left out of `NLargest` has a larger balance than a row kept. */
  lemma NLargestLeavesOutNoLarger<K>(t: Table<K>, n: nat)
    ensures forall x :: x in t && x !in NLargest(t, n) ==> forall y :: y in NLargest(t, n) ==> x.1 <= y.1
  {
    var s := SortByTotal(t, true);
    var r := NLargest(t, n);
    if |s| > n {
      assert r == s[..n];
      assert forall j :: 0 <= j < n ==> s[j] in r;
      forall x | x in t && x !in r ensures forall y :: y in r ==> x.1 <= y.1 {
        assert x in multiset(s);
        var k :| 0 <= k < |s| && s[k] == x;
        forall y | y in r ensures x.1 <= y.1 {
          var m :| 0 <= m < |r| && r[m] == y;
          assert s[m] == y;
        }
      }
    } else {
      forall x | x in t ensures x in r {
        assert x in multiset(t);
      }
    }
  }

  /** Among rows of equal balance, `NLargest` keeps the earliest ones and
      lists them in their original order (pandas' keep='first'). */
  lemma NLargestKeepsEarliestTies<K>(t: Table<K>, n: nat)
    ensures forall v :: WithTotal(NLargest(t, n), v) <= WithTotal(t, v)
  {
    var s := SortByTotal(t, true);
    if |s| > n {
      forall v ensures WithTotal(s[..n], v) <= WithTotal(t, v) {
        WithTotalOfPrefix(s, n, v);
      }
    }
  }

  lemma {:induction false} WithTotalMembers<K>(t: Table<K>, v: int)
    ensures forall x :: x in WithTotal(t, v) <==> x in t && x.1 == v
  {
    if t != [] {
      WithTotalMembers(t[1..], v);
      assert t == [t[0]] + t[1..];
    }
  }

  /** Picking out the rows of one balance keeps the table's key order. */
  lemma {:induction false} WithTotalKeepsKeyOrder<K(!new)>(t: Table<K>, v: int, lt: (K, K) -> bool)
    requires StrictlySorted(KeyColumn(t), lt)
    ensures StrictlySorted(KeyColumn(WithTotal(t, v)), lt)
  {
    if t != [] {
      assert StrictlySorted(KeyColumn(t[1..]), lt) by {
        forall i, j | 0 <= i < j < |t[1..]| ensures lt(t[1..][i].0, t[1..][j].0) {
          assert KeyColumn(t)[i + 1] == t[1..][i].0 && KeyColumn(t)[j + 1] == t[1..][j].0;
        }
      }
      WithTotalKeepsKeyOrder(t[1..], v, lt);
      WithTotalMembers(t[1..], v);
      var rest := WithTotal(t[1..], v);
      forall y | y in rest ensures lt(t[0].0, y.0) {
        var j :| 0 <= j < |t[1..]| && t[1..][j] == y;
        assert KeyColumn(t)[0] == t[0].0 && KeyColumn(t)[j + 1] == y.0;
      }
    }
  }

  /** In a key-sorted table, a row of a prefix comes before a row past it. */
  lemma PrefixRowPrecedes<K>(p: Table<K>, t: Table<K>, lt: (K, K) -> bool, y: (K, int), x: (K, int))
    requires p <= t && StrictlySorted(KeyColumn(t), lt)
    requires y in p && x in t && x !in p
    ensures lt(y.0, x.0)
  {
    var a :| 0 <= a < |p| && p[a] == y;
    var b :| 0 <= b < |t| && t[b] == x;
    assert forall c :: 0 <= c < |p| ==> t[c] == p[c];
    assert t[a] == y;
    assert KeyColumn(t)[a] == y.0 && KeyColumn(t)[b] == x.0;
  }

  /** On a table sorted by key (as a groupby result is), a row that
      `NLargest` leaves out with the same balance as a row it keeps has the
      larger key: ties go to the smaller key. */
  lemma NLargestTiesGoToSmallerKeys<K(!new)>(t: Table<K>, n: nat, lt: (K, K) -> bool, x: (K, int), y: (K, int))
    requires StrictlySorted(KeyColumn(t), lt)
    requires x in t && x !in NLargest(t, n)
    requires y in NLargest(t, n) && x.1 == y.1
    ensures lt(y.0, x.0)
  {
    var r := NLargest(t, n);
    var v := x.1;
    NLargestKeepsEarliestTies(t, n);
    WithTotalMembers(t, v);
    WithTotalMembers(r, v);
    WithTotalKeepsKeyOrder(t, v, lt);
    PrefixRowPrecedes(WithTotal(r, v), WithTotal(t, v), lt, y, x);
  }

  /** Every row nlargest keeps is a row of the table. */
  lemma NLargestRowFromTable<K>(t: Table<K>, n: nat, j: int)
    requires 0 <= j < |NLargest(t, n)|
    ensures exists a :: 0 <= a < |t| && t[a] == NLargest(t, n)[j]
  {
    var r := NLargest(t, n);
    assert r[j] in multiset(r);
    assert r[j] in multiset(t);
  }

  /** On a key-sorted table, a row whose key `NLargest` leaves out has a
      balance no larger than any kept row's, and a larger key on a tie. */
  lemma NLargestLeftOutRow<K(!new)>(t: Table<K>, n: nat, lt: (K, K) -> bool, a: int, j: int)
    requires StrictlySorted(KeyColumn(t), lt)
    requires 0 <= a < |t| && t[a].0 !in KeyColumn(NLargest(t, n))
    requires 0 <= j < |NLargest(t, n)|
    ensures t[a].1 <= NLargest(t, n)[j].1
    ensures t[a].1 == NLargest(t, n)[j].1 ==> lt(NLargest(t, n)[j].0, t[a].0)
  {
    var r := NLargest(t, n);
    var x, y := t[a], r[j];
    assert x !in r by {
      forall b | 0 <= b < |r| ensures r[b] != x {
        assert KeyColumn(r)[b] == r[b].0;
      }
    }
    assert x in t && y in r;
    NLargestLeavesOutNoLarger(t, n);
    if x.1 == y.1 {
      NLargestTiesGoToSmallerKeys(t, n, lt, x, y);
    }
  }

  lemma {:induction false} InsertKeepsSum<K>(x: (K, int), s: Table<K>, descending: bool)
    ensures SumTotals(InsertByTotal(x, s, descending)) == x.1 + SumTotals(s)
  {
    if s != [] && Precedes(s[0].1, x.1, descending) {
      InsertKeepsSum(x, s[1..], descending);
      assert ([s[0]] + InsertByTotal(x, s[1..], descending))[1..] == InsertByTotal(x, s[1..], descending);
    } else {
      assert ([x] + s)[1..] == s;
    }
  }

  /** Sorting moves rows about but keeps the sum of the balance column. */
  lemma {:induction false} SortKeepsSum<K>(t: Table<K>, descending: bool)
    ensures SumTotals(SortByTotal(t, descending)) == SumTotals(t)
  {
    if t != [] {
      SortKeepsSum(t[1..], descending);
      InsertKeepsSum(t[0], SortByTotal(t[1..], descending), descending);
    }
  }

  /** `idxmax()`: the position of the first row with the largest balance. */
  function IdxMax<K>(t: Table<K>): (i: nat)
    requires t != []
    ensures i < |t|
    ensures forall j :: 0 <= j < |t| ==> t[j].1 <= t[i].1
    ensures forall j :: 0 <= j < i ==> t[j].1 < t[i].1
  {
    if |t| == 1 then 0
    else
      var k := IdxMax(t[1..]);
      if t[0].1 >= t[k + 1].1 then 0 else k + 1
  }

  /** On a table sorted by key, `idxmax` picks the smallest key among the
      rows of largest balance. */
  lemma IdxMaxPicksSmallestKey<K>(t: Table<K>, lt: (K, K) -> bool)
    requires t != [] && StrictlySorted(KeyColumn(t), lt)
    ensures forall j :: 0 <= j < |t| && j != IdxMax(t) && t[j].1 == t[IdxMax(t)].1 ==> lt(t[IdxMax(t)].0, t[j].0)
  {
    var m := IdxMax(t);
    forall j | 0 <= j < |t| && j != m && t[j].1 == t[m].1 ensures lt(t[m].0, t[j].0) {
      assert m < j;
      assert KeyColumn(t)[m] == t[m].0 && KeyColumn(t)[j] == t[j].0;
    }
  }

  // ---------------------------------------------------------------------
  // Keeping a sub-multiset of a table with distinct keys keeps them distinct.

  lemma {:induction false} NoDuplicatesCountsOnce<T>(s: seq<T>, x: T)
    requires NoDuplicates(s)
    ensures multiset(s)[x] <= 1
  {
    if s != [] {
      assert s == [s[0]] + s[1..];
      NoDuplicatesCountsOnce(s[1..], x);
      assert s[0] !in s[1..];
    }
  }

  lemma RepeatedCountsTwice<T>(s: seq<T>, i: int, j: int)
    requires 0 <= i < j < |s| && s[i] == s[j]
    ensures multiset(s)[s[i]] >= 2
  {
    assert s == s[..j] + [s[j]] + s[j + 1..];
    assert s[i] in s[..j];
  }

  /** A table drawn from a table with one row per key has one row per key. */
  lemma SubTableKeepsKeysDistinct<K>(r: Table<K>, t: Table<K>)
    requires NoDuplicates(KeyColumn(t))
    requires multiset(r) <= multiset(t)
    ensures NoDuplicates(KeyColumn(r))
  {
    forall i, j | 0 <= i < j < |r| ensures r[i].0 != r[j].0 {
      if r[i].0 == r[j].0 {
        assert r[i] in multiset(t) && r[j] in multiset(t);
        var a :| 0 <= a < |t| && t[a] == r[i];
        var b :| 0 <= b < |t| && t[b] == r[j];
        assert KeyColumn(t)[a] == KeyColumn(t)[b];
        assert t[a] == t[b];
        RepeatedCountsTwice(r, i, j);
        assert NoDuplicates(t) by {
          forall p, q | 0 <= p < q < |t| ensures t[p] != t[q] {
            assert KeyColumn(t)[p] != KeyColumn(t)[q];
          }
        }
        NoDuplicatesCountsOnce(t, r[i]);
        assert false;
      }
    }
  }

}
