/** pandas' `groupby(key)[outcome].mean()`: distinct keys in ascending key
    order, each with the mean outcome of its own rows; a key without rows is
    never listed. Also `sort_values(ascending=False)` on such a table, the
    per-category means of a categorical (binned) key, where a category
    without rows is NaN, and `pivot_table(aggfunc="mean")`. */
module Grouping {
  import opened Results
  import opened Stats

  // ---------------------------------------------------------------------
  // Key orders

  /** A strict total order, as Python's `<` is on the keys grouped by. */
  ghost predicate StrictTotalOrder<K(!new)>(less: (K, K) -> bool)
  {
    && (forall a :: !less(a, a))
    && (forall a, b, c :: less(a, b) && less(b, c) ==> less(a, c))
    && (forall a, b :: a != b ==> less(a, b) || less(b, a))
  }

  /** Python's `<` on `str`: lexicographic by code point. */
  predicate StringLess(a: string, b: string)
  {
    if a == [] then b != []
    else if b == [] then false
    else if a[0] != b[0] then a[0] < b[0]
    else StringLess(a[1..], b[1..])
  }

  predicate IntLess(a: int, b: int)
  {
    a < b
  }

  predicate NatLess(a: nat, b: nat)
  {
    a < b
  }

  lemma {:induction false} StringLessIrreflexive(a: string)
    ensures !StringLess(a, a)
  {
    if a != [] {
      StringLessIrreflexive(a[1..]);
    }
  }

  lemma {:induction false} StringLessTransitive(a: string, b: string, c: string)
    requires StringLess(a, b) && StringLess(b, c)
    ensures StringLess(a, c)
  {
    if a != [] && b != [] && c != [] && a[0] == b[0] && b[0] == c[0] {
      StringLessTransitive(a[1..], b[1..], c[1..]);
    }
  }

  lemma {:induction false} StringLessTotal(a: string, b: string)
    requires a != b
    ensures StringLess(a, b) || StringLess(b, a)
  {
    if a != [] && b != [] && a[0] == b[0] {
      assert a == [a[0]] + a[1..] && b == [b[0]] + b[1..];
      StringLessTotal(a[1..], b[1..]);
    }
  }

  lemma StringLessIsStrictTotalOrder()
    ensures StrictTotalOrder(StringLess)
  {
    forall a: string ensures !StringLess(a, a) {
      StringLessIrreflexive(a);
    }
    forall a: string, b: string, c: string | StringLess(a, b) && StringLess(b, c)
      ensures StringLess(a, c)
    {
      StringLessTransitive(a, b, c);
    }
    forall a: string, b: string | a != b ensures StringLess(a, b) || StringLess(b, a) {
      StringLessTotal(a, b);
    }
  }

  lemma IntLessIsStrictTotalOrder()
    ensures StrictTotalOrder(IntLess)
  {
  }

  lemma NatLessIsStrictTotalOrder()
    ensures StrictTotalOrder(NatLess)
  {
  }

  // ---------------------------------------------------------------------
  // Distinct keys in ascending order

  ghost predicate StrictlySorted<K>(s: seq<K>, less: (K, K) -> bool)
  {
    forall i, j :: 0 <= i < j < |s| ==> less(s[i], s[j])
  }

  /** Adds `x` to an ascending list of distinct keys, unless it is there. */
  function Insert<K(==,!new)>(x: K, s: seq<K>, less: (K, K) -> bool): (r: seq<K>)
    ensures forall y :: y in r <==> y == x || y in s
  {
    if s == [] then [x]
    else if x == s[0] then s
    else if less(x, s[0]) then [x] + s
    else [s[0]] + Insert(x, s[1..], less)
  }

  lemma {:induction false} InsertSorted<K(!new)>(x: K, s: seq<K>, less: (K, K) -> bool)
    requires StrictTotalOrder(less) && StrictlySorted(s, less)
    ensures StrictlySorted(Insert(x, s, less), less)
  {
    if s != [] && x != s[0] && !less(x, s[0]) {
      InsertSorted(x, s[1..], less);
      var t := Insert(x, s[1..], less);
      assert less(s[0], x);
      assert forall y :: y in t ==> less(s[0], y) by {
        forall y | y in t ensures less(s[0], y) {
          if y != x {
            var k :| 0 <= k < |s[1..]| && s[1..][k] == y;
            assert s[k + 1] == y;
          }
        }
      }
      var r := [s[0]] + t;
      forall i, j | 0 <= i < j < |r| ensures less(r[i], r[j]) {
        if i == 0 {
          assert r[j] == t[j - 1];
          assert t[j - 1] in t;
        } else {
          assert r[i] == t[i - 1] && r[j] == t[j - 1];
        }
      }
    }
  }

  /** The distinct keys of `keys`, ascending (`groupby(..., sort=True)`). */
  function SortedKeys<K(==,!new)>(keys: seq<K>, less: (K, K) -> bool): (r: seq<K>)
    ensures forall y :: y in r <==> y in keys
  {
    if keys == [] then []
    else Insert(keys[|keys| - 1], SortedKeys(keys[..|keys| - 1], less), less)
  }

  lemma {:induction false} SortedKeysSorted<K(!new)>(keys: seq<K>, less: (K, K) -> bool)
    requires StrictTotalOrder(less)
    ensures StrictlySorted(SortedKeys(keys, less), less)
  {
    if keys != [] {
      SortedKeysSorted(keys[..|keys| - 1], less);
      InsertSorted(keys[|keys| - 1], SortedKeys(keys[..|keys| - 1], less), less);
    }
  }

  // ---------------------------------------------------------------------
  // Group means: rows are (key, outcome) pairs

  /** The key column of a table of (key, value) pairs. */
  function Keys<K, V>(rows: seq<(K, V)>): (ks: seq<K>)
    ensures |ks| == |rows|
    ensures forall i :: 0 <= i < |rows| ==> ks[i] == rows[i].0
  {
    seq(|rows|, i requires 0 <= i < |rows| => rows[i].0)
  }

  /** The outcomes of the rows whose key is `k`, in row order. */
  function Select<K(==)>(rows: seq<(K, real)>, k: K): (r: seq<real>)
    ensures |r| <= |rows|
    ensures r != [] <==> k in Keys(rows)
  {
    if rows == [] then []
    else Select(rows[..|rows| - 1], k) + (if rows[|rows| - 1].0 == k then [rows[|rows| - 1].1] else [])
  }

  ghost predicate BinaryOutcomes<K>(rows: seq<(K, real)>)
  {
    forall i :: 0 <= i < |rows| ==> rows[i].1 == 0.0 || rows[i].1 == 1.0
  }

  lemma {:induction false} SelectBinary<K>(rows: seq<(K, real)>, k: K)
    requires BinaryOutcomes(rows)
    ensures Binary(Select(rows, k))
  {
    if rows != [] {
      SelectBinary(rows[..|rows| - 1], k);
    }
  }

  /** `groupby(key)[outcome].mean()`: one entry per distinct key, ascending. */
  function GroupMeans<K(==,!new)>(rows: seq<(K, real)>, less: (K, K) -> bool): seq<(K, real)>
  {
    var ks := SortedKeys(Keys(rows), less);
    seq(|ks|, i requires 0 <= i < |ks| => (ks[i], Average(Select(rows, ks[i]))))
  }

  /** What a group-mean table contains: exactly the keys that have rows, in
      strictly ascending order, each with the mean outcome of its rows; for
      0/1 outcomes every mean is a share in [0, 1]. */
  lemma GroupMeansSpec<K(!new)>(rows: seq<(K, real)>, less: (K, K) -> bool)
    requires StrictTotalOrder(less)
    ensures var t := GroupMeans(rows, less);
      && StrictlySorted(Keys(t), less)
      && (forall k :: k in Keys(t) <==> k in Keys(rows))
      && (forall i :: 0 <= i < |t| ==>
            Select(rows, t[i].0) != [] && t[i].1 == Average(Select(rows, t[i].0)))
      && (BinaryOutcomes(rows) ==> forall i :: 0 <= i < |t| ==> 0.0 <= t[i].1 <= 1.0)
  {
    var t := GroupMeans(rows, less);
    var ks := SortedKeys(Keys(rows), less);
    SortedKeysSorted(Keys(rows), less);
    assert Keys(t) == ks;
    if BinaryOutcomes(rows) {
      forall i | 0 <= i < |t| ensures 0.0 <= t[i].1 <= 1.0 {
        SelectBinary(rows, t[i].0);
        AverageOfBinary(Select(rows, t[i].0));
      }
    }
  }

  /** The percentages main.py plots: every mean times 100. */
  function Percent<K>(t: seq<(K, real)>): (r: seq<(K, real)>)
    ensures |r| == |t| && Keys(r) == Keys(t)
    ensures forall i :: 0 <= i < |t| ==> r[i].1 == 100.0 * t[i].1
  {
    var r := seq(|t|, i requires 0 <= i < |t| => (t[i].0, 100.0 * t[i].1));
    assert forall i :: 0 <= i < |t| ==> Keys(r)[i] == Keys(t)[i];
    r
  }

  // ---------------------------------------------------------------------
  // sort_values(ascending=False)

  ghost predicate DescendingByRate<K>(t: seq<(K, real)>)
  {
    forall i, j :: 0 <= i < j < |t| ==> t[i].1 >= t[j].1
  }

  function InsertByRate<K(!new)>(p: (K, real), t: seq<(K, real)>): (r: seq<(K, real)>)
    ensures multiset(r) == multiset(t) + multiset{p}
    ensures forall q :: q in r <==> q == p || q in t
  {
    if t == [] then [p]
    else if p.1 >= t[0].1 then [p] + t
    else
      assert t == [t[0]] + t[1..];
      [t[0]] + InsertByRate(p, t[1..])
  }

  /** Inserting into a table ordered by descending rate keeps that order. */
  lemma {:induction false} InsertByRateDescending<K(!new)>(p: (K, real), t: seq<(K, real)>)
    requires DescendingByRate(t)
    ensures DescendingByRate(InsertByRate(p, t))
  {
    if t != [] && p.1 < t[0].1 {
      DescendingTail(t);
      InsertByRateDescending(p, t[1..]);
      var rest := InsertByRate(p, t[1..]);
      assert forall q :: q in rest ==> t[0].1 >= q.1;
      DescendingCons(t[0], rest);
    }
  }

  /** The tail of a descending table is descending and bounded by its head. */
  lemma DescendingTail<K>(t: seq<(K, real)>)
    requires t != [] && DescendingByRate(t)
    ensures DescendingByRate(t[1..])
    ensures forall q :: q in t[1..] ==> t[0].1 >= q.1
  {
    assert forall q :: q in t[1..] ==> exists j :: 1 <= j < |t| && q == t[j];
  }

  /** An entry with a rate at least every rate of a descending table heads it. */
  lemma DescendingCons<K>(x: (K, real), t: seq<(K, real)>)
    requires DescendingByRate(t) && forall q :: q in t ==> x.1 >= q.1
    ensures DescendingByRate([x] + t)
  {
    var r := [x] + t;
    forall i, j | 0 <= i < j < |r| ensures r[i].1 >= r[j].1 {
      if i == 0 {
        assert r[j] == t[j - 1];
      } else {
        assert r[i] == t[i - 1] && r[j] == t[j - 1];
      }
    }
  }

  /** The rate table reordered from the highest rate to the lowest, as a
      permutation of the input table. */
  function SortByRateDescending<K(!new)>(t: seq<(K, real)>): (r: seq<(K, real)>)
    ensures multiset(r) == multiset(t)
    ensures DescendingByRate(r)
  {
    if t == [] then [] else
      assert t == [t[0]] + t[1..];
      InsertByRateDescending(t[0], SortByRateDescending(t[1..]));
      InsertByRate(t[0], SortByRateDescending(t[1..]))
  }

  /** Sorting keeps the same entries, hence the same keys. */
  lemma SortByRateMembers<K(!new)>(t: seq<(K, real)>)
    ensures forall x :: x in SortByRateDescending(t) <==> x in t
    ensures forall k :: k in Keys(SortByRateDescending(t)) <==> k in Keys(t)
  {
    var r := SortByRateDescending(t);
    forall x ensures x in r <==> x in t {
      assert x in r <==> x in multiset(r);
      assert x in t <==> x in multiset(t);
    }
    forall k ensures k in Keys(r) <==> k in Keys(t) {
      if k in Keys(r) {
        var i :| 0 <= i < |r| && Keys(r)[i] == k;
        assert r[i] in t;
        var j :| 0 <= j < |t| && t[j] == r[i];
        assert Keys(t)[j] == k;
      }
      if k in Keys(t) {
        var j :| 0 <= j < |t| && Keys(t)[j] == k;
        assert t[j] in r;
        var i :| 0 <= i < |r| && r[i] == t[j];
        assert Keys(r)[i] == k;
      }
    }
  }

  /** `100 * groupby(key)[outcome].mean().sort_values(ascending=False)`:
      every key once, highest rate first, each 100 times the mean outcome of
      its rows; a percentage in [0, 100] for 0/1 outcomes. */
  lemma RankedRatesSpec<K(!new)>(rows: seq<(K, real)>, less: (K, K) -> bool)
    requires StrictTotalOrder(less)
    ensures var t := SortByRateDescending(Percent(GroupMeans(rows, less)));
      && DescendingByRate(t)
      && (forall k :: k in Keys(t) <==> k in Keys(rows))
      && (forall i :: 0 <= i < |t| ==>
            Select(rows, t[i].0) != [] && t[i].1 == 100.0 * Average(Select(rows, t[i].0)))
      && (BinaryOutcomes(rows) ==> forall i :: 0 <= i < |t| ==> 0.0 <= t[i].1 <= 100.0)
  {
    GroupMeansSpec(rows, less);
    var g := GroupMeans(rows, less);
    var p := Percent(g);
    SortByRateMembers(p);
    var t := SortByRateDescending(p);
    forall i | 0 <= i < |t|
      ensures Select(rows, t[i].0) != [] && t[i].1 == 100.0 * Average(Select(rows, t[i].0))
      ensures BinaryOutcomes(rows) ==> 0.0 <= t[i].1 <= 100.0
    {
      assert t[i] in p;
      var j :| 0 <= j < |p| && p[j] == t[i];
      assert Keys(p)[j] == Keys(g)[j];
    }
  }

  // ---------------------------------------------------------------------
  // Categorical keys: one entry per category, NaN where it has no rows

  /** `groupby(binned)[outcome].mean()` on a categorical with `n` categories
      (`observed=False`): entry `i` is the mean over rows with code `i`, or
      `None` (NaN) when category `i` has no rows. */
  function CategoryMeans(rows: seq<(nat, real)>, n: nat): (r: seq<Option<real>>)
    ensures |r| == n
  {
    seq(n, i requires 0 <= i < n =>
      var s := Select(rows, i);
      if s == [] then None else Some(Average(s)))
  }

  /** An empty category is missing, never 0; a present one holds the mean
      outcome of its rows, a share in [0, 1] for 0/1 outcomes. */
  lemma CategoryMeansSpec(rows: seq<(nat, real)>, n: nat)
    ensures var r := CategoryMeans(rows, n);
      && (forall i :: 0 <= i < n ==> (r[i].None? <==> i !in Keys(rows)))
      && (forall i :: 0 <= i < n && r[i].Some? ==> r[i].value == Average(Select(rows, i)))
      && (BinaryOutcomes(rows) ==>
            forall i :: 0 <= i < n && r[i].Some? ==> 0.0 <= r[i].value <= 1.0)
  {
    var r := CategoryMeans(rows, n);
    if BinaryOutcomes(rows) {
      forall i | 0 <= i < n && r[i].Some? ensures 0.0 <= r[i].value <= 1.0 {
        SelectBinary(rows, i);
        AverageOfBinary(Select(rows, i));
      }
    }
  }

  /** Scales the present entries by 100; missing ones stay missing. */
  function PercentOrMissing(r: seq<Option<real>>): (p: seq<Option<real>>)
    ensures |p| == |r|
    ensures forall i :: 0 <= i < |r| ==> (p[i].None? <==> r[i].None?)
  {
    seq(|r|, i requires 0 <= i < |r| => if r[i].Some? then Some(100.0 * r[i].value) else None)
  }

  // ---------------------------------------------------------------------
  // pivot_table(values=outcome, index=row key, columns=category, aggfunc="mean")

  datatype PivotTable = PivotTable(rowKeys: seq<string>, colKeys: seq<nat>, cells: seq<seq<Option<real>>>)

  /** Rows of a pivot: a (row label, column category) pair and an outcome. */
  type Cross = ((string, nat), real)

  function RowKeys(rows: seq<Cross>): (ks: seq<(string, real)>)
    ensures |ks| == |rows|
  {
    seq(|rows|, i requires 0 <= i < |rows| => (rows[i].0.0, rows[i].1))
  }

  function ColKeys(rows: seq<Cross>): (ks: seq<(nat, real)>)
    ensures |ks| == |rows|
  {
    seq(|rows|, i requires 0 <= i < |rows| => (rows[i].0.1, rows[i].1))
  }

  /** Rows are the labels present, columns the categories present (pandas'
      `dropna=True` drops all-NaN columns), both ascending; a cell is the mean
      over its rows, or missing when no row has that pair. */
  function Pivot(rows: seq<Cross>): (p: PivotTable)
    ensures |p.cells| == |p.rowKeys|
    ensures forall i :: 0 <= i < |p.cells| ==> |p.cells[i]| == |p.colKeys|
  {
    var rk := SortedKeys(Keys(RowKeys(rows)), StringLess);
    var ck := SortedKeys(Keys(ColKeys(rows)), NatLess);
    PivotTable(rk, ck,
      seq(|rk|, i requires 0 <= i < |rk| =>
        seq(|ck|, j requires 0 <= j < |ck| =>
          var s := Select(rows, (rk[i], ck[j]));
          if s == [] then None else Some(Average(s)))))
  }

  lemma PivotRowKeys(rows: seq<Cross>)
    ensures StrictlySorted(Pivot(rows).rowKeys, StringLess)
    ensures forall s :: s in Pivot(rows).rowKeys <==> exists k :: 0 <= k < |rows| && rows[k].0.0 == s
  {
    StringLessIsStrictTotalOrder();
    SortedKeysSorted(Keys(RowKeys(rows)), StringLess);
    var ks := Keys(RowKeys(rows));
    forall s ensures s in ks <==> exists k :: 0 <= k < |rows| && rows[k].0.0 == s {
      if exists k :: 0 <= k < |rows| && rows[k].0.0 == s {
        var k :| 0 <= k < |rows| && rows[k].0.0 == s;
        assert ks[k] == s;
      }
    }
  }

  lemma PivotColKeys(rows: seq<Cross>)
    ensures StrictlySorted(Pivot(rows).colKeys, NatLess)
    ensures forall c :: c in Pivot(rows).colKeys <==> exists k :: 0 <= k < |rows| && rows[k].0.1 == c
  {
    NatLessIsStrictTotalOrder();
    SortedKeysSorted(Keys(ColKeys(rows)), NatLess);
    var ks := Keys(ColKeys(rows));
    forall c ensures c in ks <==> exists k :: 0 <= k < |rows| && rows[k].0.1 == c {
      if exists k :: 0 <= k < |rows| && rows[k].0.1 == c {
        var k :| 0 <= k < |rows| && rows[k].0.1 == c;
        assert ks[k] == c;
      }
    }
  }

  /** A row label or a column appears exactly when some row carries it, both
      in ascending order; a cell is missing exactly when no row has its
      (label, category) pair, never 0, and otherwise holds the mean outcome
      of those rows, in [0, 1] for 0/1 outcomes. */
  lemma PivotSpec(rows: seq<Cross>)
    ensures var p := Pivot(rows);
      && StrictlySorted(p.rowKeys, StringLess) && StrictlySorted(p.colKeys, NatLess)
      && (forall s :: s in p.rowKeys <==> exists k :: 0 <= k < |rows| && rows[k].0.0 == s)
      && (forall c :: c in p.colKeys <==> exists k :: 0 <= k < |rows| && rows[k].0.1 == c)
      && (forall i, j :: 0 <= i < |p.rowKeys| && 0 <= j < |p.colKeys| ==>
            (p.cells[i][j].None? <==> (p.rowKeys[i], p.colKeys[j]) !in Keys(rows)))
      && (BinaryOutcomes(rows) ==>
            forall i, j :: 0 <= i < |p.rowKeys| && 0 <= j < |p.colKeys| && p.cells[i][j].Some? ==>
              0.0 <= p.cells[i][j].value <= 1.0)
  {
    PivotRowKeys(rows);
    PivotColKeys(rows);
    PivotCells(rows);
  }

  /** A pivot cell is missing exactly when its (row, column) pair has no row,
      and otherwise holds the mean outcome of those rows. */
  lemma PivotCells(rows: seq<Cross>)
    ensures var p := Pivot(rows);
      && (forall i, j :: 0 <= i < |p.rowKeys| && 0 <= j < |p.colKeys| ==>
            (p.cells[i][j].None? <==> (p.rowKeys[i], p.colKeys[j]) !in Keys(rows)))
      && (BinaryOutcomes(rows) ==>
            forall i, j :: 0 <= i < |p.rowKeys| && 0 <= j < |p.colKeys| && p.cells[i][j].Some? ==>
              0.0 <= p.cells[i][j].value <= 1.0)
  {
    var p := Pivot(rows);
    forall i, j | 0 <= i < |p.rowKeys| && 0 <= j < |p.colKeys|
      ensures p.cells[i][j].None? <==> (p.rowKeys[i], p.colKeys[j]) !in Keys(rows)
      ensures BinaryOutcomes(rows) && p.cells[i][j].Some? ==> 0.0 <= p.cells[i][j].value <= 1.0
    {
      var s := Select(rows, (p.rowKeys[i], p.colKeys[j]));
      assert p.cells[i][j] == if s == [] then None else Some(Average(s));
      if BinaryOutcomes(rows) && s != [] {
        SelectBinary(rows, (p.rowKeys[i], p.colKeys[j]));
        AverageOfBinary(s);
      }
    }
  }
}
