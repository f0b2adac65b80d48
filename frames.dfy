/** Date-indexed pandas tables and series, and the whole-table operations the analysis
    stages share: column lookup, `dropna`, `sort_index`, and the selection `KeyError`. */
module Frames {
  import opened Wrappers
  import opened Seqs

  /** A pandas Timestamp, as a count of time units since an epoch. */
  type Date = int

  /** One float cell; `Missing` is NaN, pandas' marker for a missing value. */
  datatype Cell = Missing | Val(v: real)

  datatype Row = Row(date: Date, cells: map<string, Cell>)

  /** A date-indexed DataFrame: its column labels and its rows in index order. */
  datatype Table = Table(columns: seq<string>, rows: seq<Row>)

  /** One entry of a date-indexed Series. */
  datatype Point = Point(date: Date, value: Cell)

  function RowDate(r: Row): Date { r.date }

  function PointDate(p: Point): Date { p.date }

  /** The cell of `row` in column `c`; a label the row does not carry reads as NaN. */
  function Get(row: Row, c: string): Cell
  {
    if c in row.cells then row.cells[c] else Missing
  }

  /** The row has a value in every one of `cols`. */
  predicate Complete(row: Row, cols: seq<string>)
  {
    forall j :: 0 <= j < |cols| ==> Get(row, cols[j]).Val?
  }

  /** `df[cols].dropna(how="any")`: the rows with a value in every one of `cols`. */
  function DropNa(rows: seq<Row>, cols: seq<string>): seq<Row>
  {
    Filter(rows, (r: Row) => Complete(r, cols))
  }

  /** The row has a value in at least one of `cols`. */
  predicate AnyPresent(row: Row, cols: seq<string>)
  {
    exists j :: 0 <= j < |cols| && Get(row, cols[j]).Val?
  }

  /** `df[cols].dropna(how="all")`: the rows with a value in at least one of `cols`. */
  function DropAllNa(rows: seq<Row>, cols: seq<string>): seq<Row>
  {
    Filter(rows, (r: Row) => AnyPresent(r, cols))
  }

  /** The labels among `wanted` that are not columns: a selection `df[wanted]` raises
      `KeyError` naming them when this is non-empty. */
  function MissingColumns(wanted: seq<string>, columns: seq<string>): seq<string>
  {
    Filter(wanted, (c: string) => c !in columns)
  }

  /** The first row dated `d`, if any. */
  function FindByDate(rows: seq<Row>, d: Date): (r: Option<Row>)
    ensures r.Some? ==> r.value in rows && r.value.date == d
    ensures r.None? <==> forall i :: 0 <= i < |rows| ==> rows[i].date != d
    ensures DatesUnique(rows, RowDate) ==>
              forall i :: 0 <= i < |rows| && rows[i].date == d ==> r == Some(rows[i])
  {
    if rows == [] then None
    else if rows[0].date == d then Some(rows[0])
    else
      var r := FindByDate(rows[1..], d);
      assert forall i :: 1 <= i < |rows| ==> rows[i] == rows[1..][i - 1];
      r
  }

  // ---- weights ----

  /** `pd.Series(weights).reindex(columns).fillna(0.0)`: one weight per column, in column
      order; a column without a weight gets 0 and a weight for a label that is not a
      column is dropped. */
  function Reindex(columns: seq<string>, weights: map<string, real>): (w: seq<real>)
    ensures |w| == |columns|
    ensures forall j :: 0 <= j < |columns| ==> w[j] == if columns[j] in weights then weights[columns[j]] else 0.0
  {
    seq(|columns|, j requires 0 <= j < |columns| => if columns[j] in weights then weights[columns[j]] else 0.0)
  }

  /** Weights configured for labels that are not columns have no effect: two weight maps
      that agree on the columns reindex identically. */
  lemma ReindexIgnoresOtherLabels(columns: seq<string>, w1: map<string, real>, w2: map<string, real>)
    requires forall c :: c in columns ==> (c in w1 <==> c in w2)
    requires forall c :: c in columns && c in w1 ==> w1[c] == w2[c]
    ensures Reindex(columns, w1) == Reindex(columns, w2)
  {
  }

  /** The terms of `(df * w).sum(axis=1)` on one row: `w_j * r_j`, with a NaN cell
      contributing nothing because the sum skips NaN. */
  function WeightedTerms(row: Row, columns: seq<string>, w: seq<real>): (t: seq<real>)
    requires |w| == |columns|
    ensures |t| == |columns|
  {
    seq(|columns|, j requires 0 <= j < |columns| =>
      if Get(row, columns[j]).Val? then w[j] * Get(row, columns[j]).v else 0.0)
  }

  function WeightedSum(row: Row, columns: seq<string>, w: seq<real>): real
    requires |w| == |columns|
  {
    Sum(WeightedTerms(row, columns, w))
  }

  /** The values of a row with no gap in `cols`, in column order. */
  function Values(row: Row, cols: seq<string>): (r: seq<real>)
    requires Complete(row, cols)
    ensures |r| == |cols|
    ensures forall j :: 0 <= j < |cols| ==> Get(row, cols[j]) == Val(r[j])
  {
    seq(|cols|, j requires 0 <= j < |cols| && Get(row, cols[j]).Val? => Get(row, cols[j]).v)
  }

  /** On a row with a value in every column the weighted sum is the plain `sum_j w_j * r_j`. */
  lemma WeightedSumComplete(row: Row, columns: seq<string>, w: seq<real>)
    requires |w| == |columns| && Complete(row, columns)
    ensures WeightedSum(row, columns, w) == Dot(w, Values(row, columns))
  {
    var r := Values(row, columns);
    var plain := seq(|r|, j requires 0 <= j < |r| => w[j] * r[j]);
    forall j | 0 <= j < |r| ensures WeightedTerms(row, columns, w)[j] == plain[j] {
      assert Get(row, columns[j]).v == r[j];
    }
    assert WeightedTerms(row, columns, w) == plain;
  }

  // ---- ordering by date ----

  predicate DatesSorted<T>(s: seq<T>, date: T -> Date)
  {
    forall i, j :: 0 <= i < j < |s| ==> date(s[i]) <= date(s[j])
  }

  predicate DatesIncreasing<T>(s: seq<T>, date: T -> Date)
  {
    forall i, j :: 0 <= i < j < |s| ==> date(s[i]) < date(s[j])
  }

  predicate DatesUnique<T>(s: seq<T>, date: T -> Date)
  {
    forall i, j :: 0 <= i < j < |s| ==> date(s[i]) != date(s[j])
  }

  lemma UniqueCons<T>(x: T, t: seq<T>, date: T -> Date)
    ensures DatesUnique([x] + t, date) <==>
            DatesUnique(t, date) && forall k :: 0 <= k < |t| ==> date(t[k]) != date(x)
  {
    var s := [x] + t;
    assert forall k :: 0 <= k < |t| ==> s[k + 1] == t[k];
    if DatesUnique(t, date) && forall k :: 0 <= k < |t| ==> date(t[k]) != date(x) {
      forall i, j | 0 <= i < j < |s| ensures date(s[i]) != date(s[j]) {
        if i > 0 {
          assert s[i] == t[i - 1];
        }
      }
    }
    if DatesUnique(s, date) {
      forall i, j | 0 <= i < j < |t| ensures date(t[i]) != date(t[j]) {
        assert s[i + 1] == t[i] && s[j + 1] == t[j];
      }
      forall k | 0 <= k < |t| ensures date(t[k]) != date(x) {
        assert s[0] == x && s[k + 1] == t[k];
      }
    }
  }

  lemma IncreasingCons<T>(x: T, t: seq<T>, date: T -> Date)
    ensures DatesIncreasing([x] + t, date) <==>
            DatesIncreasing(t, date) && forall k :: 0 <= k < |t| ==> date(x) < date(t[k])
  {
    var s := [x] + t;
    assert forall k :: 0 <= k < |t| ==> s[k + 1] == t[k];
    if DatesIncreasing(t, date) && forall k :: 0 <= k < |t| ==> date(x) < date(t[k]) {
      forall i, j | 0 <= i < j < |s| ensures date(s[i]) < date(s[j]) {
        if i > 0 {
          assert s[i] == t[i - 1];
        }
      }
    }
    if DatesIncreasing(s, date) {
      forall i, j | 0 <= i < j < |t| ensures date(t[i]) < date(t[j]) {
        assert s[i + 1] == t[i] && s[j + 1] == t[j];
      }
      forall k | 0 <= k < |t| ensures date(x) < date(t[k]) {
        assert s[0] == x && s[k + 1] == t[k];
      }
    }
  }

  lemma SortedCons<T>(x: T, t: seq<T>, date: T -> Date)
    ensures DatesSorted([x] + t, date) <==>
            DatesSorted(t, date) && forall k :: 0 <= k < |t| ==> date(x) <= date(t[k])
  {
    var s := [x] + t;
    assert forall k :: 0 <= k < |t| ==> s[k + 1] == t[k];
    if DatesSorted(t, date) && forall k :: 0 <= k < |t| ==> date(x) <= date(t[k]) {
      forall i, j | 0 <= i < j < |s| ensures date(s[i]) <= date(s[j]) {
        if i > 0 {
          assert s[i] == t[i - 1];
        }
      }
    }
    if DatesSorted(s, date) {
      forall i, j | 0 <= i < j < |t| ensures date(t[i]) <= date(t[j]) {
        assert s[i + 1] == t[i] && s[j + 1] == t[j];
      }
      forall k | 0 <= k < |t| ensures date(x) <= date(t[k]) {
        assert s[0] == x && s[k + 1] == t[k];
      }
    }
  }

  /** Every element of a permutation of `s` is an element of `s`. */
  lemma PermutationMembers<T>(t: seq<T>, s: seq<T>, k: int)
    requires multiset(t) == multiset(s) && 0 <= k < |t|
    ensures exists m :: 0 <= m < |s| && s[m] == t[k]
  {
    assert t[k] in multiset(t);
    assert t[k] in s;
  }

  /** A sub-list kept by a filter has no repeated date when the list has none. */
  lemma {:induction false} FilterDatesUnique<T>(s: seq<T>, p: T -> bool, date: T -> Date)
    requires DatesUnique(s, date)
    ensures DatesUnique(Filter(s, p), date)
  {
    if s != [] {
      assert s == [s[0]] + s[1..];
      UniqueCons(s[0], s[1..], date);
      FilterDatesUnique(s[1..], p, date);
      var f := Filter(s[1..], p);
      forall k | 0 <= k < |f| ensures date(f[k]) != date(s[0]) {
        var m :| 0 <= m < |s[1..]| && s[1..][m] == f[k];
      }
      UniqueCons(s[0], f, date);
    }
  }

  /** A filter keeps the order of a list sorted by date. */
  lemma {:induction false} FilterDatesIncreasing<T>(s: seq<T>, p: T -> bool, date: T -> Date)
    requires DatesIncreasing(s, date)
    ensures DatesIncreasing(Filter(s, p), date)
  {
    if s != [] {
      assert s == [s[0]] + s[1..];
      IncreasingCons(s[0], s[1..], date);
      FilterDatesIncreasing(s[1..], p, date);
      var f := Filter(s[1..], p);
      forall k | 0 <= k < |f| ensures date(s[0]) < date(f[k]) {
        var m :| 0 <= m < |s[1..]| && s[1..][m] == f[k];
      }
      if p(s[0]) {
        IncreasingCons(s[0], f, date);
      } else {
        assert Filter(s, p) == f;
      }
    }
  }

  function InsertByDate<T>(x: T, s: seq<T>, date: T -> Date): (r: seq<T>)
    requires DatesSorted(s, date)
    ensures multiset(r) == multiset(s) + multiset{x}
    ensures DatesSorted(r, date)
  {
    if s == [] || date(x) <= date(s[0]) then
      SortedCons(x, s, date);
      [x] + s
    else
      assert s == [s[0]] + s[1..];
      SortedCons(s[0], s[1..], date);
      var t := InsertByDate(x, s[1..], date);
      InsertByDateBound(x, s, t, date);
      SortedCons(s[0], t, date);
      [s[0]] + t
  }

  lemma InsertByDateBound<T>(x: T, s: seq<T>, t: seq<T>, date: T -> Date)
    requires s != [] && DatesSorted(s, date) && date(x) > date(s[0])
    requires multiset(t) == multiset(s[1..]) + multiset{x}
    ensures forall k :: 0 <= k < |t| ==> date(s[0]) <= date(t[k])
  {
    forall k | 0 <= k < |t| ensures date(s[0]) <= date(t[k]) {
      assert t[k] in multiset(t);
      if t[k] != x {
        assert t[k] in multiset(s[1..]);
        var m :| 0 <= m < |s[1..]| && s[1..][m] == t[k];
        assert s[m + 1] == t[k];
      }
    }
  }

  /** `sort_index()`: a stable insertion sort of a list by date. */
  function SortByDate<T>(s: seq<T>, date: T -> Date): (r: seq<T>)
    ensures multiset(r) == multiset(s)
    ensures DatesSorted(r, date)
  {
    if s == [] then [] else
      assert s == [s[0]] + s[1..];
      InsertByDate(s[0], SortByDate(s[1..], date), date)
  }

  /** Sorting a list already sorted by date leaves it unchanged. */
  lemma {:induction false} SortByDateOfSorted<T>(s: seq<T>, date: T -> Date)
    requires DatesSorted(s, date)
    ensures SortByDate(s, date) == s
  {
    if s != [] {
      assert DatesSorted(s[1..], date) by {
        forall i, j | 0 <= i < j < |s| - 1 ensures date(s[1..][i]) <= date(s[1..][j]) {
          assert s[1..][i] == s[i + 1] && s[1..][j] == s[j + 1];
        }
      }
      SortByDateOfSorted(s[1..], date);
      assert s == [s[0]] + s[1..];
    }
  }

  lemma {:induction false} InsertByDateIncreasing<T>(x: T, s: seq<T>, date: T -> Date)
    requires DatesIncreasing(s, date)
    requires forall k :: 0 <= k < |s| ==> date(s[k]) != date(x)
    ensures DatesIncreasing(InsertByDate(x, s, date), date)
  {
    if s != [] && date(x) > date(s[0]) {
      assert DatesIncreasing(s[1..], date) by {
        forall i, j | 0 <= i < j < |s| - 1 ensures date(s[1..][i]) < date(s[1..][j]) {
          assert s[1..][i] == s[i + 1] && s[1..][j] == s[j + 1];
        }
      }
      InsertByDateIncreasing(x, s[1..], date);
      var t := InsertByDate(x, s[1..], date);
      forall k | 0 <= k < |t| ensures date(s[0]) < date(t[k]) {
        assert t[k] in multiset(t);
        if t[k] != x {
          assert t[k] in multiset(s[1..]);
          var m :| 0 <= m < |s[1..]| && s[1..][m] == t[k];
          assert s[m + 1] == t[k];
        }
      }
    }
  }

  /** Sorting a list whose dates are unique gives a list with strictly increasing dates. */
  lemma {:induction false} SortByDateIncreasing<T>(s: seq<T>, date: T -> Date)
    requires DatesUnique(s, date)
    ensures DatesIncreasing(SortByDate(s, date), date)
  {
    if s != [] {
      assert s == [s[0]] + s[1..];
      UniqueCons(s[0], s[1..], date);
      SortByDateIncreasing(s[1..], date);
      var t := SortByDate(s[1..], date);
      forall k | 0 <= k < |t| ensures date(t[k]) != date(s[0]) {
        assert t[k] in multiset(s[1..]);
        var m :| 0 <= m < |s[1..]| && s[1..][m] == t[k];
      }
      InsertByDateIncreasing(s[0], t, date);
    }
  }

  /** `dropna` keeps the surviving rows in their order, so increasing dates stay increasing. */
  lemma DropNaIncreasing(rows: seq<Row>, cols: seq<string>)
    requires DatesIncreasing(rows, RowDate)
    ensures DatesIncreasing(DropNa(rows, cols), RowDate)
  {
    FilterDatesIncreasing(rows, (r: Row) => Complete(r, cols), RowDate);
  }

  /** A list whose dates strictly increase has no repeated date. */
  lemma IncreasingIsUnique<T>(s: seq<T>, date: T -> Date)
    requires DatesIncreasing(s, date)
    ensures DatesUnique(s, date) && DatesSorted(s, date)
  {
  }
}
