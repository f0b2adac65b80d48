/** Volatility regimes (`compute_regimes`) and the summary around them
    (`regimes_and_summary`): a portfolio return series, its rolling volatility, a
    threshold taken from the trailing volatility that ends one row earlier, and a
    calm/stress label per row. Rolling standard deviation and rolling quantile are left
    abstract as functions of their window. */
module Regimes {
  import opened Wrappers
  import opened Seqs
  import opened Floats
  import opened Frames
  import opened Drawdown

  datatype Regime = Calm | Stress

  /** One row of the regime table: `ret`, `vol`, `vol_thresh`, `is_stress` and `regime`. */
  datatype RegimeRow = RegimeRow(date: Date, ret: real, vol: real, volThresh: real, isStress: int, regime: Regime)

  datatype Error =
    | NegativeWindow   // pandas rejects a negative rolling window
    | PercentileOutOfRange(pct: real)   // pandas' rolling quantile rejects `q` outside [0, 1]
    | ZeroDivision     // equal weights over a table without columns
    | ZeroWeightSum    // explicit weights that sum to zero over the table's columns
    | KeyError(labels: seq<string>)   // selected columns the table lacks

  /** One observation of the cleaned return series. */
  datatype Ret = Ret(date: Date, r: real)

  function RetDate(x: Ret): Date { x.date }

  function ToRets(ps: seq<Point>): (c: seq<Ret>)
    requires forall i :: 0 <= i < |ps| ==> ps[i].value.Val?
    ensures |c| == |ps|
    ensures forall i :: 0 <= i < |c| ==> c[i].date == ps[i].date && Val(c[i].r) == ps[i].value
  {
    seq(|ps|, i requires 0 <= i < |ps| && ps[i].value.Val? => Ret(ps[i].date, ps[i].value.v))
  }

  /** `returns.dropna().sort_index()`. */
  function CleanReturns(series: seq<Point>): seq<Ret>
  {
    var present := Filter(series, (p: Point) => p.value.Val?);
    assert forall i :: 0 <= i < |present| ==> present[i].value.Val?;
    SortByDate(ToRets(present), RetDate)
  }

  function Returns(c: seq<Ret>): (rs: seq<real>)
    ensures |rs| == |c|
  {
    seq(|c|, i requires 0 <= i < |c| => c[i].r)
  }

  /** `vol = r.rolling(V).std()` at row `i`: the sample standard deviation of rows
      `[i - V + 1, i]` once a full window exists. A sample standard deviation needs two
      values, so windows shorter than 2 never give one. */
  function Vol(rs: seq<real>, V: int, std: seq<real> -> real, i: nat): Cell
    requires i < |rs|
  {
    if V >= 2 && i >= V - 1 then Val(std(rs[i - V + 1 .. i + 1])) else Missing
  }

  /** `vol.shift(1)` at row `k`. */
  function ShiftedVol(rs: seq<real>, V: int, std: seq<real> -> real, k: nat): Cell
    requires k < |rs|
  {
    if k == 0 then Missing else Vol(rs, V, std, k - 1)
  }

  /** The window of `vol.shift(1).rolling(L)` ending at row `i` lies inside the series
      and holds no NaN (the rolling window needs `L` values). */
  predicate ThreshWindowFull(rs: seq<real>, V: int, L: int, std: seq<real> -> real, i: nat)
    requires i < |rs|
  {
    L >= 1 && i - L + 1 >= 0 && forall k :: i - L + 1 <= k <= i ==> ShiftedVol(rs, V, std, k).Val?
  }

  /** The trailing volatilities `vol[i - L], ..., vol[i - 1]`. */
  function TrailingVols(rs: seq<real>, V: int, L: int, std: seq<real> -> real, i: nat): (w: seq<real>)
    requires i < |rs| && ThreshWindowFull(rs, V, L, std, i)
    ensures |w| == L
  {
    seq(L, j requires 0 <= j < L => ShiftedVol(rs, V, std, i - L + 1 + j).v)
  }

  /** `vol_thresh = vol.shift(1).rolling(L).quantile(percentile)` at row `i`. */
  function Thresh(rs: seq<real>, V: int, L: int, pct: real, std: seq<real> -> real,
                  quantile: (seq<real>, real) -> real, i: nat): Cell
    requires i < |rs|
  {
    if ThreshWindowFull(rs, V, L, std, i) then Val(quantile(TrailingVols(rs, V, L, std, i), pct)) else Missing
  }

  /** Row `i` survives `df.dropna()`: both rolling quantities are defined there. */
  predicate Defined(rs: seq<real>, V: int, L: int, pct: real, std: seq<real> -> real,
                    quantile: (seq<real>, real) -> real, i: nat)
    requires i < |rs|
  {
    Vol(rs, V, std, i).Val? && Thresh(rs, V, L, pct, std, quantile, i).Val?
  }

  /** Lines 29-32 for one surviving row: `is_stress = int(vol >= vol_thresh)` and the label
      `{0: "calm", 1: "stress"}[is_stress]`. */
  function RowAt(c: seq<Ret>, V: int, L: int, pct: real, std: seq<real> -> real,
                 quantile: (seq<real>, real) -> real, i: nat): RegimeRow
    requires i < |c| && Defined(Returns(c), V, L, pct, std, quantile, i)
  {
    var v := Vol(Returns(c), V, std, i).v;
    var t := Thresh(Returns(c), V, L, pct, std, quantile, i).v;
    var s := if v >= t then 1 else 0;
    RegimeRow(c[i].date, c[i].r, v, t, s, if s == 1 then Stress else Calm)
  }

  /** The rows among the first `n` that survive `dropna`, in order. */
  function RegimeRows(c: seq<Ret>, n: nat, V: int, L: int, pct: real, std: seq<real> -> real,
                      quantile: (seq<real>, real) -> real): seq<RegimeRow>
    requires n <= |c|
  {
    if n == 0 then []
    else RegimeRows(c, n - 1, V, L, pct, std, quantile) +
         (if Defined(Returns(c), V, L, pct, std, quantile, n - 1) then [RowAt(c, V, L, pct, std, quantile, n - 1)] else [])
  }

  /** `compute_regimes`. The rolling quantile checks its level only when there are values
      to aggregate: a level of exactly 0 or 1 is taken as a rolling minimum or maximum. */
  function ComputeRegimes(series: seq<Point>, V: int, L: int, pct: real, std: seq<real> -> real,
                          quantile: (seq<real>, real) -> real): Result<seq<RegimeRow>, Error>
  {
    if V < 0 || L < 0 then Err(NegativeWindow)
    else
      var c := CleanReturns(series);
      if |c| > 0 && !(0.0 <= pct <= 1.0) then Err(PercentileOutOfRange(pct))
      else Ok(RegimeRows(c, |c|, V, L, pct, std, quantile))
  }

  // ---- warm-up ----

  /** With `V >= 2` and `L >= 1`, row `i` has both rolling quantities exactly when
      `i >= V + L - 1`. */
  lemma DefinedExactly(rs: seq<real>, V: int, L: int, pct: real, std: seq<real> -> real,
                       quantile: (seq<real>, real) -> real, i: nat)
    requires i < |rs| && V >= 2 && L >= 1
    ensures Defined(rs, V, L, pct, std, quantile, i) <==> i >= V + L - 1
  {
    if i >= V + L - 1 {
      assert ThreshWindowFull(rs, V, L, std, i);
    } else if i - L + 1 >= 0 {
      assert !ShiftedVol(rs, V, std, i - L + 1).Val?;
    }
  }

  /** A window shorter than 2 never yields a volatility, so no row survives. */
  lemma {:induction false} NoRowsWithoutVol(c: seq<Ret>, n: nat, V: int, L: int, pct: real,
                                            std: seq<real> -> real, quantile: (seq<real>, real) -> real)
    requires n <= |c| && V < 2
    ensures RegimeRows(c, n, V, L, pct, std, quantile) == []
  {
    if n > 0 {
      NoRowsWithoutVol(c, n - 1, V, L, pct, std, quantile);
    }
  }

  /** An empty quantile window never yields a threshold, so no row survives. */
  lemma {:induction false} NoRowsWithoutThresh(c: seq<Ret>, n: nat, V: int, L: int, pct: real,
                                               std: seq<real> -> real, quantile: (seq<real>, real) -> real)
    requires n <= |c| && L < 1
    ensures RegimeRows(c, n, V, L, pct, std, quantile) == []
  {
    if n > 0 {
      NoRowsWithoutThresh(c, n - 1, V, L, pct, std, quantile);
    }
  }

  function WarmUp(V: int, L: int): int { V + L - 1 }

  /** The output rows are exactly positions `V + L - 1, V + L, ...` of the cleaned series:
      `max(0, N - V - L + 1)` of them among the first `N`, the row for position `i` at
      index `i - (V + L - 1)`. */
  lemma {:induction false} RegimeRowsExact(c: seq<Ret>, n: nat, V: int, L: int, pct: real,
                                           std: seq<real> -> real, quantile: (seq<real>, real) -> real)
    requires n <= |c| && V >= 2 && L >= 1
    ensures |RegimeRows(c, n, V, L, pct, std, quantile)| == if n >= WarmUp(V, L) then n - WarmUp(V, L) else 0
    ensures forall i: nat :: WarmUp(V, L) <= i < n ==>
              Defined(Returns(c), V, L, pct, std, quantile, i) &&
              RegimeRows(c, n, V, L, pct, std, quantile)[i - WarmUp(V, L)] == RowAt(c, V, L, pct, std, quantile, i)
  {
    if n > 0 {
      RegimeRowsExact(c, n - 1, V, L, pct, std, quantile);
      DefinedExactly(Returns(c), V, L, pct, std, quantile, n - 1);
      var prev := RegimeRows(c, n - 1, V, L, pct, std, quantile);
      if Defined(Returns(c), V, L, pct, std, quantile, n - 1) {
        var all := prev + [RowAt(c, V, L, pct, std, quantile, n - 1)];
        assert RegimeRows(c, n, V, L, pct, std, quantile) == all;
        forall i: nat | WarmUp(V, L) <= i < n
          ensures Defined(Returns(c), V, L, pct, std, quantile, i)
          ensures all[i - WarmUp(V, L)] == RowAt(c, V, L, pct, std, quantile, i)
        {
          DefinedExactly(Returns(c), V, L, pct, std, quantile, i);
          if i < n - 1 {
            assert all[i - WarmUp(V, L)] == prev[i - WarmUp(V, L)];
          }
        }
      } else {
        assert RegimeRows(c, n, V, L, pct, std, quantile) == prev;
      }
    }
  }

  /** `compute_regimes` fails exactly on a negative window, or on a percentile outside
      [0, 1] when the cleaned series is not empty, the window error first. Otherwise, with
      `V >= 2` and `L >= 1` its rows are those of positions `V + L - 1 ..` of the cleaned
      series; with `V < 2` or `L == 0` it has none. */
  lemma ComputeRegimesWarmUp(series: seq<Point>, V: int, L: int, pct: real,
                             std: seq<real> -> real, quantile: (seq<real>, real) -> real)
    ensures var r := ComputeRegimes(series, V, L, pct, std, quantile);
            (r.Err? <==> V < 0 || L < 0 || (|CleanReturns(series)| > 0 && !(0.0 <= pct <= 1.0))) &&
            (r.Err? ==> r.error == if V < 0 || L < 0 then NegativeWindow else PercentileOutOfRange(pct))
    ensures ComputeRegimes(series, V, L, pct, std, quantile).Ok? && (V < 2 || L < 1) ==>
              ComputeRegimes(series, V, L, pct, std, quantile).value == []
    ensures ComputeRegimes(series, V, L, pct, std, quantile).Ok? && V >= 2 && L >= 1 ==>
              var c := CleanReturns(series);
              var rows := ComputeRegimes(series, V, L, pct, std, quantile).value;
              |rows| == (if |c| >= WarmUp(V, L) then |c| - WarmUp(V, L) else 0) &&
              forall i: nat :: WarmUp(V, L) <= i < |c| ==> rows[i - WarmUp(V, L)] == RowAt(c, V, L, pct, std, quantile, i)
  {
    var c := CleanReturns(series);
    if V < 2 {
      NoRowsWithoutVol(c, |c|, V, L, pct, std, quantile);
    } else if L < 1 {
      NoRowsWithoutThresh(c, |c|, V, L, pct, std, quantile);
    } else {
      RegimeRowsExact(c, |c|, V, L, pct, std, quantile);
    }
  }

  // ---- labels ----

  predicate LabelRule(row: RegimeRow)
  {
    (row.regime == Stress <==> row.vol >= row.volThresh) &&
    (row.isStress == 1 <==> row.regime == Stress) &&
    (row.isStress == 0 <==> row.regime == Calm)
  }

  /** Every row is labelled `stress` exactly when its volatility reaches the threshold
      (boundary included), `calm` otherwise, with `is_stress` the matching 0/1 flag. */
  lemma {:induction false} LabelsFollowRule(c: seq<Ret>, n: nat, V: int, L: int, pct: real,
                                            std: seq<real> -> real, quantile: (seq<real>, real) -> real)
    requires n <= |c|
    ensures forall k :: 0 <= k < |RegimeRows(c, n, V, L, pct, std, quantile)| ==>
              LabelRule(RegimeRows(c, n, V, L, pct, std, quantile)[k])
  {
    if n > 0 {
      LabelsFollowRule(c, n - 1, V, L, pct, std, quantile);
      if Defined(Returns(c), V, L, pct, std, quantile, n - 1) {
        var row := RowAt(c, V, L, pct, std, quantile, n - 1);
        assert LabelRule(row);
        var prev := RegimeRows(c, n - 1, V, L, pct, std, quantile);
        assert RegimeRows(c, n, V, L, pct, std, quantile) == prev + [row];
      }
    }
  }

  // ---- no look-ahead ----

  /** The threshold at row `i` reads only the volatilities at rows `i - L .. i - 1`. */
  lemma ThreshReadsTrailingVol(rs1: seq<real>, rs2: seq<real>, V: int, L: int, pct: real,
                               std: seq<real> -> real, quantile: (seq<real>, real) -> real, i: nat)
    requires i < |rs1| && i < |rs2|
    requires forall k :: 0 <= k < i && i - L <= k ==> Vol(rs1, V, std, k) == Vol(rs2, V, std, k)
    ensures Thresh(rs1, V, L, pct, std, quantile, i) == Thresh(rs2, V, L, pct, std, quantile, i)
  {
    forall k | i - L + 1 <= k <= i && k >= 0 ensures ShiftedVol(rs1, V, std, k) == ShiftedVol(rs2, V, std, k) {
    }
    if ThreshWindowFull(rs1, V, L, std, i) {
      assert TrailingVols(rs1, V, L, std, i) == TrailingVols(rs2, V, L, std, i);
    }
  }

  /** Returns after row `i` change neither its volatility, nor its threshold, nor its label. */
  lemma RowNoLookAhead(c1: seq<Ret>, c2: seq<Ret>, V: int, L: int, pct: real,
                       std: seq<real> -> real, quantile: (seq<real>, real) -> real, i: nat)
    requires i < |c1| && i < |c2| && c1[..i + 1] == c2[..i + 1]
    ensures Defined(Returns(c1), V, L, pct, std, quantile, i) == Defined(Returns(c2), V, L, pct, std, quantile, i)
    ensures Defined(Returns(c1), V, L, pct, std, quantile, i) ==>
              RowAt(c1, V, L, pct, std, quantile, i) == RowAt(c2, V, L, pct, std, quantile, i)
  {
    var rs1, rs2 := Returns(c1), Returns(c2);
    forall k | 0 <= k <= i ensures Vol(rs1, V, std, k) == Vol(rs2, V, std, k) {
      assert c1[k] == c1[..i + 1][k] == c2[..i + 1][k] == c2[k];
      if V >= 2 && k >= V - 1 {
        assert rs1[k - V + 1 .. k + 1] == rs2[k - V + 1 .. k + 1] by {
          forall j | k - V + 1 <= j <= k ensures rs1[j] == rs2[j] {
            assert c1[j] == c1[..i + 1][j] == c2[..i + 1][j] == c2[j];
          }
        }
      }
    }
    ThreshReadsTrailingVol(rs1, rs2, V, L, pct, std, quantile, i);
    assert c1[i] == c1[..i + 1][i] == c2[..i + 1][i] == c2[i];
  }

  // ---- weights and the portfolio return ----

  /** Lines 51-57: `1 / n` per column when no weights are configured; otherwise the
      configured weights reindexed to the table's columns and divided by their sum. */
  function RegimeWeights(columns: seq<string>, weights: Option<map<string, real>>): (r: Result<seq<real>, Error>)
    ensures r.Ok? ==> |r.value| == |columns|
  {
    match weights
    case None =>
      if |columns| == 0 then Err(ZeroDivision)
      else Ok(seq(|columns|, _ => 1.0 / |columns| as real))
    case Some(wm) =>
      var raw := Reindex(columns, wm);
      if Sum(raw) == 0.0 then Err(ZeroWeightSum) else Ok(Divide(raw, Sum(raw)))
  }

  /** The weights fail only on an empty table (no configured weights) or a zero total over
      the table's columns (configured weights); otherwise they sum to one, equal weights are
      `1 / n` each and a configured weight is its share of the total, 0 for an unweighted column. */
  lemma RegimeWeightsNormalized(columns: seq<string>, weights: Option<map<string, real>>)
    ensures RegimeWeights(columns, weights).Err? <==>
              (weights.None? && |columns| == 0) || (weights.Some? && Sum(Reindex(columns, weights.value)) == 0.0)
    ensures RegimeWeights(columns, weights).Ok? ==> Sum(RegimeWeights(columns, weights).value) == 1.0
    ensures RegimeWeights(columns, weights).Ok? && weights.None? ==>
              forall j :: 0 <= j < |columns| ==> RegimeWeights(columns, weights).value[j] * |columns| as real == 1.0
    ensures RegimeWeights(columns, weights).Ok? && weights.Some? ==>
              forall j :: 0 <= j < |columns| ==>
                RegimeWeights(columns, weights).value[j] * Sum(Reindex(columns, weights.value)) ==
                  (if columns[j] in weights.value then weights.value[columns[j]] else 0.0)
  {
    match weights
    case None =>
      if |columns| > 0 {
        var n := |columns| as real;
        SumConst(|columns|, 1.0 / n);
        assert n * (1.0 / n) == 1.0;
      }
    case Some(wm) =>
      var raw := Reindex(columns, wm);
      if Sum(raw) != 0.0 {
        NormalizedSumsToOne(raw);
      }
  }

  /** Line 59 on the date-sorted table: the portfolio return of each date is
      `sum_j w_j * r_j`, a missing return counting as nothing. */
  function PortReturns(rets: Table, w: seq<real>): (p: seq<Point>)
    requires |w| == |rets.columns|
    ensures |p| == |rets.rows|
    ensures forall i :: 0 <= i < |p| ==> p[i].value.Val?
  {
    var rows := SortByDate(rets.rows, RowDate);
    assert |rows| == |multiset(rows)| == |multiset(rets.rows)| == |rets.rows|;
    seq(|rows|, i requires 0 <= i < |rows| => Point(rows[i].date, Val(WeightedSum(rows[i], rets.columns, w))))
  }

  /** Line 59 row by row: the portfolio series follows the date-sorted returns table, and
      on a week with every return present its value is the dot product of the weights and
      the returns. */
  lemma PortReturnsValues(rets: Table, w: seq<real>)
    requires |w| == |rets.columns|
    ensures var rows := SortByDate(rets.rows, RowDate);
            var p := PortReturns(rets, w);
            |p| == |rows| &&
            forall i :: 0 <= i < |p| ==>
              p[i].date == rows[i].date &&
              (Complete(rows[i], rets.columns) ==> p[i].value == Val(Dot(w, Values(rows[i], rets.columns))))
  {
    var rows := SortByDate(rets.rows, RowDate);
    var p := PortReturns(rets, w);
    assert |rows| == |multiset(rows)| == |multiset(rets.rows)| == |rets.rows|;
    forall i | 0 <= i < |p| && Complete(rows[i], rets.columns)
      ensures p[i].value == Val(Dot(w, Values(rows[i], rets.columns)))
    {
      WeightedSumComplete(rows[i], rets.columns, w);
    }
  }

  /** The portfolio series has no gap, so cleaning it only sorts it: every date reaches
      the regime computation. */
  lemma PortReturnsAllKept(rets: Table, w: seq<real>)
    requires |w| == |rets.columns|
    ensures |CleanReturns(PortReturns(rets, w))| == |rets.rows|
  {
    var p := PortReturns(rets, w);
    FilterKeepsAll(p, (x: Point) => x.value.Val?);
    var c := CleanReturns(p);
    var t := ToRets(p);
    assert c == SortByDate(t, RetDate);
    assert |c| == |multiset(c)| == |multiset(t)| == |t|;
  }

  // ---- summary ----

  predicate IsRegime(x: RegimeRow, g: Regime) { x.regime == g }

  function RegimeTest(g: Regime): RegimeRow -> bool { x => IsRegime(x, g) }

  /** The rows labelled `g`, in table order. */
  function RowsOf(rows: seq<RegimeRow>, g: Regime): (sel: seq<RegimeRow>)
    ensures forall i :: 0 <= i < |sel| ==> sel[i].regime == g
  {
    Filter(rows, RegimeTest(g))
  }

  /** `regimes.loc[regimes["regime"] == g, "ret"]`. */
  function RegimeReturns(rows: seq<RegimeRow>, g: Regime): (rs: seq<real>)
    ensures |rs| == |RowsOf(rows, g)|
    ensures forall i :: 0 <= i < |rs| ==> rs[i] == RowsOf(rows, g)[i].ret
  {
    var sel := RowsOf(rows, g);
    seq(|sel|, i requires 0 <= i < |sel| => sel[i].ret)
  }

  /** Calm and stress rows partition the regime table: no row is in both, and together
      they hold every row exactly once. */
  lemma RegimesPartition(rows: seq<RegimeRow>)
    ensures forall i, j :: 0 <= i < |RowsOf(rows, Calm)| && 0 <= j < |RowsOf(rows, Stress)| ==>
              RowsOf(rows, Calm)[i] != RowsOf(rows, Stress)[j]
    ensures |RowsOf(rows, Calm)| + |RowsOf(rows, Stress)| == |rows|
    ensures multiset(RowsOf(rows, Calm)) + multiset(RowsOf(rows, Stress)) == multiset(rows)
  {
    FilterSplit(rows, RegimeTest(Calm), RegimeTest(Stress));
  }

  /** A count out of a positive total is a fraction in `[0, 1]` that scales back to the count. */
  lemma FractionBounds(k: real, n: real)
    requires 0.0 <= k <= n && n > 0.0
    ensures 0.0 <= k / n <= 1.0 && k / n * n == k
  {
    var q := k / n;
    assert q * n == k;
    if q > 1.0 {
      assert false;
    }
    if q < 0.0 {
      assert false;
    }
  }

  /** Line 106: the mean of the `regime == "stress"` flags; NaN on an empty table. */
  function StressFraction(rows: seq<RegimeRow>): (f: Num)
    ensures rows == [] <==> f == NaN
    ensures rows != [] ==>
              f.Finite? && 0.0 <= f.r <= 1.0 && f.r * |rows| as real == |RowsOf(rows, Stress)| as real
  {
    if rows == [] then NaN
    else
      var n := |rows| as real;
      var k := |RowsOf(rows, Stress)| as real;
      FractionBounds(k, n);
      Finite(k / n)
  }

  /** What the summary records for the regime table: its rows, the maximum drawdown of
      each regime's returns and the stress fraction. */
  datatype Summary = Summary(regimes: seq<RegimeRow>, drawdowns: map<Regime, Num>, stressFraction: Num)

  function DrawdownsOf(rows: seq<RegimeRow>): (dd: map<Regime, Num>)
    ensures dd.Keys == {Calm, Stress}
  {
    map g: Regime | g in {Calm, Stress} :: MaxDrawdown(RegimeReturns(rows, g))
  }

  /** `regimes_and_summary` without the file I/O and the per-regime group means. */
  function SummaryOf(rets: Table, weights: Option<map<string, real>>, V: int, L: int, pct: real,
                     std: seq<real> -> real, quantile: (seq<real>, real) -> real): Result<Summary, Error>
  {
    var w :- RegimeWeights(rets.columns, weights);
    var rows :- ComputeRegimes(PortReturns(rets, w), V, L, pct, std, quantile);
    Ok(Summary(rows, DrawdownsOf(rows), StressFraction(rows)))
  }

  /** Lines 91-94: the loop over the two labels filling the `drawdowns` dictionary. */
  method RegimeDrawdowns(rows: seq<RegimeRow>) returns (dd: map<Regime, Num>)
    ensures dd == DrawdownsOf(rows)
  {
    var labels := [Calm, Stress];
    dd := map[];
    for k := 0 to |labels|
      invariant dd.Keys == set i | 0 <= i < k :: labels[i]
      invariant forall g :: g in dd ==> dd[g] == MaxDrawdown(RegimeReturns(rows, g))
    {
      dd := dd[labels[k] := MaxDrawdown(RegimeReturns(rows, labels[k]))];
    }
    assert labels[0] in dd && labels[1] in dd;
  }

  method RegimesAndSummary(rets: Table, weights: Option<map<string, real>>, V: int, L: int, pct: real,
                           std: seq<real> -> real, quantile: (seq<real>, real) -> real)
    returns (r: Result<Summary, Error>)
    ensures r == SummaryOf(rets, weights, V, L, pct, std, quantile)
  {
    var w := RegimeWeights(rets.columns, weights);
    if w.Err? {
      return Err(w.error);
    }
    var rows := ComputeRegimes(PortReturns(rets, w.value), V, L, pct, std, quantile);
    if rows.Err? {
      return Err(rows.error);
    }
    var dd := RegimeDrawdowns(rows.value);
    r := Ok(Summary(rows.value, dd, StressFraction(rows.value)));
  }

  /** A regime with no row has a NaN drawdown; when every return in the table is above
      -100%, a regime with rows has a drawdown in `(-1, 0]`. */
  lemma RegimeDrawdownBounds(rows: seq<RegimeRow>, g: Regime)
    requires forall i :: 0 <= i < |rows| ==> rows[i].ret > -1.0
    ensures RowsOf(rows, g) == [] ==> DrawdownsOf(rows)[g] == NaN
    ensures RowsOf(rows, g) != [] ==>
              DrawdownsOf(rows)[g].Finite? && -1.0 < DrawdownsOf(rows)[g].r <= 0.0
  {
    var rs := RegimeReturns(rows, g);
    if |rs| == 0 {
      assert rs == [];
      MaxDrawdownEmpty();
    } else {
      var sel := RowsOf(rows, g);
      forall i | 0 <= i < |rs| ensures rs[i] > -1.0 {
        assert sel[i] in rows;
      }
      MaxDrawdownBounds(rs);
    }
  }

  // ---- the per-regime mean of the attribution ----

  /** The columns `compute_attribution` writes for regressors `xCols`: `y`, `alpha_contrib`,
      one `contrib_<x>` per regressor, `explained` and `residual`. */
  function AttributionColumns(xCols: seq<string>): (cols: seq<string>)
    ensures "explained" in cols && "explained_share" !in cols
    ensures |cols| == |xCols| + 4
  {
    var contribs := seq(|xCols|, i requires 0 <= i < |xCols| => "contrib_" + xCols[i]);
    assert forall i :: 0 <= i < |contribs| ==> contribs[i][0] == 'c';
    ["y", "alpha_contrib"] + contribs + ["explained", "residual"]
  }

  /** `df[wanted]`: pandas raises `KeyError` naming the wanted columns the table lacks. */
  function SelectColumns(columns: seq<string>, wanted: seq<string>): (r: Result<seq<string>, Error>)
    ensures r.Ok? <==> forall k :: 0 <= k < |wanted| ==> wanted[k] in columns
    ensures r.Ok? ==> r.value == wanted
    ensures r.Err? ==> r.error == KeyError(MissingColumns(wanted, columns)) && r.error.labels != []
  {
    var missing := MissingColumns(wanted, columns);
    assert missing != [] ==> missing[0] in wanted && missing[0] !in columns;
    if missing != [] then Err(KeyError(missing)) else Ok(wanted)
  }

  /** Line 86 as written: the columns averaged per regime, selected from the attribution
      table joined with the regime table's `regime` and `vol`. */
  function ExplainedMeansAsWritten(attribColumns: seq<string>): Result<seq<string>, Error>
  {
    SelectColumns(attribColumns + ["regime", "vol"], ["explained_share", "vol"])
  }

  /** On any table `compute_attribution` writes, the selection of line 86 fails with a
      `KeyError` for `explained_share`. */
  lemma ExplainedShareMissing(xCols: seq<string>)
    ensures ExplainedMeansAsWritten(AttributionColumns(xCols)) == Err(KeyError(["explained_share"]))
  {
    var cols := AttributionColumns(xCols) + ["regime", "vol"];
    assert "vol" in cols && "explained_share" !in cols;
    assert MissingColumns(["explained_share", "vol"], cols) == ["explained_share"];
  }

  /** Line 86 selecting the explained return the attribution table does have. */
  function ExplainedMeans(attribColumns: seq<string>): Result<seq<string>, Error>
  {
    SelectColumns(attribColumns + ["regime", "vol"], ["explained", "vol"])
  }

  /** On every table `compute_attribution` writes, the corrected selection succeeds. */
  lemma ExplainedMeansSelect(xCols: seq<string>)
    ensures ExplainedMeans(AttributionColumns(xCols)) == Ok(["explained", "vol"])
  {
    var cols := AttributionColumns(xCols) + ["regime", "vol"];
    assert "explained" in cols && "vol" in cols;
  }
}
