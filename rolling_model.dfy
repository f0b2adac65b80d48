/** Rolling exposure engine (`run_rolling_ols`): slides a window of `window` rows over the
    cleaned, date-sorted frame and fits every full window with an ordinary least squares
    solve, which the model leaves abstract as the parameter `fit`. */
module RollingModel {
  import opened Wrappers
  import opened Seqs
  import opened Frames

  /** One complete observation: the target and the regressors, in `x_cols` order. */
  datatype Obs = Obs(y: real, x: seq<real>)

  /** What the fit reports: `params` (intercept first, then one coefficient per
      regressor, in design-column order), `rsquared` and `nobs`. */
  datatype FitResult = FitResult(params: seq<real>, r2: real, nobs: int)

  /** One exposure record, keyed by its window-end date; `betas[c]` is column `beta_<c>`. */
  datatype Exposure = Exposure(date: Date, alpha: real, r2: real, nobs: int, betas: map<string, real>)

  datatype Error = KeyError(labels: seq<string>)

  function ExposureDate(e: Exposure): Date { e.date }

  /** The design matrix gets exactly one added constant column, so the fit returns one
      parameter per regressor plus the intercept. */
  ghost predicate FitShape(fit: seq<Obs> -> FitResult, k: nat)
  {
    forall w :: |fit(w).params| == k + 1
  }

  /** `frame[[y_col] + x_cols].dropna().sort_index()`. */
  function Prepare(frame: Table, yCol: string, xCols: seq<string>): seq<Row>
  {
    SortByDate(DropNa(frame.rows, [yCol] + xCols), RowDate)
  }

  predicate AllComplete(df: seq<Row>, cols: seq<string>)
  {
    forall i :: 0 <= i < |df| ==> Complete(df[i], cols)
  }

  function ObsOf(row: Row, yCol: string, xCols: seq<string>): Obs
    requires Complete(row, [yCol] + xCols)
  {
    assert ([yCol] + xCols)[0] == yCol;
    assert forall j :: 0 <= j < |xCols| ==> ([yCol] + xCols)[j + 1] == xCols[j];
    Obs(Get(row, yCol).v, seq(|xCols|, j requires 0 <= j < |xCols| => Get(row, xCols[j]).v))
  }

  /** Number of rows in a window: the length of the slice `y[start_i : end_i + 1]`. */
  function WindowLength(window: int): nat
  {
    if window >= 1 then window else 0
  }

  /** The observations of a run of complete rows, row by row. */
  function Observations(rows: seq<Row>, yCol: string, xCols: seq<string>): (w: seq<Obs>)
    requires AllComplete(rows, [yCol] + xCols)
    ensures |w| == |rows|
  {
    seq(|rows|, i requires 0 <= i < |rows| => ObsOf(rows[i], yCol, xCols))
  }

  /** The window ending at row `end`: the slice `[start_i, end_i + 1)`, which is empty
      when `window < 1`. */
  function WindowObs(df: seq<Row>, end: nat, window: int, yCol: string, xCols: seq<string>): (w: seq<Obs>)
    requires AllComplete(df, [yCol] + xCols)
    requires end < |df| && end - window + 1 >= 0
    ensures |w| == WindowLength(window)
  {
    var lo := if window >= 1 then end - window + 1 else end + 1;
    Observations(df[lo .. end + 1], yCol, xCols)
  }

  /** The `beta_<c>` entries that `for j, c in enumerate(x_cols, start=1)` has set after
      its first `n` iterations. */
  function BetaMap(xCols: seq<string>, params: seq<real>, n: nat): map<string, real>
    requires n <= |xCols| && |params| == |xCols| + 1
  {
    if n == 0 then map[] else BetaMap(xCols, params, n - 1)[xCols[n - 1] := params[n]]
  }

  function MakeRecord(date: Date, f: FitResult, xCols: seq<string>): Exposure
    requires |f.params| == |xCols| + 1
  {
    Exposure(date, f.params[0], f.r2, f.nobs, BetaMap(xCols, f.params, |xCols|))
  }

  /** End row `end` yields a record: its window starts at or after row 0 and holds at
      least `min_nobs` rows. */
  predicate Eligible(end: int, window: int, minNobs: int)
  {
    end - window + 1 >= 0 && WindowLength(window) >= minNobs
  }

  /** The eligible end rows among `0 .. m - 1`, in increasing order. */
  function EligibleEnds(m: nat, window: int, minNobs: int): (r: seq<nat>)
    ensures forall k :: 0 <= k < |r| ==> r[k] < m && Eligible(r[k], window, minNobs)
    ensures forall k, l :: 0 <= k < l < |r| ==> r[k] < r[l]
  {
    if m == 0 then []
    else EligibleEnds(m - 1, window, minNobs) + (if Eligible(m - 1, window, minNobs) then [m - 1] else [])
  }

  function RecordAt(df: seq<Row>, end: nat, window: int, yCol: string, xCols: seq<string>,
                    fit: seq<Obs> -> FitResult): Exposure
    requires AllComplete(df, [yCol] + xCols) && FitShape(fit, |xCols|)
    requires end < |df| && end - window + 1 >= 0
  {
    MakeRecord(df[end].date, fit(WindowObs(df, end, window, yCol, xCols)), xCols)
  }

  function RecordsFor(df: seq<Row>, ends: seq<nat>, window: int, minNobs: int, yCol: string,
                      xCols: seq<string>, fit: seq<Obs> -> FitResult): seq<Exposure>
    requires AllComplete(df, [yCol] + xCols) && FitShape(fit, |xCols|)
    requires forall k :: 0 <= k < |ends| ==> ends[k] < |df| && Eligible(ends[k], window, minNobs)
  {
    seq(|ends|, k requires 0 <= k < |ends| && ends[k] < |df| && Eligible(ends[k], window, minNobs) =>
                  RecordAt(df, ends[k], window, yCol, xCols, fit))
  }

  lemma PreparedComplete(frame: Table, yCol: string, xCols: seq<string>)
    ensures AllComplete(Prepare(frame, yCol, xCols), [yCol] + xCols)
  {
    var cols := [yCol] + xCols;
    var d := DropNa(frame.rows, cols);
    var df := Prepare(frame, yCol, xCols);
    forall i | 0 <= i < |df| ensures Complete(df[i], cols) {
      assert df[i] in multiset(d);
      var k :| 0 <= k < |d| && d[k] == df[i];
    }
  }

  /** Appending one eligible end row appends its record. */
  lemma RecordsForSnoc(df: seq<Row>, ends: seq<nat>, e: nat, window: int, minNobs: int, yCol: string,
                       xCols: seq<string>, fit: seq<Obs> -> FitResult)
    requires AllComplete(df, [yCol] + xCols) && FitShape(fit, |xCols|)
    requires forall k :: 0 <= k < |ends| ==> ends[k] < |df| && Eligible(ends[k], window, minNobs)
    requires e < |df| && Eligible(e, window, minNobs)
    ensures RecordsFor(df, ends + [e], window, minNobs, yCol, xCols, fit) ==
            RecordsFor(df, ends, window, minNobs, yCol, xCols, fit) + [RecordAt(df, e, window, yCol, xCols, fit)]
  {
  }

  /** The first end row whose window starts inside the frame. */
  function FirstEnd(window: int): nat
  {
    if window >= 1 then window - 1 else 0
  }

  /** How many end rows among `0 .. m - 1` yield a record. */
  function RecordCount(m: nat, window: int, minNobs: int): nat
  {
    if WindowLength(window) >= minNobs && m > FirstEnd(window) then m - FirstEnd(window) else 0
  }

  /** The eligible end rows are exactly the consecutive rows `FirstEnd(window), ..., m - 1`,
      and none at all when a window is shorter than `min_nobs`. */
  lemma {:induction false} EligibleEndsExact(m: nat, window: int, minNobs: int)
    ensures |EligibleEnds(m, window, minNobs)| == RecordCount(m, window, minNobs)
    ensures forall k :: 0 <= k < RecordCount(m, window, minNobs) ==>
              EligibleEnds(m, window, minNobs)[k] == FirstEnd(window) + k
  {
    if m > 0 {
      EligibleEndsExact(m - 1, window, minNobs);
      assert Eligible(m - 1, window, minNobs) <==>
             m - 1 >= FirstEnd(window) && WindowLength(window) >= minNobs;
    }
  }

  lemma PreparedRows(frame: Table, yCol: string, xCols: seq<string>)
    ensures forall r :: r in Prepare(frame, yCol, xCols) <==> r in frame.rows && Complete(r, [yCol] + xCols)
  {
    var cols := [yCol] + xCols;
    var d := DropNa(frame.rows, cols);
    var df := Prepare(frame, yCol, xCols);
    forall r ensures r in df <==> r in frame.rows && Complete(r, cols) {
      assert r in df <==> r in multiset(df);
      assert r in d <==> r in multiset(d);
      if r in d {
        var k :| 0 <= k < |d| && d[k] == r;
      }
      if r in frame.rows && Complete(r, cols) {
        var k :| 0 <= k < |frame.rows| && frame.rows[k] == r;
      }
    }
  }

  /** `run_rolling_ols` as a value: the selection error, or one record per eligible end row. */
  function RollingOls(frame: Table, yCol: string, xCols: seq<string>, window: int, minNobs: int,
                      fit: seq<Obs> -> FitResult): Result<seq<Exposure>, Error>
    requires FitShape(fit, |xCols|)
  {
    var missing := MissingColumns([yCol] + xCols, frame.columns);
    if missing != [] then Err(KeyError(missing))
    else
      var df := Prepare(frame, yCol, xCols);
      PreparedComplete(frame, yCol, xCols);
      Ok(RecordsFor(df, EligibleEnds(|df|, window, minNobs), window, minNobs, yCol, xCols, fit))
  }

  /** The inner `for j, c in enumerate(x_cols, start=1)` loop: `beta_<c>` gets parameter `j`. */
  method FillBetas(xCols: seq<string>, params: seq<real>) returns (betas: map<string, real>)
    requires |params| == |xCols| + 1
    ensures betas == BetaMap(xCols, params, |xCols|)
  {
    betas := map[];
    for j := 1 to |xCols| + 1
      invariant betas == BetaMap(xCols, params, j - 1)
    {
      betas := betas[xCols[j - 1] := params[j]];
    }
  }

  /** With `1 <= min_nobs <= window` (the pipeline's configuration) and every column
      present, exactly `max(0, N - W + 1)` records come out of an `N`-row cleaned frame. */
  lemma RollingRecordCount(frame: Table, yCol: string, xCols: seq<string>, window: int, minNobs: int,
                           fit: seq<Obs> -> FitResult)
    requires FitShape(fit, |xCols|)
    requires 1 <= window && minNobs <= window
    requires MissingColumns([yCol] + xCols, frame.columns) == []
    ensures var r := RollingOls(frame, yCol, xCols, window, minNobs, fit);
            var n := |Prepare(frame, yCol, xCols)|;
            r.Ok? && |r.value| == (if n >= window then n - window + 1 else 0)
  {
    EligibleEndsExact(|Prepare(frame, yCol, xCols)|, window, minNobs);
  }

  /** When `min_nobs` exceeds the window length no window is ever long enough. */
  lemma RollingNoRecords(frame: Table, yCol: string, xCols: seq<string>, window: int, minNobs: int,
                         fit: seq<Obs> -> FitResult)
    requires FitShape(fit, |xCols|)
    requires minNobs > window && minNobs > 0
    ensures var r := RollingOls(frame, yCol, xCols, window, minNobs, fit);
            r.Ok? ==> r.value == []
  {
    EligibleEndsExact(|Prepare(frame, yCol, xCols)|, window, minNobs);
  }

  /** A frame with every column present yields the records of its cleaned frame. */
  lemma RollingOlsOk(frame: Table, yCol: string, xCols: seq<string>, window: int, minNobs: int,
                     fit: seq<Obs> -> FitResult)
    requires FitShape(fit, |xCols|)
    requires MissingColumns([yCol] + xCols, frame.columns) == []
    ensures AllComplete(Prepare(frame, yCol, xCols), [yCol] + xCols)
    ensures var df := Prepare(frame, yCol, xCols);
            RollingOls(frame, yCol, xCols, window, minNobs, fit) ==
              Ok(RecordsFor(df, EligibleEnds(|df|, window, minNobs), window, minNobs, yCol, xCols, fit))
  {
    PreparedComplete(frame, yCol, xCols);
  }

  /** The records start at row `W - 1` of the cleaned frame and end at its last row. */
  predicate SpansFrame(recs: seq<Exposure>, df: seq<Row>, window: int)
  {
    |recs| > 0 && 1 <= window <= |df| &&
    recs[0].date == df[window - 1].date && recs[|recs| - 1].date == df[|df| - 1].date
  }

  /** Over any cleaned frame of at least `W` rows, the first record is dated at row
      `W - 1` and the last at the final row. */
  lemma RecordsFirstLast(df: seq<Row>, window: int, minNobs: int, yCol: string, xCols: seq<string>,
                         fit: seq<Obs> -> FitResult)
    requires AllComplete(df, [yCol] + xCols) && FitShape(fit, |xCols|)
    requires 1 <= window && minNobs <= window && |df| >= window
    ensures SpansFrame(RecordsFor(df, EligibleEnds(|df|, window, minNobs), window, minNobs, yCol, xCols, fit), df, window)
  {
    var ends := EligibleEnds(|df|, window, minNobs);
    EligibleEndsExact(|df|, window, minNobs);
    var recs := RecordsFor(df, ends, window, minNobs, yCol, xCols, fit);
    assert ends[0] == window - 1 && ends[|ends| - 1] == |df| - 1;
    assert recs[0] == RecordAt(df, window - 1, window, yCol, xCols, fit);
    assert recs[|recs| - 1] == RecordAt(df, |df| - 1, window, yCol, xCols, fit);
  }

  /** The first record is dated at row `W - 1` of the cleaned frame and the last at its
      final row. */
  lemma RollingFirstLastDates(frame: Table, yCol: string, xCols: seq<string>, window: int, minNobs: int,
                              fit: seq<Obs> -> FitResult)
    requires FitShape(fit, |xCols|)
    requires 1 <= window && minNobs <= window
    requires MissingColumns([yCol] + xCols, frame.columns) == []
    requires |Prepare(frame, yCol, xCols)| >= window
    ensures RollingOls(frame, yCol, xCols, window, minNobs, fit).Ok?
    ensures SpansFrame(RollingOls(frame, yCol, xCols, window, minNobs, fit).value, Prepare(frame, yCol, xCols), window)
  {
    var df := Prepare(frame, yCol, xCols);
    RollingOlsOk(frame, yCol, xCols, window, minNobs, fit);
    RecordsFirstLast(df, window, minNobs, yCol, xCols, fit);
  }

  /** `rec` is the record of end row `i`: the fit of exactly the complete rows
      `[i - W + 1, i]`, dated at row `i`. */
  ghost predicate FitOfWindow(df: seq<Row>, i: int, window: int, rec: Exposure, yCol: string,
                              xCols: seq<string>, fit: seq<Obs> -> FitResult)
  {
    FitShape(fit, |xCols|) && 1 <= window && 0 <= i - window + 1 && i < |df| &&
    AllComplete(df[i - window + 1 .. i + 1], [yCol] + xCols) &&
    rec == MakeRecord(df[i].date, fit(Observations(df[i - window + 1 .. i + 1], yCol, xCols)), xCols)
  }

  /** The record of end row `i` is the fit of the window ending there. */
  lemma RecordAtWindow(df: seq<Row>, i: nat, window: int, yCol: string, xCols: seq<string>,
                       fit: seq<Obs> -> FitResult)
    requires AllComplete(df, [yCol] + xCols) && FitShape(fit, |xCols|)
    requires 1 <= window && window - 1 <= i < |df|
    ensures FitOfWindow(df, i, window, RecordAt(df, i, window, yCol, xCols, fit), yCol, xCols, fit)
  {
    var w := df[i - window + 1 .. i + 1];
    assert AllComplete(w, [yCol] + xCols) by {
      forall t | 0 <= t < |w| ensures Complete(w[t], [yCol] + xCols) {
        assert w[t] == df[i - window + 1 + t];
      }
    }
  }

  /** Over any cleaned frame, record `k` is the fit of the window ending at row `W - 1 + k`. */
  lemma RecordsWindows(df: seq<Row>, window: int, minNobs: int, yCol: string, xCols: seq<string>,
                       fit: seq<Obs> -> FitResult)
    requires AllComplete(df, [yCol] + xCols) && FitShape(fit, |xCols|)
    requires 1 <= window
    ensures var recs := RecordsFor(df, EligibleEnds(|df|, window, minNobs), window, minNobs, yCol, xCols, fit);
            forall k :: 0 <= k < |recs| ==> FitOfWindow(df, window - 1 + k, window, recs[k], yCol, xCols, fit)
  {
    var ends := EligibleEnds(|df|, window, minNobs);
    EligibleEndsExact(|df|, window, minNobs);
    var recs := RecordsFor(df, ends, window, minNobs, yCol, xCols, fit);
    forall k | 0 <= k < |recs| ensures FitOfWindow(df, window - 1 + k, window, recs[k], yCol, xCols, fit) {
      assert ends[k] == window - 1 + k;
      assert recs[k] == RecordAt(df, window - 1 + k, window, yCol, xCols, fit);
      RecordAtWindow(df, window - 1 + k, window, yCol, xCols, fit);
    }
  }

  /** Record `k` is the fit of exactly the rows `[i - W + 1, i]` of the cleaned frame, where
      `i = W - 1 + k` is its end row, and carries the date of row `i`. */
  lemma RollingRecordWindows(frame: Table, yCol: string, xCols: seq<string>, window: int, minNobs: int,
                             fit: seq<Obs> -> FitResult)
    requires FitShape(fit, |xCols|)
    requires 1 <= window
    requires MissingColumns([yCol] + xCols, frame.columns) == []
    ensures var r := RollingOls(frame, yCol, xCols, window, minNobs, fit);
            var df := Prepare(frame, yCol, xCols);
            AllComplete(df, [yCol] + xCols) && r.Ok? &&
            forall k :: 0 <= k < |r.value| ==> FitOfWindow(df, window - 1 + k, window, r.value[k], yCol, xCols, fit)
  {
    var df := Prepare(frame, yCol, xCols);
    RollingOlsOk(frame, yCol, xCols, window, minNobs, fit);
    RecordsWindows(df, window, minNobs, yCol, xCols, fit);
  }

  /** No look-ahead: the record for end row `i` reads no row after `i`, so two frames that
      agree on rows `0 .. i` give the same record there. */
  lemma RecordNoLookAhead(df1: seq<Row>, df2: seq<Row>, end: nat, window: int, yCol: string,
                          xCols: seq<string>, fit: seq<Obs> -> FitResult)
    requires AllComplete(df1, [yCol] + xCols) && AllComplete(df2, [yCol] + xCols) && FitShape(fit, |xCols|)
    requires end < |df1| && end < |df2| && end - window + 1 >= 0
    requires df1[..end + 1] == df2[..end + 1]
    ensures RecordAt(df1, end, window, yCol, xCols, fit) == RecordAt(df2, end, window, yCol, xCols, fit)
  {
    var lo := if window >= 1 then end - window + 1 else end + 1;
    assert df1[lo .. end + 1] == df1[..end + 1][lo..] == df2[..end + 1][lo..] == df2[lo .. end + 1];
    assert df1[end] == df1[..end + 1][end] == df2[end];
  }

  /** Over a frame whose dates are unique, record dates are strictly increasing. */
  lemma RollingDatesIncreasing(frame: Table, yCol: string, xCols: seq<string>, window: int, minNobs: int,
                               fit: seq<Obs> -> FitResult)
    requires FitShape(fit, |xCols|)
    requires DatesUnique(frame.rows, RowDate)
    ensures var r := RollingOls(frame, yCol, xCols, window, minNobs, fit);
            r.Ok? ==> DatesIncreasing(r.value, ExposureDate)
  {
    var cols := [yCol] + xCols;
    var d := DropNa(frame.rows, cols);
    FilterDatesUnique(frame.rows, (r: Row) => Complete(r, cols), RowDate);
    SortByDateIncreasing(d, RowDate);
  }

  /** `alpha` is parameter 0 and, for distinct regressor names, `beta_<c>` is parameter `j`
      where `c` is the `j`-th regressor (counting from 1); no other beta is set. */
  lemma {:induction false} BetaMapLookup(xCols: seq<string>, params: seq<real>, n: nat)
    requires n <= |xCols| && |params| == |xCols| + 1 && Distinct(xCols)
    ensures BetaMap(xCols, params, n).Keys == ToSet(xCols[..n])
    ensures forall j :: 1 <= j <= n ==> BetaMap(xCols, params, n)[xCols[j - 1]] == params[j]
  {
    if n > 0 {
      BetaMapLookup(xCols, params, n - 1);
      assert xCols[..n] == xCols[..n - 1] + [xCols[n - 1]];
      assert ToSet(xCols[..n]) == ToSet(xCols[..n - 1]) + {xCols[n - 1]};
    }
  }

  /** `run_rolling_from_parquet`: the target is column `Y` and every other column is a
      regressor, so the only possible selection error is a missing `Y`. */
  function RegressorColumns(columns: seq<string>): (x: seq<string>)
  {
    Filter(columns, (c: string) => c != "Y")
  }

  function RollingFromFrame(frame: Table, window: int, minNobs: int, fit: seq<Obs> -> FitResult)
    : (r: Result<seq<Exposure>, Error>)
    requires FitShape(fit, |RegressorColumns(frame.columns)|)
    ensures r.Err? <==> "Y" !in frame.columns
    ensures r.Err? ==> r.error == KeyError(["Y"])
  {
    var xCols := RegressorColumns(frame.columns);
    assert MissingColumns(["Y"] + xCols, frame.columns) == MissingColumns(["Y"], frame.columns) + MissingColumns(xCols, frame.columns) by {
      FilterConcat(["Y"], xCols, (c: string) => c !in frame.columns);
    }
    assert MissingColumns(xCols, frame.columns) == [] by {
      forall c | c in xCols ensures c in frame.columns {
        var i :| 0 <= i < |xCols| && xCols[i] == c;
      }
      FilterDropsAll(xCols, (c: string) => c !in frame.columns);
    }
    RollingOls(frame, "Y", xCols, window, minNobs, fit)
  }

  /** The loop of `run_rolling_ols` over the prepared frame `df`. */
  method RollOverPrepared(df: seq<Row>, yCol: string, xCols: seq<string>, window: int, minNobs: int,
                          fit: seq<Obs> -> FitResult)
    returns (outRows: seq<Exposure>)
    requires AllComplete(df, [yCol] + xCols) && FitShape(fit, |xCols|)
    ensures outRows == RecordsFor(df, EligibleEnds(|df|, window, minNobs), window, minNobs, yCol, xCols, fit)
  {
    outRows := [];
    var endI := 0;
    while endI < |df|
      invariant 0 <= endI <= |df|
      invariant outRows == RecordsFor(df, EligibleEnds(endI, window, minNobs), window, minNobs, yCol, xCols, fit)
    {
      var startI := endI - window + 1;
      if startI < 0 {
        assert EligibleEnds(endI + 1, window, minNobs) == EligibleEnds(endI, window, minNobs);
        endI := endI + 1;
        continue;
      }
      var yw := WindowObs(df, endI, window, yCol, xCols);
      if |yw| < minNobs {
        assert EligibleEnds(endI + 1, window, minNobs) == EligibleEnds(endI, window, minNobs);
        endI := endI + 1;
        continue;
      }
      assert EligibleEnds(endI + 1, window, minNobs) == EligibleEnds(endI, window, minNobs) + [endI];
      var model := fit(yw);
      var betas := FillBetas(xCols, model.params);
      var row := Exposure(df[endI].date, model.params[0], model.r2, model.nobs, betas);
      assert row == RecordAt(df, endI, window, yCol, xCols, fit);
      RecordsForSnoc(df, EligibleEnds(endI, window, minNobs), endI, window, minNobs, yCol, xCols, fit);
      outRows := outRows + [row];
      endI := endI + 1;
    }
  }

  method RunRollingOls(frame: Table, yCol: string, xCols: seq<string>, window: int, minNobs: int,
                       fit: seq<Obs> -> FitResult)
    returns (r: Result<seq<Exposure>, Error>)
    requires FitShape(fit, |xCols|)
    ensures r == RollingOls(frame, yCol, xCols, window, minNobs, fit)
  {
    var missing := MissingColumns([yCol] + xCols, frame.columns);
    if missing != [] {
      return Err(KeyError(missing));
    }
    var df := Prepare(frame, yCol, xCols);
    PreparedComplete(frame, yCol, xCols);
    var outRows := RollOverPrepared(df, yCol, xCols, window, minNobs, fit);
    return Ok(outRows);
  }
}
