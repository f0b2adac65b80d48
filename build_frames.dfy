/** The regression frames of the analysis stage (`analysis/src/build_frames.py`): sleeve
    portfolios, the two equity frames `Y = PORT_RET - RF` against the Fama-French factors,
    and the macro frame of the total portfolio against five proxy ETFs. */
module BuildFrames {
  import opened Wrappers
  import opened Seqs
  import opened Frames

  datatype Error =
    | KeyError(labels: seq<string>)
    | ZeroWeightSum   // sleeve weights that sum to zero
    | MissingProxyReturns(proxies: seq<string>)   // the `ValueError` of line 64

  // ---- sleeve portfolios ----

  /** Lines 16-17: the configured weight of each sleeve ticker, renormalised over the
      sleeve; the first ticker without a configured weight raises `KeyError`. */
  function SleeveWeights(tickers: seq<string>, weights: map<string, real>): (r: Result<seq<real>, Error>)
    ensures r.Ok? ==> |r.value| == |tickers|
  {
    var unweighted := Filter(tickers, t => t !in weights);
    if unweighted != [] then Err(KeyError([unweighted[0]]))
    else
      var raw := Reindex(tickers, weights);
      if Sum(raw) == 0.0 then Err(ZeroWeightSum) else Ok(Divide(raw, Sum(raw)))
  }

  /** The sleeve weights fail on the first unweighted ticker, in sleeve order; otherwise
      they sum to one and each is the ticker's configured weight over the sleeve's total. */
  lemma SleeveWeightsNormalized(tickers: seq<string>, weights: map<string, real>)
    ensures (exists j :: 0 <= j < |tickers| && tickers[j] !in weights) ==>
              exists j :: 0 <= j < |tickers| && tickers[j] !in weights &&
                (forall k :: 0 <= k < j ==> tickers[k] in weights) &&
                SleeveWeights(tickers, weights) == Err(KeyError([tickers[j]]))
    ensures SleeveWeights(tickers, weights).Ok? ==>
              (forall j :: 0 <= j < |tickers| ==> tickers[j] in weights) &&
              Sum(SleeveWeights(tickers, weights).value) == 1.0 &&
              forall j :: 0 <= j < |tickers| ==>
                SleeveWeights(tickers, weights).value[j] * Sum(Reindex(tickers, weights)) == weights[tickers[j]]
  {
    FirstUnweighted(tickers, weights);
    if SleeveWeights(tickers, weights).Ok? {
      var raw := Reindex(tickers, weights);
      NormalizedSumsToOne(raw);
    }
  }

  /** The first ticker kept by the "unweighted" filter is the first unweighted ticker. */
  lemma {:induction false} FirstUnweighted(tickers: seq<string>, weights: map<string, real>)
    ensures Filter(tickers, t => t !in weights) != [] <==> exists j :: 0 <= j < |tickers| && tickers[j] !in weights
    ensures Filter(tickers, t => t !in weights) != [] ==>
              exists j :: 0 <= j < |tickers| && tickers[j] !in weights &&
                (forall k :: 0 <= k < j ==> tickers[k] in weights) &&
                Filter(tickers, t => t !in weights)[0] == tickers[j]
  {
    if tickers != [] {
      FirstUnweighted(tickers[1..], weights);
      if tickers[0] in weights && Filter(tickers, t => t !in weights) != [] {
        var j :| 0 <= j < |tickers[1..]| && tickers[1..][j] !in weights &&
                 (forall k :: 0 <= k < j ==> tickers[1..][k] in weights) &&
                 Filter(tickers[1..], t => t !in weights)[0] == tickers[1..][j];
        assert tickers[j + 1] !in weights;
        forall k | 0 <= k < j + 1 ensures tickers[k] in weights {
          if k > 0 { assert tickers[k] == tickers[1..][k - 1]; }
        }
      }
    }
  }

  /** `_make_equal_weight_portfolio`: the weeks with a return for every sleeve ticker,
      each valued at `sum_j w_j * r_j`. */
  function SleevePortfolio(rets: Table, tickers: seq<string>, weights: map<string, real>): (r: Result<seq<Point>, Error>)
    ensures r.Ok? ==> forall i :: 0 <= i < |r.value| ==> r.value[i].value.Val?
  {
    var w :- SleeveWeights(tickers, weights);
    var absent := MissingColumns(tickers, rets.columns);
    if absent != [] then Err(KeyError(absent))
    else
      var kept := DropNa(rets.rows, tickers);
      Ok(seq(|kept|, i requires 0 <= i < |kept| => Point(kept[i].date, Val(WeightedSum(kept[i], tickers, w)))))
  }

  /** A sleeve portfolio keeps exactly the weeks where no holding is missing, in row
      order, valued at the weighted sum of the holdings' returns. */
  lemma SleevePortfolioRows(rets: Table, tickers: seq<string>, weights: map<string, real>)
    requires SleevePortfolio(rets, tickers, weights).Ok?
    ensures var p := SleevePortfolio(rets, tickers, weights).value;
            var kept := DropNa(rets.rows, tickers);
            var w := SleeveWeights(tickers, weights).value;
            |p| == |kept| &&
            (forall row :: row in rets.rows ==> (row in kept <==> Complete(row, tickers))) &&
            forall i :: 0 <= i < |p| ==>
              p[i].date == kept[i].date && Complete(kept[i], tickers) &&
              p[i].value == Val(Dot(w, Values(kept[i], tickers)))
  {
    var kept := DropNa(rets.rows, tickers);
    var w := SleeveWeights(tickers, weights).value;
    forall i | 0 <= i < |kept| ensures Complete(kept[i], tickers) &&
                                       WeightedSum(kept[i], tickers, w) == Dot(w, Values(kept[i], tickers)) {
      WeightedSumComplete(kept[i], tickers, w);
    }
  }

  // ---- equity frames ----

  const FactorColumns: seq<string> := ["MKT_RF", "SMB", "HML"]

  /** A portfolio week survives `concat([port, ff], axis=1, join="inner").dropna()`: the
      factor table has a row with its date and that row has no NaN. */
  predicate InnerJoined(p: Point, ff: Table)
  {
    var f := FindByDate(ff.rows, p.date);
    p.value.Val? && f.Some? && Complete(f.value, ff.columns)
  }

  /** `Y = PORT_RET - RF` and the three factors copied from the factor row. */
  predicate EquityValues(row: Row, p: Point, f: Row)
  {
    p.value.Val? && Get(f, "RF").Val? &&
    Get(row, "Y") == Val(p.value.v - Get(f, "RF").v) &&
    forall c :: c in FactorColumns ==> Get(row, c) == Get(f, c)
  }

  /** Lines 51-52 on one joined week: `Y = PORT_RET - RF` and the three factors. */
  function EquityRow(p: Point, ff: Table): (row: Row)
    requires InnerJoined(p, ff) && "RF" in ff.columns
    ensures row.date == p.date
    ensures EquityValues(row, p, FindByDate(ff.rows, p.date).value)
  {
    var f := FindByDate(ff.rows, p.date).value;
    assert Get(f, "RF").Val? by {
      var k :| 0 <= k < |ff.columns| && ff.columns[k] == "RF";
    }
    Row(p.date, (map c | c in FactorColumns :: Get(f, c))["Y" := Val(p.value.v - Get(f, "RF").v)])
  }

  /** The portfolio weeks that survive the inner join, in portfolio order. */
  function JoinedWeeks(port: seq<Point>, ff: Table): (kept: seq<Point>)
    ensures forall k :: 0 <= k < |kept| ==> kept[k] in port && InnerJoined(kept[k], ff)
    ensures forall i :: 0 <= i < |port| && InnerJoined(port[i], ff) ==> port[i] in kept
  {
    Filter(port, p => InnerJoined(p, ff))
  }

  /** The rows of the equity frame: one per joined week, in portfolio order. */
  function EquityRows(port: seq<Point>, ff: Table): (rows: seq<Row>)
    requires "RF" in ff.columns
    ensures |rows| == |JoinedWeeks(port, ff)|
  {
    var kept := JoinedWeeks(port, ff);
    seq(|kept|, i requires 0 <= i < |kept| => EquityRow(kept[i], ff))
  }

  /** The equity frame `[Y, MKT_RF, SMB, HML]` of one sleeve against one factor table; the
      factor table must carry `RF` (line 51) and the three factors (line 52). */
  function EquityFrame(port: seq<Point>, ff: Table): (r: Result<Table, Error>)
    ensures r.Ok? ==> r.value.columns == ["Y"] + FactorColumns
  {
    if "RF" !in ff.columns then Err(KeyError(["RF"]))
    else
      var absent := MissingColumns(FactorColumns, ff.columns);
      if absent != [] then Err(KeyError(absent))
      else Ok(Table(["Y"] + FactorColumns, EquityRows(port, ff)))
  }

  /** The factor table has a row dated `d` with no missing value. */
  predicate FactorsAt(ff: Table, d: Date)
  {
    exists j :: 0 <= j < |ff.rows| && ff.rows[j].date == d && Complete(ff.rows[j], ff.columns)
  }

  predicate HasRowDated(rows: seq<Row>, d: Date)
  {
    exists k :: 0 <= k < |rows| && rows[k].date == d
  }

  /** `row` is the equity row of a portfolio week and of the factor row of the same date. */
  predicate FromWeek(row: Row, port: seq<Point>, ff: Table)
  {
    exists i, j :: 0 <= i < |port| && 0 <= j < |ff.rows| &&
      port[i].date == row.date && ff.rows[j].date == row.date && Complete(ff.rows[j], ff.columns) &&
      EquityValues(row, port[i], ff.rows[j])
  }

  lemma InnerJoinedIff(p: Point, ff: Table)
    requires p.value.Val? && DatesUnique(ff.rows, RowDate)
    ensures InnerJoined(p, ff) <==> FactorsAt(ff, p.date)
  {
    if FactorsAt(ff, p.date) {
      var j :| 0 <= j < |ff.rows| && ff.rows[j].date == p.date && Complete(ff.rows[j], ff.columns);
      assert FindByDate(ff.rows, p.date) == Some(ff.rows[j]);
    }
    if InnerJoined(p, ff) {
      var f := FindByDate(ff.rows, p.date).value;
      var j :| 0 <= j < |ff.rows| && ff.rows[j] == f;
    }
  }

  lemma EquityRowAt(port: seq<Point>, ff: Table, k: nat)
    requires "RF" in ff.columns && k < |EquityRows(port, ff)|
    ensures var kept := JoinedWeeks(port, ff);
            InnerJoined(kept[k], ff) && EquityRows(port, ff)[k] == EquityRow(kept[k], ff) &&
            FromWeek(EquityRows(port, ff)[k], port, ff)
  {
    var kept := JoinedWeeks(port, ff);
    var i :| 0 <= i < |port| && port[i] == kept[k];
    var f := FindByDate(ff.rows, kept[k].date).value;
    var j :| 0 <= j < |ff.rows| && ff.rows[j] == f;
  }

  /** With unique dates on both sides, the equity frame has a row for a portfolio week
      exactly when the factor table has that date with no missing value, and every row
      carries `Y = PORT_RET - RF` and the factors of its own week. */
  lemma EquityFrameRows(port: seq<Point>, ff: Table)
    requires forall i :: 0 <= i < |port| ==> port[i].value.Val?
    requires DatesUnique(port, PointDate) && DatesUnique(ff.rows, RowDate)
    requires "RF" in ff.columns && forall c :: c in FactorColumns ==> c in ff.columns
    ensures EquityFrame(port, ff) == Ok(Table(["Y"] + FactorColumns, EquityRows(port, ff)))
    ensures forall i :: 0 <= i < |port| ==> (HasRowDated(EquityRows(port, ff), port[i].date) <==> FactorsAt(ff, port[i].date))
    ensures forall k :: 0 <= k < |EquityRows(port, ff)| ==> FromWeek(EquityRows(port, ff)[k], port, ff)
  {
    assert MissingColumns(FactorColumns, ff.columns) == [] by {
      FilterDropsAll(FactorColumns, (c: string) => c !in ff.columns);
    }
    forall k | 0 <= k < |EquityRows(port, ff)| ensures FromWeek(EquityRows(port, ff)[k], port, ff) {
      EquityRowAt(port, ff, k);
    }
    forall i | 0 <= i < |port|
      ensures HasRowDated(EquityRows(port, ff), port[i].date) <==> FactorsAt(ff, port[i].date)
    {
      EquityRowDated(port, ff, i);
    }
  }

  /** Portfolio week `i` has an equity row exactly when the factor table has its date. */
  lemma EquityRowDated(port: seq<Point>, ff: Table, i: nat)
    requires i < |port| && port[i].value.Val?
    requires DatesUnique(port, PointDate) && DatesUnique(ff.rows, RowDate)
    requires "RF" in ff.columns
    ensures HasRowDated(EquityRows(port, ff), port[i].date) <==> FactorsAt(ff, port[i].date)
  {
    var kept := JoinedWeeks(port, ff);
    var rows := EquityRows(port, ff);
    InnerJoinedIff(port[i], ff);
    if InnerJoined(port[i], ff) {
      var k :| 0 <= k < |kept| && kept[k] == port[i];
      EquityRowAt(port, ff, k);
      assert rows[k].date == port[i].date;
    }
    if HasRowDated(rows, port[i].date) {
      var k :| 0 <= k < |rows| && rows[k].date == port[i].date;
      EquityRowAt(port, ff, k);
      var i' :| 0 <= i' < |port| && port[i'] == kept[k];
      assert PointDate(port[i']) == PointDate(port[i]);
    }
  }


  // ---- macro frame ----

  const Proxies: seq<string> := ["SPY", "TLT", "DBC", "GLD", "VNQ"]

  /** Lines 61-64: the macro proxies that are not return columns, in the fixed proxy order. */
  function MissingProxies(columns: seq<string>): (m: seq<string>)
    ensures forall p :: p in m <==> p in Proxies && p !in columns
  {
    Filter(Proxies, p => p !in columns)
  }

  /** `Y` is the total-portfolio return and each proxy's return is copied from the
      returns row of the same week, with none missing. */
  predicate MacroValues(row: Row, p: Point, r: Row)
  {
    Get(row, "Y") == p.value && p.value.Val? &&
    forall c :: c in Proxies ==> Get(row, c) == Get(r, c) && Get(r, c).Val?
  }

  predicate MacroJoined(p: Point, rets: Table)
  {
    var r := FindByDate(rets.rows, p.date);
    p.value.Val? && r.Some? && Complete(r.value, Proxies)
  }

  /** One macro-frame row: the total-portfolio return as `Y` (no risk-free rate
      subtracted) and the five proxy returns of the same week. */
  function MacroRow(p: Point, rets: Table): (row: Row)
    requires MacroJoined(p, rets)
    ensures row.date == p.date
    ensures MacroValues(row, p, FindByDate(rets.rows, p.date).value)
  {
    var r := FindByDate(rets.rows, p.date).value;
    assert forall c :: c in Proxies ==> Get(r, c).Val? by {
      forall c | c in Proxies ensures Get(r, c).Val? {
        var m :| 0 <= m < |Proxies| && Proxies[m] == c;
      }
    }
    Row(p.date, (map c | c in Proxies :: Get(r, c))["Y" := p.value])
  }

  /** Lines 67-70: `concat([port_total, rets[proxies]], join="inner").dropna()`, renamed. */
  function MacroFrame(portTotal: seq<Point>, rets: Table): (r: Table)
    ensures r.columns == ["Y"] + Proxies
    ensures |r.rows| == |MacroWeeks(portTotal, rets)|
  {
    var kept := MacroWeeks(portTotal, rets);
    Table(["Y"] + Proxies, seq(|kept|, i requires 0 <= i < |kept| => MacroRow(kept[i], rets)))
  }

  /** The total-portfolio weeks that survive the inner join with the proxy returns and
      `dropna`, in portfolio order. */
  function MacroWeeks(portTotal: seq<Point>, rets: Table): (kept: seq<Point>)
    ensures forall k :: 0 <= k < |kept| ==> kept[k] in portTotal && MacroJoined(kept[k], rets)
    ensures forall i :: 0 <= i < |portTotal| && MacroJoined(portTotal[i], rets) ==> portTotal[i] in kept
  {
    Filter(portTotal, p => MacroJoined(p, rets))
  }

  /** `row` is the macro row of a portfolio week and of the returns row of the same date. */
  predicate MacroFromWeek(row: Row, portTotal: seq<Point>, rets: Table)
  {
    exists i, j :: 0 <= i < |portTotal| && 0 <= j < |rets.rows| &&
      portTotal[i].date == row.date && rets.rows[j].date == row.date &&
      MacroValues(row, portTotal[i], rets.rows[j])
  }

  /** The returns table has a row dated `d` with every proxy present. */
  predicate ProxiesAt(rets: Table, d: Date)
  {
    exists j :: 0 <= j < |rets.rows| && rets.rows[j].date == d && Complete(rets.rows[j], Proxies)
  }

  /** On every macro-frame row `Y` is the total-portfolio return of that week and each
      regressor is the proxy's return of that week, with none missing; and with unique
      dates on both sides, a week with a total return has a row exactly when the returns
      table has all five proxies that week. */
  lemma MacroFrameRows(portTotal: seq<Point>, rets: Table)
    ensures forall k :: 0 <= k < |MacroFrame(portTotal, rets).rows| ==>
              MacroFromWeek(MacroFrame(portTotal, rets).rows[k], portTotal, rets)
    ensures DatesUnique(portTotal, PointDate) && DatesUnique(rets.rows, RowDate) ==>
              forall i :: 0 <= i < |portTotal| && portTotal[i].value.Val? ==>
                (HasRowDated(MacroFrame(portTotal, rets).rows, portTotal[i].date) <==> ProxiesAt(rets, portTotal[i].date))
  {
    var rows := MacroFrame(portTotal, rets).rows;
    forall k | 0 <= k < |rows| ensures MacroFromWeek(rows[k], portTotal, rets) {
      MacroRowAt(portTotal, rets, k);
    }
    if DatesUnique(portTotal, PointDate) && DatesUnique(rets.rows, RowDate) {
      forall i | 0 <= i < |portTotal| && portTotal[i].value.Val?
        ensures HasRowDated(rows, portTotal[i].date) <==> ProxiesAt(rets, portTotal[i].date)
      {
        MacroRowDated(portTotal, rets, i);
      }
    }
  }

  /** Row `k` of the macro frame is the macro row of the `k`-th joined week. */
  lemma MacroRowAt(portTotal: seq<Point>, rets: Table, k: nat)
    requires k < |MacroFrame(portTotal, rets).rows|
    ensures var kept := MacroWeeks(portTotal, rets);
            MacroJoined(kept[k], rets) && MacroFrame(portTotal, rets).rows[k] == MacroRow(kept[k], rets) &&
            MacroFromWeek(MacroFrame(portTotal, rets).rows[k], portTotal, rets)
  {
    var kept := MacroWeeks(portTotal, rets);
    var i :| 0 <= i < |portTotal| && portTotal[i] == kept[k];
    var r := FindByDate(rets.rows, kept[k].date).value;
    var j :| 0 <= j < |rets.rows| && rets.rows[j] == r;
  }

  /** With unique dates, a week with a total return joins exactly when its proxies are complete. */
  lemma MacroJoinedIff(p: Point, rets: Table)
    requires p.value.Val? && DatesUnique(rets.rows, RowDate)
    ensures MacroJoined(p, rets) <==> ProxiesAt(rets, p.date)
  {
    if ProxiesAt(rets, p.date) {
      var j :| 0 <= j < |rets.rows| && rets.rows[j].date == p.date && Complete(rets.rows[j], Proxies);
      assert FindByDate(rets.rows, p.date) == Some(rets.rows[j]);
    }
    if MacroJoined(p, rets) {
      var r := FindByDate(rets.rows, p.date).value;
      var j :| 0 <= j < |rets.rows| && rets.rows[j] == r;
    }
  }

  /** Week `i` has a macro row exactly when the returns table has its proxies. */
  lemma MacroRowDated(portTotal: seq<Point>, rets: Table, i: nat)
    requires i < |portTotal| && portTotal[i].value.Val?
    requires DatesUnique(portTotal, PointDate) && DatesUnique(rets.rows, RowDate)
    ensures HasRowDated(MacroFrame(portTotal, rets).rows, portTotal[i].date) <==> ProxiesAt(rets, portTotal[i].date)
  {
    var kept := MacroWeeks(portTotal, rets);
    var rows := MacroFrame(portTotal, rets).rows;
    MacroJoinedIff(portTotal[i], rets);
    if MacroJoined(portTotal[i], rets) {
      var k :| 0 <= k < |kept| && kept[k] == portTotal[i];
      MacroRowAt(portTotal, rets, k);
      assert rows[k].date == portTotal[i].date;
    }
    if HasRowDated(rows, portTotal[i].date) {
      var k :| 0 <= k < |rows| && rows[k].date == portTotal[i].date;
      MacroRowAt(portTotal, rets, k);
      var i' :| 0 <= i' < |portTotal| && portTotal[i'] == kept[k];
      assert PointDate(portTotal[i']) == PointDate(portTotal[i]);
    }
  }

  // ---- build_frames ----

  datatype BuiltFrames = BuiltFrames(equityUs: Table, equityIntl: Table, totalMacro: Table)

  /** `build_frames` without the parquet I/O, on date-sorted inputs: the three sleeve
      portfolios, the two equity frames, the proxy check, then the macro frame. */
  function BuildAll(rets: Table, ffUs: Table, ffDx: Table, weights: map<string, real>,
                    equityUs: seq<string>, equityIntl: seq<string>, totalUniverse: seq<string>): Result<BuiltFrames, Error>
  {
    var portTotal :- SleevePortfolio(rets, totalUniverse, weights);
    var portUs :- SleevePortfolio(rets, equityUs, weights);
    var portIntl :- SleevePortfolio(rets, equityIntl, weights);
    var us :- EquityFrame(portUs, ffUs);
    var dx :- EquityFrame(portIntl, ffDx);
    var missing := MissingProxies(rets.columns);
    if missing != [] then Err(MissingProxyReturns(missing))
    else Ok(BuiltFrames(us, dx, MacroFrame(portTotal, rets)))
  }

  /** Once the sleeves and equity frames are built, the only remaining failure is a
      missing proxy, reported with exactly the absent proxies in proxy order. */
  lemma BuildAllProxyCheck(rets: Table, ffUs: Table, ffDx: Table, weights: map<string, real>,
                           equityUs: seq<string>, equityIntl: seq<string>, totalUniverse: seq<string>)
    requires SleevePortfolio(rets, totalUniverse, weights).Ok?
    requires SleevePortfolio(rets, equityUs, weights).Ok? && SleevePortfolio(rets, equityIntl, weights).Ok?
    requires EquityFrame(SleevePortfolio(rets, equityUs, weights).value, ffUs).Ok?
    requires EquityFrame(SleevePortfolio(rets, equityIntl, weights).value, ffDx).Ok?
    ensures var r := BuildAll(rets, ffUs, ffDx, weights, equityUs, equityIntl, totalUniverse);
            (r.Err? <==> MissingProxies(rets.columns) != []) &&
            (r.Err? ==> r.error == MissingProxyReturns(MissingProxies(rets.columns))) &&
            (r.Ok? ==> r.value.totalMacro == MacroFrame(SleevePortfolio(rets, totalUniverse, weights).value, rets))
  {
  }

  /** A sleeve portfolio keeps the returns table's order, so increasing dates stay increasing. */
  lemma SleevePortfolioIncreasing(rets: Table, tickers: seq<string>, weights: map<string, real>)
    requires DatesIncreasing(rets.rows, RowDate) && SleevePortfolio(rets, tickers, weights).Ok?
    ensures DatesIncreasing(SleevePortfolio(rets, tickers, weights).value, PointDate)
  {
    SleevePortfolioRows(rets, tickers, weights);
    DropNaIncreasing(rets.rows, tickers);
  }

  /** The equity rows follow the portfolio's order, so increasing dates stay increasing. */
  lemma EquityRowsIncreasing(port: seq<Point>, ff: Table)
    requires "RF" in ff.columns && DatesIncreasing(port, PointDate)
    ensures DatesIncreasing(EquityRows(port, ff), RowDate)
  {
    FilterDatesIncreasing(port, p => InnerJoined(p, ff), PointDate);
  }

  /** The macro rows follow the total portfolio's order, so increasing dates stay increasing. */
  lemma MacroRowsIncreasing(portTotal: seq<Point>, rets: Table)
    requires DatesIncreasing(portTotal, PointDate)
    ensures DatesIncreasing(MacroFrame(portTotal, rets).rows, RowDate)
  {
    FilterDatesIncreasing(portTotal, p => MacroJoined(p, rets), PointDate);
  }

  /** `frame` is the equity frame of `port` against `ff`, its dates strictly increase, it has
      a row for a portfolio week exactly when the factors are complete that week, and each
      row carries that week's `Y` and factors. */
  predicate IsEquityFrameOf(frame: Table, port: seq<Point>, ff: Table)
  {
    EquityFrame(port, ff) == Ok(frame) && DatesIncreasing(frame.rows, RowDate) &&
    (forall i :: 0 <= i < |port| ==> (HasRowDated(frame.rows, port[i].date) <==> FactorsAt(ff, port[i].date))) &&
    forall k :: 0 <= k < |frame.rows| ==> FromWeek(frame.rows[k], port, ff)
  }

  /** `frame` is the macro frame of `portTotal`, its dates strictly increase, it has a row for
      a week exactly when all five proxies are present that week, and each row carries that
      week's total return and proxy returns. */
  predicate IsMacroFrameOf(frame: Table, portTotal: seq<Point>, rets: Table)
  {
    frame == MacroFrame(portTotal, rets) && DatesIncreasing(frame.rows, RowDate) &&
    (forall i :: 0 <= i < |portTotal| ==> (HasRowDated(frame.rows, portTotal[i].date) <==> ProxiesAt(rets, portTotal[i].date))) &&
    forall k :: 0 <= k < |frame.rows| ==> MacroFromWeek(frame.rows[k], portTotal, rets)
  }

  /** The frames `build_frames` returns, on tables whose dates strictly increase (each is
      loaded with `sort_index` and has a unique index): the three sleeve portfolios have
      increasing dates, the two equity frames are those of the US and international sleeves
      against their factor tables, and the macro frame is that of the total sleeve. */
  lemma BuildAllFrames(rets: Table, ffUs: Table, ffDx: Table, weights: map<string, real>,
                       equityUs: seq<string>, equityIntl: seq<string>, totalUniverse: seq<string>)
    requires DatesIncreasing(rets.rows, RowDate)
    requires DatesIncreasing(ffUs.rows, RowDate) && DatesIncreasing(ffDx.rows, RowDate)
    ensures var r := BuildAll(rets, ffUs, ffDx, weights, equityUs, equityIntl, totalUniverse);
            var portTotal := SleevePortfolio(rets, totalUniverse, weights);
            var portUs := SleevePortfolio(rets, equityUs, weights);
            var portIntl := SleevePortfolio(rets, equityIntl, weights);
            r.Ok? ==>
              portTotal.Ok? && portUs.Ok? && portIntl.Ok? &&
              DatesIncreasing(portTotal.value, PointDate) && DatesIncreasing(portUs.value, PointDate) &&
              DatesIncreasing(portIntl.value, PointDate) &&
              IsEquityFrameOf(r.value.equityUs, portUs.value, ffUs) &&
              IsEquityFrameOf(r.value.equityIntl, portIntl.value, ffDx) &&
              IsMacroFrameOf(r.value.totalMacro, portTotal.value, rets)
  {
    var r := BuildAll(rets, ffUs, ffDx, weights, equityUs, equityIntl, totalUniverse);
    if r.Ok? {
      var portTotal := SleevePortfolio(rets, totalUniverse, weights).value;
      var portUs := SleevePortfolio(rets, equityUs, weights).value;
      var portIntl := SleevePortfolio(rets, equityIntl, weights).value;
      BuildAllParts(rets, ffUs, ffDx, weights, equityUs, equityIntl, totalUniverse);
      SleevePortfolioIncreasing(rets, totalUniverse, weights);
      SleevePortfolioIncreasing(rets, equityUs, weights);
      SleevePortfolioIncreasing(rets, equityIntl, weights);
      EquityFrameBuilt(portUs, ffUs);
      EquityFrameBuilt(portIntl, ffDx);
      MacroFrameBuilt(portTotal, rets);
    }
  }

  /** A successful `build_frames` has built every sleeve portfolio and both equity frames,
      and returns them with the macro frame of the total sleeve. */
  lemma BuildAllParts(rets: Table, ffUs: Table, ffDx: Table, weights: map<string, real>,
                      equityUs: seq<string>, equityIntl: seq<string>, totalUniverse: seq<string>)
    ensures var r := BuildAll(rets, ffUs, ffDx, weights, equityUs, equityIntl, totalUniverse);
            var portTotal := SleevePortfolio(rets, totalUniverse, weights);
            var portUs := SleevePortfolio(rets, equityUs, weights);
            var portIntl := SleevePortfolio(rets, equityIntl, weights);
            r.Ok? ==>
              portTotal.Ok? && portUs.Ok? && portIntl.Ok? &&
              EquityFrame(portUs.value, ffUs).Ok? && EquityFrame(portIntl.value, ffDx).Ok? &&
              r.value == BuiltFrames(EquityFrame(portUs.value, ffUs).value, EquityFrame(portIntl.value, ffDx).value,
                                     MacroFrame(portTotal.value, rets))
  {
  }

  /** The macro frame of an increasing, fully valued total portfolio against a returns table
      with increasing dates is described by `IsMacroFrameOf`. */
  lemma MacroFrameBuilt(portTotal: seq<Point>, rets: Table)
    requires forall i :: 0 <= i < |portTotal| ==> portTotal[i].value.Val?
    requires DatesIncreasing(portTotal, PointDate) && DatesIncreasing(rets.rows, RowDate)
    ensures IsMacroFrameOf(MacroFrame(portTotal, rets), portTotal, rets)
  {
    IncreasingIsUnique(portTotal, PointDate);
    IncreasingIsUnique(rets.rows, RowDate);
    MacroFrameRows(portTotal, rets);
    MacroRowsIncreasing(portTotal, rets);
  }

  /** A successful equity frame of an increasing, fully valued portfolio against a factor
      table with increasing dates is described by `IsEquityFrameOf`. */
  lemma EquityFrameBuilt(port: seq<Point>, ff: Table)
    requires forall i :: 0 <= i < |port| ==> port[i].value.Val?
    requires DatesIncreasing(port, PointDate) && DatesIncreasing(ff.rows, RowDate)
    requires EquityFrame(port, ff).Ok?
    ensures IsEquityFrameOf(EquityFrame(port, ff).value, port, ff)
  {
    FactorColumnsPresent(port, ff);
    IncreasingIsUnique(port, PointDate);
    IncreasingIsUnique(ff.rows, RowDate);
    EquityFrameRows(port, ff);
    EquityRowsIncreasing(port, ff);
  }

  /** A successful equity frame found `RF` and the three factors among the factor columns. */
  lemma FactorColumnsPresent(port: seq<Point>, ff: Table)
    requires EquityFrame(port, ff).Ok?
    ensures "RF" in ff.columns && forall c :: c in FactorColumns ==> c in ff.columns
  {
    forall c | c in FactorColumns ensures c in ff.columns {
      var m :| 0 <= m < |FactorColumns| && FactorColumns[m] == c;
      assert c !in MissingColumns(FactorColumns, ff.columns);
    }
  }
}
