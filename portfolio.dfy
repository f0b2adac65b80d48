/** The buy-and-hold portfolio of the analysis stage (`analysis/src/portfolio.py`): weight
    normalisation, the missing-price policy, the weighted return series and the branch and
    error logic of its summary. Fractional powers, the sample standard deviation and the
    square root are left abstract as function parameters. */
module Portfolio {
  import opened Wrappers
  import opened Seqs
  import opened Floats
  import opened Frames
  import opened Drawdown

  datatype Error =
    | NonPositiveWeightSum
    | UnknownPolicy(policy: string)
    | EmptyPortfolio
    | UnsupportedFrequency(freq: string)
    | UnknownCompounding(compounding: string)

  // ---- periods per year ----

  /** The upper-cased frequency string starts with the letter `upper`. */
  predicate StartsWithLetter(freq: string, upper: char, lower: char)
  {
    |freq| > 0 && (freq[0] == upper || freq[0] == lower)
  }

  /** `_freq_to_periods_per_year`: weekly, daily and monthly pandas frequency strings. */
  function PeriodsPerYear(freq: string): (r: Result<int, Error>)
    ensures r == Ok(52) <==> StartsWithLetter(freq, 'W', 'w')
    ensures r == Ok(252) <==> StartsWithLetter(freq, 'D', 'd')
    ensures r == Ok(12) <==> StartsWithLetter(freq, 'M', 'm')
    ensures r.Err? <==>
              !StartsWithLetter(freq, 'W', 'w') && !StartsWithLetter(freq, 'D', 'd') && !StartsWithLetter(freq, 'M', 'm')
    ensures r.Err? ==> r.error == UnsupportedFrequency(freq)
  {
    if StartsWithLetter(freq, 'W', 'w') then Ok(52)
    else if StartsWithLetter(freq, 'D', 'd') then Ok(252)
    else if StartsWithLetter(freq, 'M', 'm') then Ok(12)
    else Err(UnsupportedFrequency(freq))
  }

  /** The configured frequency `"W-FRI"` is weekly; an empty frequency is rejected. */
  lemma PeriodsPerYearExamples()
    ensures PeriodsPerYear("W-FRI") == Ok(52)
    ensures PeriodsPerYear("ME") == Ok(12)
    ensures PeriodsPerYear("") == Err(UnsupportedFrequency(""))
    ensures PeriodsPerYear("Q") == Err(UnsupportedFrequency("Q"))
  {
  }

  // ---- weights ----

  /** `_normalize_weights`: the weights reindexed to the columns (0 where none is given,
      dropped where the label is no column) and divided by their total, which must be positive. */
  function NormalizeWeights(weights: map<string, real>, columns: seq<string>): (r: Result<seq<real>, Error>)
    ensures r.Err? <==> Sum(Reindex(columns, weights)) <= 0.0
    ensures r.Err? ==> r.error == NonPositiveWeightSum
    ensures r.Ok? ==> |r.value| == |columns| && Sum(r.value) == 1.0
    ensures r.Ok? ==> forall j :: 0 <= j < |columns| ==>
              r.value[j] * Sum(Reindex(columns, weights)) == (if columns[j] in weights then weights[columns[j]] else 0.0)
  {
    var raw := Reindex(columns, weights);
    var total := Sum(raw);
    if total <= 0.0 then Err(NonPositiveWeightSum)
    else
      NormalizedSumsToOne(raw);
      Ok(Divide(raw, total))
  }

  /** Weights given for tickers that are not return columns change nothing. */
  lemma NormalizeIgnoresOtherTickers(w1: map<string, real>, w2: map<string, real>, columns: seq<string>)
    requires forall c :: c in columns ==> (c in w1 <==> c in w2)
    requires forall c :: c in columns && c in w1 ==> w1[c] == w2[c]
    ensures NormalizeWeights(w1, columns) == NormalizeWeights(w2, columns)
  {
    ReindexIgnoresOtherLabels(columns, w1, w2);
  }

  // ---- portfolio returns ----

  predicate KnownPolicy(policy: string)
  {
    policy == "drop_any" || policy == "drop_all"
  }

  /** Lines 52-57: `dropna(how="any")`, `dropna(how="all")` or an error. */
  function ApplyPolicy(rows: seq<Row>, columns: seq<string>, policy: string): (r: Result<seq<Row>, Error>)
    ensures r.Err? <==> !KnownPolicy(policy)
    ensures r.Err? ==> r.error == UnknownPolicy(policy)
    ensures policy == "drop_any" ==> r == Ok(DropNa(rows, columns))
    ensures policy == "drop_all" ==> r == Ok(DropAllNa(rows, columns))
  {
    if policy == "drop_any" then Ok(DropNa(rows, columns))
    else if policy == "drop_all" then Ok(DropAllNa(rows, columns))
    else Err(UnknownPolicy(policy))
  }

  /** `(r * w).sum(axis=1)` over the kept rows, in the table's row order. */
  function WeightedSeries(rows: seq<Row>, columns: seq<string>, w: seq<real>): (p: seq<Point>)
    requires |w| == |columns|
    ensures |p| == |rows|
    ensures forall i :: 0 <= i < |p| ==> p[i].date == rows[i].date && p[i].value.Val?
  {
    seq(|rows|, i requires 0 <= i < |rows| => Point(rows[i].date, Val(WeightedSum(rows[i], columns, w))))
  }

  /** `compute_portfolio_returns`. */
  function PortfolioReturns(rets: Table, weights: map<string, real>, policy: string): (r: Result<seq<Point>, Error>)
    ensures r.Err? <==> Sum(Reindex(rets.columns, weights)) <= 0.0 || !KnownPolicy(policy)
    ensures r.Err? ==> r.error == (if Sum(Reindex(rets.columns, weights)) <= 0.0 then NonPositiveWeightSum else UnknownPolicy(policy))
    ensures r.Ok? ==> forall i :: 0 <= i < |r.value| ==> r.value[i].value.Val?
  {
    var w :- NormalizeWeights(weights, rets.columns);
    var rows :- ApplyPolicy(rets.rows, rets.columns, policy);
    Ok(WeightedSeries(rows, rets.columns, w))
  }

  /** Under `drop_any` the series has one entry per row with no missing return, in row
      order, and each entry is `sum_i w_i * r_i` with the normalised weights. */
  lemma DropAnyReturns(rets: Table, weights: map<string, real>)
    requires Sum(Reindex(rets.columns, weights)) > 0.0
    ensures PortfolioReturns(rets, weights, "drop_any").Ok?
    ensures var p := PortfolioReturns(rets, weights, "drop_any").value;
            var kept := DropNa(rets.rows, rets.columns);
            var w := NormalizeWeights(weights, rets.columns).value;
            |p| == |kept| &&
            (forall row :: row in rets.rows ==> (row in kept <==> Complete(row, rets.columns))) &&
            forall i :: 0 <= i < |p| ==>
              p[i].date == kept[i].date && Complete(kept[i], rets.columns) &&
              p[i].value == Val(Dot(w, Values(kept[i], rets.columns)))
  {
    var kept := DropNa(rets.rows, rets.columns);
    var w := NormalizeWeights(weights, rets.columns).value;
    forall i | 0 <= i < |kept| ensures Complete(kept[i], rets.columns) &&
                                       WeightedSum(kept[i], rets.columns, w) == Dot(w, Values(kept[i], rets.columns)) {
      WeightedSumComplete(kept[i], rets.columns, w);
    }
  }

  // ---- summary ----

  function PointValues(p: seq<Point>): (rs: seq<real>)
    requires forall i :: 0 <= i < |p| ==> p[i].value.Val?
    ensures |rs| == |p|
    ensures forall i :: 0 <= i < |p| ==> p[i].value == Val(rs[i])
  {
    seq(|p|, i requires 0 <= i < |p| && p[i].value.Val? => p[i].value.v)
  }

  function Mean(rs: seq<real>): real
    requires |rs| > 0
  {
    Sum(rs) / |rs| as real
  }

  /** Lines 85-90: `(1 + port).prod() ** (ppy / n) - 1`, `mean * ppy`, or an error. */
  function AnnualizedReturn(rs: seq<real>, ppy: int, compounding: string, pow: (real, real) -> real): (r: Result<real, Error>)
    requires |rs| > 0
    ensures r.Err? <==> compounding != "geometric" && compounding != "simple"
    ensures r.Err? ==> r.error == UnknownCompounding(compounding)
  {
    if compounding == "geometric" then Ok(pow(Wealth(rs, |rs|), ppy as real / |rs| as real) - 1.0)
    else if compounding == "simple" then Ok(Mean(rs) * ppy as real)
    else Err(UnknownCompounding(compounding))
  }

  /** The earliest of a non-empty list of dates (`port.index.min()`). */
  function MinDate(ds: seq<Date>): (m: Date)
    requires |ds| > 0
    ensures m in ds && forall i :: 0 <= i < |ds| ==> m <= ds[i]
  {
    if |ds| == 1 then ds[0]
    else
      var t := MinDate(ds[1..]);
      assert forall i :: 1 <= i < |ds| ==> ds[i] == ds[1..][i - 1];
      if ds[0] <= t then ds[0] else t
  }

  /** The latest of a non-empty list of dates (`port.index.max()`). */
  function MaxDate(ds: seq<Date>): (m: Date)
    requires |ds| > 0
    ensures m in ds && forall i :: 0 <= i < |ds| ==> ds[i] <= m
  {
    if |ds| == 1 then ds[0]
    else
      var t := MaxDate(ds[1..]);
      assert forall i :: 1 <= i < |ds| ==> ds[i] == ds[1..][i - 1];
      if ds[0] >= t then ds[0] else t
  }

  function PointDates(p: seq<Point>): (ds: seq<Date>)
    ensures |ds| == |p| && forall i :: 0 <= i < |p| ==> ds[i] == p[i].date
  {
    seq(|p|, i requires 0 <= i < |p| => p[i].date)
  }

  /** `PortfolioSummary`; `weights` is aligned with `tickers`. */
  datatype PortfolioSummary = PortfolioSummary(
    tickers: seq<string>, weights: seq<real>, start: Date, end: Date,
    frequency: string, compounding: string, missingPricePolicy: string,
    annualizedReturn: real, annualizedVol: real, maxDrawdown: Num)

  /** `summarize_portfolio`. */
  function SummarizePortfolio(rets: Table, weights: map<string, real>, freq: string, policy: string,
                              compounding: string, pow: (real, real) -> real, std: seq<real> -> real,
                              sqrt: real -> real): Result<PortfolioSummary, Error>
  {
    var port :- PortfolioReturns(rets, weights, policy);
    if |port| == 0 then Err(EmptyPortfolio)
    else
      var ppy :- PeriodsPerYear(freq);
      var rs := PointValues(port);
      var ann :- AnnualizedReturn(rs, ppy, compounding, pow);
      var w := NormalizeWeights(weights, rets.columns).value;
      var ds := PointDates(port);
      Ok(PortfolioSummary(rets.columns, w, MinDate(ds), MaxDate(ds), freq, compounding, policy,
                          ann, std(rs) * sqrt(ppy as real), MaxDrawdown(rs)))
  }

  /** The checks run in source order: weights, policy, emptiness, frequency, compounding;
      the summary fails exactly when one of them does, with the first failure's error. */
  lemma SummaryErrors(rets: Table, weights: map<string, real>, freq: string, policy: string,
                      compounding: string, pow: (real, real) -> real, std: seq<real> -> real, sqrt: real -> real)
    ensures var r := SummarizePortfolio(rets, weights, freq, policy, compounding, pow, std, sqrt);
            var badWeights := Sum(Reindex(rets.columns, weights)) <= 0.0;
            var kept := if policy == "drop_any" then DropNa(rets.rows, rets.columns) else DropAllNa(rets.rows, rets.columns);
            var badFreq := PeriodsPerYear(freq).Err?;
            var badComp := compounding != "geometric" && compounding != "simple";
            (r.Err? <==> badWeights || !KnownPolicy(policy) || |kept| == 0 || badFreq || badComp) &&
            (badWeights ==> r == Err(NonPositiveWeightSum)) &&
            (!badWeights && !KnownPolicy(policy) ==> r == Err(UnknownPolicy(policy))) &&
            (!badWeights && KnownPolicy(policy) && |kept| == 0 ==> r == Err(EmptyPortfolio)) &&
            (!badWeights && KnownPolicy(policy) && |kept| > 0 && badFreq ==> r == Err(UnsupportedFrequency(freq))) &&
            (!badWeights && KnownPolicy(policy) && |kept| > 0 && !badFreq && badComp ==> r == Err(UnknownCompounding(compounding)))
  {
  }

  /** The pieces a successful summary is made of. */
  lemma SummaryParts(rets: Table, weights: map<string, real>, freq: string, policy: string,
                     compounding: string, pow: (real, real) -> real, std: seq<real> -> real, sqrt: real -> real)
    requires SummarizePortfolio(rets, weights, freq, policy, compounding, pow, std, sqrt).Ok?
    ensures PortfolioReturns(rets, weights, policy).Ok? && |PortfolioReturns(rets, weights, policy).value| > 0
    ensures NormalizeWeights(weights, rets.columns).Ok? && PeriodsPerYear(freq).Ok?
    ensures var port := PortfolioReturns(rets, weights, policy).value;
            var rs := PointValues(port);
            var ds := PointDates(port);
            var s := SummarizePortfolio(rets, weights, freq, policy, compounding, pow, std, sqrt).value;
            s.tickers == rets.columns && s.weights == NormalizeWeights(weights, rets.columns).value &&
            s.start == MinDate(ds) && s.end == MaxDate(ds) && s.maxDrawdown == MaxDrawdown(rs) &&
            AnnualizedReturn(rs, PeriodsPerYear(freq).value, compounding, pow) == Ok(s.annualizedReturn)
  {
  }

  /** A summary reports the normalised weights of every return column (summing to one)
      and a start no later than its end, both dates of the portfolio series, which lies
      between them. */
  lemma SummaryDates(rets: Table, weights: map<string, real>, freq: string, policy: string,
                     compounding: string, pow: (real, real) -> real, std: seq<real> -> real, sqrt: real -> real)
    requires SummarizePortfolio(rets, weights, freq, policy, compounding, pow, std, sqrt).Ok?
    ensures var s := SummarizePortfolio(rets, weights, freq, policy, compounding, pow, std, sqrt).value;
            var ds := PointDates(PortfolioReturns(rets, weights, policy).value);
            s.tickers == rets.columns && |s.weights| == |s.tickers| && Sum(s.weights) == 1.0 &&
            s.start <= s.end && s.start in ds && s.end in ds &&
            forall i :: 0 <= i < |ds| ==> s.start <= ds[i] <= s.end
  {
    SummaryParts(rets, weights, freq, policy, compounding, pow, std, sqrt);
  }

  /** Under simple compounding the annualised return is `mean(port) * periods_per_year`. */
  lemma SummarySimpleReturn(rets: Table, weights: map<string, real>, freq: string, policy: string,
                            compounding: string, pow: (real, real) -> real, std: seq<real> -> real, sqrt: real -> real)
    requires compounding == "simple"
    requires SummarizePortfolio(rets, weights, freq, policy, compounding, pow, std, sqrt).Ok?
    ensures var s := SummarizePortfolio(rets, weights, freq, policy, compounding, pow, std, sqrt).value;
            var rs := PointValues(PortfolioReturns(rets, weights, policy).value);
            |rs| > 0 && s.annualizedReturn == Mean(rs) * PeriodsPerYear(freq).value as real
  {
    SummaryParts(rets, weights, freq, policy, compounding, pow, std, sqrt);
    var s := SummarizePortfolio(rets, weights, freq, policy, compounding, pow, std, sqrt).value;
    var rs := PointValues(PortfolioReturns(rets, weights, policy).value);
    var ppy := PeriodsPerYear(freq).value;
    assert AnnualizedReturn(rs, ppy, compounding, pow) == Ok(s.annualizedReturn);
  }

  /** Under geometric compounding the annualised return is the compounded wealth raised to
      `periods_per_year / len(port)`, minus one. */
  lemma SummaryGeometricReturn(rets: Table, weights: map<string, real>, freq: string, policy: string,
                               compounding: string, pow: (real, real) -> real, std: seq<real> -> real, sqrt: real -> real)
    requires compounding == "geometric"
    requires SummarizePortfolio(rets, weights, freq, policy, compounding, pow, std, sqrt).Ok?
    ensures var s := SummarizePortfolio(rets, weights, freq, policy, compounding, pow, std, sqrt).value;
            var rs := PointValues(PortfolioReturns(rets, weights, policy).value);
            |rs| > 0 &&
            s.annualizedReturn == pow(Wealth(rs, |rs|), PeriodsPerYear(freq).value as real / |rs| as real) - 1.0
  {
    SummaryParts(rets, weights, freq, policy, compounding, pow, std, sqrt);
    var s := SummarizePortfolio(rets, weights, freq, policy, compounding, pow, std, sqrt).value;
    var rs := PointValues(PortfolioReturns(rets, weights, policy).value);
    var ppy := PeriodsPerYear(freq).value;
    assert AnnualizedReturn(rs, ppy, compounding, pow) == Ok(s.annualizedReturn);
  }

  /** With every portfolio return above -100% the reported maximum drawdown lies in `(-1, 0]`. */
  lemma SummaryDrawdown(rets: Table, weights: map<string, real>, freq: string, policy: string,
                        compounding: string, pow: (real, real) -> real, std: seq<real> -> real, sqrt: real -> real)
    requires SummarizePortfolio(rets, weights, freq, policy, compounding, pow, std, sqrt).Ok?
    requires var rs := PointValues(PortfolioReturns(rets, weights, policy).value);
             forall i :: 0 <= i < |rs| ==> rs[i] > -1.0
    ensures var s := SummarizePortfolio(rets, weights, freq, policy, compounding, pow, std, sqrt).value;
            s.maxDrawdown.Finite? && -1.0 < s.maxDrawdown.r <= 0.0
  {
    SummaryParts(rets, weights, freq, policy, compounding, pow, std, sqrt);
    MaxDrawdownBounds(PointValues(PortfolioReturns(rets, weights, policy).value));
  }
}
