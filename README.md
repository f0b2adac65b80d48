# Factor attribution explorer: a Dafny model of its core

The factor attribution explorer is a weekly pipeline with three stages.

- **Analysis (Python/pandas).** It builds buy-and-hold portfolios from weekly returns and regresses them on Fama-French factors (US and developed ex-US) or on macro proxy ETFs. It estimates rolling OLS exposures and attributes each week's return to last week's exposures. It labels each week calm or stress from rolling volatility and summarises the portfolio.
- **Tools (Python).** Validation tools check the exported JSON: rows, dates, metadata and attribution keys. They align exposures, attribution and regimes on the dates the three share, and write a manifest.
- **Site (TypeScript).** The site aligns the same three lists again. It draws confidence bands around estimates and colours data-quality badges.

This project models those stages. There is one module per source file, plus shared modules:

- `Wrappers`: `Option`, `Result`, `Outcome`.
- `Seqs`: filters, sums, de-duplication.
- `Lex`: the string order Python and JavaScript use to sort ISO dates, and an insertion sort.
- `Floats`: a number that may be NaN or infinite.
- `Json`: decoded JSON values.
- `Frames`: date-indexed pandas tables, `dropna`, `sort_index`, `reindex`.
- `Drawdown`: the maximum drawdown both analysis stages compute.
- `Alignment`: a specification of "align by intersection of dates". The two Python alignments and the TypeScript one are each proved to meet it.

How values are represented:

- Analysis-stage dates are pandas timestamps, modelled as integers.
- Tool and site dates are ISO strings, compared lexicographically.
- Statistical routines whose numerics are not the point are parameters of the operations that use them: the OLS fit, the rolling standard deviation and quantile, `pow` and `sqrt`.
- Loops in the source are methods with loop invariants, proved equal to the function that specifies them:
  - the rolling-window loop;
  - the attribution column loop;
  - the drawdown loop;
  - the attribution-key check;
  - the manifest's row checks and count check.

## Model

| member | source | states |
|---|---|---|
| Frames.FindByDate | analysis/src/build_frames.py:50 | the row found carries the date asked for; None exactly when no row has that date; with unique dates it is the only such row |
| Frames.Reindex | analysis/src/portfolio.py:37 | one weight per column in column order (0 for a column without a weight) |
| Frames.ReindexIgnoresOtherLabels | analysis/src/portfolio.py:37 | weights configured for labels that are not columns have no effect |
| Frames.Values | analysis/src/portfolio.py:59 | the values of a row with no gap, one per column, each equal to that column's cell |
| Frames.WeightedSumComplete | analysis/src/portfolio.py:59 | on a row with no NaN, `(r * w).sum(axis=1)` is the dot product of weights and returns |
| Frames.SortByDate | analysis/src/regimes.py:26 | `sort_index()` returns a permutation of its input that is sorted by date |
| Frames.SortByDateOfSorted | analysis/src/rolling_model.py:25 | sorting a table already sorted by date changes nothing |
| Frames.SortByDateIncreasing | analysis/src/rolling_model.py:25 | sorting rows with unique dates gives strictly increasing dates |
| Frames.IncreasingIsUnique | analysis/src/rolling_model.py:25 | strictly increasing dates are unique and sorted |
| Frames.FilterDatesUnique | analysis/src/portfolio.py:53 | dropping rows keeps dates unique |
| Frames.FilterDatesIncreasing | analysis/src/portfolio.py:53 | dropping rows keeps dates in increasing order |
| Frames.DropNaIncreasing | analysis/src/build_frames.py:20 | `dropna(how="any")` on a table with increasing dates leaves increasing dates |
| Drawdown.MaxDrawdown | analysis/src/regimes.py:8-12 | no contract (the same computation as analysis/src/portfolio.py:64-68); specified by Drawdown.MaxDrawdownBounds, Drawdown.MaxDrawdownZero and Drawdown.MaxDrawdownEmpty |
| Drawdown.RunningMax | analysis/src/regimes.py:10 | `cummax` of wealth: an upper bound of every wealth value so far, and attained by one of them |
| Drawdown.MaxDrawdownBounds | analysis/src/regimes.py:8-12 | with every return above -100% the maximum drawdown is finite and lies in (-1, 0] |
| Drawdown.MaxDrawdownZero | analysis/src/portfolio.py:64-68 | when wealth never falls (no negative return) the maximum drawdown is exactly 0 |
| Drawdown.MaxDrawdownEmpty | analysis/src/regimes.py:12 | the drawdown of an empty series is NaN (the min of an empty series) |
| Floats.MinSkipNaN | analysis/src/regimes.py:12 | pandas `min`: NaN exactly when every value is NaN, otherwise an element no larger than any non-NaN element |
| Floats.Div | analysis/src/regimes.py:11 | float division: the exact quotient when the divisor is non-zero; with a zero divisor NaN exactly for 0/0 |
| RollingModel.EligibleEnds | analysis/src/rolling_model.py:34-44 | the window ends that pass the start and `min_nobs` checks, strictly increasing and inside the table |
| RollingModel.EligibleEndsExact | analysis/src/rolling_model.py:34-44 | the eligible ends are exactly the consecutive rows `window-1, ..., n-1` when a full window holds at least `min_nobs` rows, none otherwise |
| RollingModel.RecordsForSnoc | analysis/src/rolling_model.py:59-60 | one more eligible end appends exactly that window's record |
| RollingModel.Prepare | analysis/src/rolling_model.py:24-25 | no contract; specified by RollingModel.PreparedComplete and RollingModel.PreparedRows |
| RollingModel.PreparedComplete | analysis/src/rolling_model.py:24 | after `dropna` every kept row has a value for `y` and every regressor |
| RollingModel.PreparedRows | analysis/src/rolling_model.py:24-25 | the prepared frame holds exactly the input rows with no gap in `y` or the regressors |
| RollingModel.WindowObs | analysis/src/rolling_model.py:39-40 | a window slice holds exactly `window` observations |
| RollingModel.FillBetas | analysis/src/rolling_model.py:56-57 | the loop stores parameter `j` under `beta_<x_cols[j-1]>`, as `BetaMap` specifies |
| RollingModel.BetaMapLookup | analysis/src/rolling_model.py:56-57 | with distinct regressors the beta map has one key per regressor and maps the j-th to `params[j]` |
| RollingModel.RollOverPrepared | analysis/src/rolling_model.py:34-61 | the loop produces one record per eligible window end, in order, each from that window's fit |
| RollingModel.RollingOls | analysis/src/rolling_model.py:11-63 | no contract; specified by RollingModel.RollingRecordCount, RollingModel.RollingRecordWindows, RollingModel.RecordNoLookAhead and RollingModel.RollingFromFrame |
| RollingModel.RunRollingOls | analysis/src/rolling_model.py:11-63 | the imperative `run_rolling_ols` returns what its functional specification `RollingOls` returns |
| RollingModel.RollingRecordCount | analysis/src/rolling_model.py:34-44 | with `min_nobs <= window`, there are `n - window + 1` records for `n >= window` prepared rows, 0 otherwise |
| RollingModel.RollingNoRecords | analysis/src/rolling_model.py:43-44 | with `min_nobs > window` no window is ever fitted |
| RollingModel.RollingFirstLastDates | analysis/src/rolling_model.py:60 | the first record is dated at row `window-1` and the last at the final prepared row |
| RollingModel.RollingRecordWindows | analysis/src/rolling_model.py:34-57 | record `k` is dated at row `window-1+k` and built from the fit of exactly rows `k..window-1+k` |
| RollingModel.RecordNoLookAhead | analysis/src/rolling_model.py:39-40 | a record depends only on rows up to its end date: changing later rows leaves it unchanged |
| RollingModel.RollingDatesIncreasing | analysis/src/rolling_model.py:25 | with unique input dates the exposure dates strictly increase |
| RollingModel.RollingFromFrame | analysis/src/rolling_model.py:73-78 | `run_rolling_from_parquet` fails with `KeyError(['Y'])` exactly when the frame has no `Y` column |
| Attribution.Needed | analysis/src/attribution.py:33 | `alpha` followed by `beta_<x>` for each regressor in order |
| Attribution.Lagged | analysis/src/attribution.py:31 | `shift(1)`: the same dates, the first row empty, row `p` carrying the cells of row `p-1` |
| Attribution.LaggedCells | analysis/src/attribution.py:31 | a lagged row has a value exactly where the previous exposure row has one |
| Attribution.Times | analysis/src/attribution.py:45 | a product of cells is present exactly when both factors are |
| Attribution.JoinableCells | analysis/src/attribution.py:36 | a week kept by the inner join and `dropna` has `y`, every regressor, `alpha` and every beta |
| Attribution.ContribAt | analysis/src/attribution.py:45 | `contrib_x = beta_x(t-1) * x(t)` |
| Attribution.LagOf | analysis/src/attribution.py:36 | a kept week is joined to the lagged exposure row of the same date |
| Attribution.KeptRows | analysis/src/attribution.py:36 | the joined rows are exactly the frame weeks that have a complete lagged exposure row |
| Attribution.Attribute | analysis/src/attribution.py:38-50 | one output row per joined week, in order, with that week's date |
| Attribution.ExplainedStep | analysis/src/attribution.py:44-47 | adding the `contrib_<c>` column of the `k`-th regressor to `explained` gives alpha plus the first `k + 1` contributions on every row |
| Attribution.AssembledRow | analysis/src/attribution.py:38-50 | reading the finished columns back row by row gives that week's attribution row |
| Attribution.AttributeColumns | analysis/src/attribution.py:42-50 | the column loop accumulates `explained` as `Attribute` specifies |
| Attribution.AttributionOf | analysis/src/attribution.py:9-51 | no contract; specified by Attribution.AttributionErrors, Attribution.AttributionIdentity, Attribution.AttributionLagged and Attribution.AttributionDates |
| Attribution.ComputeAttribution | analysis/src/attribution.py:9-51 | the imperative `compute_attribution` returns what `AttributionOf` returns |
| Attribution.AttributionIdentity | analysis/src/attribution.py:42-50 | `explained + residual == y`, `explained == alpha + sum of contributions`, one contribution per regressor |
| Attribution.AttributionLagged | analysis/src/attribution.py:31-50 | every output row is explained by the exposures of the previous exposure date and the factors of its own week (no look-ahead) |
| Attribution.AttributionDates | analysis/src/attribution.py:36 | with unique dates the output dates strictly increase, and every week with a complete previous exposure appears |
| Attribution.AttributionSkipsFirstExposure | analysis/src/attribution.py:31 | no output row is dated at or before the first exposure date |
| Attribution.AttributionErrors | analysis/src/attribution.py:33-34 | the computation fails exactly when `y` or a needed exposure column is missing, and names the missing exposure columns |
| Regimes.ToRets | analysis/src/regimes.py:26 | a series with no NaN converts value by value, dates kept |
| Regimes.TrailingVols | analysis/src/regimes.py:28 | the threshold reads exactly `lookback` shifted volatilities |
| Regimes.DefinedExactly | analysis/src/regimes.py:27-31 | a row survives `dropna` exactly when its index is at least `vol_window + lookback - 1` |
| Regimes.NoRowsWithoutVol | analysis/src/regimes.py:27 | a volatility window below 2 has no defined sample std, so no row survives |
| Regimes.RegimeRowsExact | analysis/src/regimes.py:26-32 | the output is exactly the rows from the warm-up index on, `max(0, N - V - L + 1)` of them, each at its own index |
| Regimes.NoRowsWithoutThresh | analysis/src/regimes.py:28 | a lookback of 0 never yields a threshold, so no row survives |
| Regimes.ComputeRegimesWarmUp | analysis/src/regimes.py:14-33 | fails exactly on a negative window (reported first) or on a percentile outside [0, 1] with a non-empty cleaned series; a volatility window below 2 or a lookback of 0 gives no rows; otherwise exactly the post-warm-up rows |
| Regimes.ComputeRegimes | analysis/src/regimes.py:14-33 | no contract; specified by Regimes.ComputeRegimesWarmUp, Regimes.LabelsFollowRule and Regimes.RowNoLookAhead |
| Regimes.Vol | analysis/src/regimes.py:27 | no contract; specified by Regimes.DefinedExactly and Regimes.NoRowsWithoutVol |
| Regimes.Thresh | analysis/src/regimes.py:28 | no contract; specified by Regimes.TrailingVols and Regimes.ThreshReadsTrailingVol |
| Regimes.LabelsFollowRule | analysis/src/regimes.py:30-32 | every row is `stress` with `is_stress = 1` iff `vol >= vol_thresh`, else `calm` with 0 |
| Regimes.ThreshReadsTrailingVol | analysis/src/regimes.py:28 | the threshold at `t` depends only on volatilities at `t-L..t-1` |
| Regimes.RowNoLookAhead | analysis/src/regimes.py:20-28 | a regime row depends only on returns up to its own date |
| Regimes.RegimeWeights | analysis/src/regimes.py:50-57 | one weight per return column |
| Regimes.RegimeWeightsNormalized | analysis/src/regimes.py:50-57 | weights sum to one: `1/n` each without config, else configured weight over the total (0 for unconfigured columns); fails exactly on no columns / a zero total |
| Regimes.PortReturns | analysis/src/regimes.py:59 | one defined portfolio return per returns row |
| Regimes.PortReturnsValues | analysis/src/regimes.py:50-59 | the portfolio series follows the date-sorted returns rows, and on a week with every return present its value is the dot product of the weights and the returns |
| Regimes.PortReturnsAllKept | analysis/src/regimes.py:59 | because the weighted sum skips NaN, `dropna` removes no portfolio week |
| Regimes.RowsOf | analysis/src/regimes.py:93 | the selected rows all carry the requested label |
| Regimes.RegimeReturns | analysis/src/regimes.py:93 | the `ret` column of the selected rows, in order |
| Regimes.RegimesPartition | analysis/src/regimes.py:92-93 | calm and stress rows are disjoint and together are a permutation of all rows |
| Regimes.StressFraction | analysis/src/regimes.py:106 | NaN for no rows, otherwise a fraction in [0, 1] equal to stress rows over all rows |
| Regimes.DrawdownsOf | analysis/src/regimes.py:91-94 | a drawdown entry for both labels |
| Regimes.RegimeDrawdowns | analysis/src/regimes.py:91-94 | the loop over the two labels fills the map `DrawdownsOf` specifies |
| Regimes.SummaryOf | analysis/src/regimes.py:50-106 | no contract; specified by Regimes.RegimesAndSummary, Regimes.StressFraction and Regimes.RegimeDrawdownBounds |
| Regimes.AttributionColumns | analysis/src/attribution.py:38-50 | the attribution table has `explained` and no `explained_share` column, one column per regressor plus four |
| Regimes.SelectColumns | analysis/src/regimes.py:86 | `df[cols]` succeeds iff every wanted column exists, returning them; otherwise `KeyError` naming exactly the missing ones |
| Regimes.ExplainedMeansAsWritten | analysis/src/regimes.py:80-86 | no contract; specified by Regimes.ExplainedShareMissing |
| Regimes.ExplainedShareMissing | analysis/src/regimes.py:80-86 | on every table `compute_attribution` writes, line 86 raises `KeyError(['explained_share'])` |
| Regimes.ExplainedMeans | analysis/src/regimes.py:80-86 | no contract; specified by Regimes.ExplainedMeansSelect |
| Regimes.ExplainedMeansSelect | analysis/src/regimes.py:80-86 | selecting the `explained` column instead succeeds on every attribution table |
| Regimes.RegimesAndSummary | analysis/src/regimes.py:50-106 | the imperative summary equals `SummaryOf`: weights, portfolio, regimes, drawdowns, stress fraction |
| Regimes.RegimeDrawdownBounds | analysis/src/regimes.py:91-94 | a label without rows gets NaN; with returns above -100% a label with rows gets a drawdown in (-1, 0] |
| Portfolio.PeriodsPerYear | analysis/src/portfolio.py:26-33 | 52, 252, 12 exactly for frequencies starting with W, D, M in either case; otherwise an error naming the frequency |
| Portfolio.PeriodsPerYearExamples | analysis/src/portfolio.py:26-33 | `W-FRI` is 52, `ME` is 12, the empty string and `Q` are rejected |
| Portfolio.NormalizeWeights | analysis/src/portfolio.py:36-41 | fails exactly when the reindexed total is not positive; otherwise one weight per column, summing to one, each the configured weight over the total |
| Portfolio.NormalizeIgnoresOtherTickers | analysis/src/portfolio.py:37 | weights for tickers that are not columns do not change the normalised weights |
| Portfolio.ApplyPolicy | analysis/src/portfolio.py:52-57 | `drop_any` keeps the rows with no missing return, `drop_all` the rows with at least one return; any other policy is an error naming it |
| Portfolio.WeightedSeries | analysis/src/portfolio.py:59 | one defined value per kept row, with its date |
| Portfolio.PortfolioReturns | analysis/src/portfolio.py:44-61 | fails exactly on a non-positive weight total (checked first) or an unknown policy; every value is defined |
| Portfolio.DropAnyReturns | analysis/src/portfolio.py:52-59 | under `drop_any`, exactly the rows with no missing return, in order, each valued at the dot product of normalised weights and returns |
| Portfolio.AnnualizedReturn | analysis/src/portfolio.py:85-90 | fails exactly for a compounding other than `geometric` or `simple` |
| Portfolio.MinDate | analysis/src/portfolio.py:95 | `index.min()`: a date of the series no later than any other |
| Portfolio.MaxDate | analysis/src/portfolio.py:96 | `index.max()`: a date of the series no earlier than any other |
| Portfolio.SummarizePortfolio | analysis/src/portfolio.py:71-110 | no contract; specified by Portfolio.SummaryErrors, Portfolio.SummaryParts and Portfolio.SummaryDates |
| Portfolio.SummaryErrors | analysis/src/portfolio.py:78-90 | the summary fails exactly when weights, policy, emptiness, frequency or compounding fail, with the first failure's error in that order |
| Portfolio.SummaryParts | analysis/src/portfolio.py:95-109 | a summary reports the return columns, the normalised weights, the min/max dates, the series' drawdown and its annualised return |
| Portfolio.SummaryDates | analysis/src/portfolio.py:95-100 | weights sum to one over all tickers; `start <= end`, both dates of the series, which lies between them |
| Portfolio.SummaryGeometricReturn | analysis/src/portfolio.py:85-86 | under geometric compounding the annualised return is the compounded wealth to the power `periods_per_year / len(port)`, minus one |
| Portfolio.SummarySimpleReturn | analysis/src/portfolio.py:87-88 | under simple compounding the annualised return is `mean * periods_per_year` |
| Portfolio.SummaryDrawdown | analysis/src/portfolio.py:93 | with returns above -100% the summary's maximum drawdown lies in (-1, 0] |
| BuildFrames.SleeveWeights | analysis/src/build_frames.py:16-17 | one weight per sleeve ticker |
| BuildFrames.SleeveWeightsNormalized | analysis/src/build_frames.py:16-17 | an unweighted ticker raises `KeyError` naming the first one; otherwise the weights sum to one, each the configured weight over the sleeve total |
| BuildFrames.FirstUnweighted | analysis/src/build_frames.py:16 | the first ticker the dict comprehension fails on is the first unweighted ticker in sleeve order |
| BuildFrames.SleevePortfolio | analysis/src/build_frames.py:15-23 | every week of a sleeve portfolio has a defined return |
| BuildFrames.SleevePortfolioIncreasing | analysis/src/build_frames.py:18-21 | a sleeve portfolio of a returns table with increasing dates has increasing dates |
| BuildFrames.SleevePortfolioRows | analysis/src/build_frames.py:18-21 | exactly the weeks with no missing holding, in order, each valued at the weighted sum of holdings |
| BuildFrames.EquityRow | analysis/src/build_frames.py:51-52 | `Y = PORT_RET - RF` and the three factors of the same week |
| BuildFrames.EquityRows | analysis/src/build_frames.py:50-52 | one equity row per portfolio week that survives the inner join |
| BuildFrames.EquityFrame | analysis/src/build_frames.py:50-57 | the frame's columns are `Y, MKT_RF, SMB, HML` |
| BuildFrames.InnerJoinedIff | analysis/src/build_frames.py:50 | a portfolio week survives `concat(join="inner").dropna()` iff the factor table has that date with no NaN |
| BuildFrames.EquityRowAt | analysis/src/build_frames.py:50-52 | row `k` of the equity frame is the equity row of the `k`-th joined week |
| BuildFrames.EquityRowsIncreasing | analysis/src/build_frames.py:50-52 | the equity rows of a portfolio with increasing dates have increasing dates |
| BuildFrames.FactorColumnsPresent | analysis/src/build_frames.py:51-52 | a successful equity frame found `RF` and the three factors among the factor columns |
| BuildFrames.EquityFrameRows | analysis/src/build_frames.py:50-57 | with unique dates, the frame has a row for a week iff the factors are complete that week, and each row carries that week's `Y` and factors |
| BuildFrames.MissingProxies | analysis/src/build_frames.py:61-62 | exactly the macro proxies that are not return columns |
| BuildFrames.MacroRow | analysis/src/build_frames.py:67-70 | `Y` is the total-portfolio return (no risk-free rate) and the five proxies of the same week |
| BuildFrames.MacroWeeks | analysis/src/build_frames.py:67 | the kept weeks are exactly the total-portfolio weeks that join a proxy row with no NaN |
| BuildFrames.MacroFrame | analysis/src/build_frames.py:67-70 | the frame's columns are `Y` and the proxies in order, one row per kept week |
| BuildFrames.MacroRowAt | analysis/src/build_frames.py:67-70 | row `k` of the macro frame is the macro row of the `k`-th joined week |
| BuildFrames.MacroJoinedIff | analysis/src/build_frames.py:67 | with unique proxy dates, a week with a total return survives `concat(join="inner").dropna()` iff the returns table has that date with all five proxies |
| BuildFrames.MacroRowDated | analysis/src/build_frames.py:67-70 | with unique dates, a week has a macro row iff its proxies are complete |
| BuildFrames.MacroRowsIncreasing | analysis/src/build_frames.py:67-70 | the macro rows of a total portfolio with increasing dates have increasing dates |
| BuildFrames.MacroFrameRows | analysis/src/build_frames.py:67-70 | every macro row is some week's total return with that week's proxy returns, none missing; with unique dates, every week with a total return and complete proxies has a row |
| BuildFrames.BuildAllProxyCheck | analysis/src/build_frames.py:61-64 | once sleeves and equity frames are built, the only failure left is the `ValueError` for missing macro proxies, naming exactly the absent proxies in order |
| BuildFrames.BuildAll | analysis/src/build_frames.py:26-71 | no contract; specified by BuildFrames.BuildAllProxyCheck and BuildFrames.BuildAllFrames |
| BuildFrames.BuildAllParts | analysis/src/build_frames.py:43-71 | a successful run built the three sleeve portfolios and both equity frames and returns them with the macro frame of the total sleeve |
| BuildFrames.EquityFrameBuilt | analysis/src/build_frames.py:50-57 | on increasing dates, a successful equity frame has increasing dates, a row for a week iff its factors are complete, and each row that week's `Y` and factors |
| BuildFrames.MacroFrameBuilt | analysis/src/build_frames.py:67-71 | on increasing dates, the macro frame has increasing dates, a row for a week iff its proxies are complete, and each row that week's values |
| BuildFrames.BuildAllFrames | analysis/src/build_frames.py:9-71 | on date-sorted inputs with unique dates, a successful run returns the equity frames of the US and international sleeves and the macro frame of the total sleeve; every sleeve and every frame has strictly increasing dates, and each frame has a row for a week iff that week's factors or proxies are complete |
| Alignment.Dates | tools/validate_and_manifest.py:52-54 | the date of every row, in row order |
| Alignment.CommonDates | tools/validate_and_manifest.py:56 | strictly increasing, and holding exactly the dates all three lists share |
| Alignment.CommonUnique | tools/schemas.py:130 | there is only one strictly increasing list of the shared dates, so every implementation must produce the same one |
| Alignment.Keep | tools/validate_and_manifest.py:59-61 | filtering to the shared dates never adds a row |
| Alignment.KeepCons | tools/validate_and_manifest.py:59 | the filter keeps the head row exactly when its date is shared |
| Alignment.KeepDates | tools/schemas.py:133-135 | the kept rows' dates are exactly the input dates that are shared |
| Alignment.KeepDistinct | tools/schemas.py:133-135 | filtering keeps dates unique |
| Alignment.KeepDatesFiltered | tools/validate_and_manifest.py:59-61 | the kept rows' dates are the input dates filtered to the shared ones, in input order |
| Alignment.KeptLength | tools/schemas.py:138 | with unique dates, each list cut to the shared dates has exactly one row per shared date |
| Alignment.AlignedLengths | tools/schemas.py:138-139 | with unique dates in each input, all three aligned lists have the length of the date list |
| Alignment.RealignIsIdentity | site/src/lib/alignByDate.ts:14-22 | an alignment, taken as input, is its own alignment |
| Alignment.KeepAllCommon | site/src/lib/alignByDate.ts:20-22 | a list whose every date is shared is kept whole |
| Json.TypeName | tools/schemas.py:101 | the Python type name of a decoded JSON value |
| Schemas.DateFields | tools/schemas.py:8 | a date matching the pattern has a four-digit year and two-digit month and day |
| Schemas.DigitsDetermined | tools/schemas.py:8 | two-digit numerals are equal exactly when their digits are |
| Schemas.SameDayIsSameString | tools/schemas.py:8 | two strings matching the intended pattern with the same year, month and day are the same string, so sorted-unique checks on them are meaningful |
| Schemas.DateMatchAsWritten | tools/schemas.py:8 | no contract; the pattern as written, specified by Schemas.TrailingNewlineAccepted |
| Schemas.TrailingNewlineAccepted | tools/schemas.py:51 | `re.match` with `$` accepts `2024-01-05` and `2024-01-05\n`, which is not a ten-character date |
| Schemas.TrailingNewlineDuplicatePasses | tools/schemas.py:11-15 | both spellings of one day pass the sorted/unique check |
| Schemas.CheckDate | tools/schemas.py:48-53 | accepts a date exactly when it matches the intended pattern, returning it unchanged; else the error names the value |
| Schemas.AssertSortedUniqueDates | tools/schemas.py:11-15 | no contract; specified by Schemas.SortedUniqueChecks and Schemas.TrailingNewlineDuplicatePasses |
| Schemas.SortedUniqueChecks | tools/schemas.py:11-15 | passes iff strictly increasing; "not sorted" iff unsorted; "duplicates" iff sorted with a repeat |
| Schemas.NumericOrNull | tools/schemas.py:90-101 | `date` passes untouched; otherwise null stays null, numbers and bools become floats, anything else is an error naming field and type |
| Schemas.NumericOrNullIdempotent | tools/schemas.py:90-101 | validating an accepted value again gives the same result |
| Schemas.SortedDifference | tools/schemas.py:113-114 | strictly increasing, and exactly the keys of one set missing from the other |
| Schemas.FirstTen | tools/schemas.py:117 | `[:10]`: a prefix of at most ten, the whole list when it is no longer |
| Schemas.MismatchAt | tools/schemas.py:112-118 | the error names the row, its date and at most ten missing and ten extra keys, each genuinely missing or extra |
| Schemas.MismatchNamesKeys | tools/schemas.py:112-118 | a mismatch names at least one key; with at most ten missing keys it names them all |
| Schemas.ValidateAttribKeys | tools/schemas.py:104-118 | passes iff every row has the first row's key set; otherwise reports the first row that differs |
| Schemas.KeyCheckAsWrittenNeverFails | tools/schemas.py:108-111 | reading keys from `__dict__` sees only `date`, so the check passes even on rows whose keys differ |
| Schemas.AlignByIntersection | tools/schemas.py:121-141 | a result is an alignment on the shared dates with all lengths equal to the date count |
| Schemas.AlignByIntersectionSucceeds | tools/schemas.py:138-139 | with unique dates in each list, the length check never raises |
| Manifest.IsSortedUnique | tools/validate_and_manifest.py:21-24 | no contract; specified by Manifest.IsSortedUniqueMeaning |
| Manifest.IsSortedUniqueMeaning | tools/validate_and_manifest.py:21-24 | the flags mean sorted and duplicate-free; both hold iff the dates strictly increase |
| Manifest.RequireListOfDicts | tools/validate_and_manifest.py:27-33 | a non-list is rejected with its type; a list passes iff its first five rows are dicts, else the first non-dict among them is named |
| Manifest.RowDate | tools/validate_and_manifest.py:39-43 | a row yields a date exactly when it is a dict with a string `date` |
| Manifest.RequireDates | tools/validate_and_manifest.py:36-44 | succeeds iff every row has a string date, returning them in order; otherwise names the first bad row and its problem |
| Manifest.ValidateDataset | tools/validate_and_manifest.py:101-107 | accepts exactly a list of dated rows (first five dicts) with strictly increasing dates and at least one row; start and end are its first and last dates |
| Manifest.AlignByIntersection | tools/validate_and_manifest.py:47-70 | an alignment on the shared dates; `aligned_n` is their count; start and end are absent iff none is shared, else the least and greatest shared date |
| Manifest.IncreasingEnds | tools/validate_and_manifest.py:67-68 | the first and last of an increasing list bound every element |
| Manifest.ValidatedDatasetsAlign | tools/validate_and_manifest.py:122-129 | aligning three validated datasets always passes the count check |
| Manifest.CheckAlignedCounts | tools/validate_and_manifest.py:127-129 | passes iff both alignments have matching lengths; otherwise names the first label that fails |
| Manifest.ValidateMeta | tools/validate_and_manifest.py:73-98 | accepts exactly non-empty tickers, as many weights as tickers, windows of at least 1 and a percentile in (0, 1) |
| Manifest.MetaErrorsComplete | tools/validate_and_manifest.py:73-98 | every violated field constraint is reported; the length mismatch is reported only when all fields pass |
| Manifest.MetaErrorsSound | tools/validate_and_manifest.py:73-98 | every reported error names a constraint the configuration violates (no spurious error) |
| AlignByDate.AlignByIntersection | site/src/lib/alignByDate.ts:5-35 | an alignment on the shared dates; each `dropped` count is the number of rows the filter removed, never negative |
| AlignByDate.AlignedArraysMatchDates | site/src/lib/alignByDate.ts:14-22 | with unique dates in each input, the three arrays have one row per shared date |
| AlignByDate.RealignChangesNothing | site/src/lib/alignByDate.ts:10-33 | aligning the output again returns it unchanged and drops nothing |
| Confidence.ToNumber | site/src/utils/calculations/confidence.ts:16-17 | `Number(undefined)` is NaN, `Number(null)` is 0, an integer is itself |
| Confidence.MakeBand | site/src/utils/calculations/confidence.ts:19-24 | the band is symmetric: `upper - value == value - lower == z * stderr`, and brackets the value when `z * stderr >= 0` |
| Confidence.BandOf | site/src/utils/calculations/confidence.ts:15-25 | a row yields a band exactly when value and stderr are both finite |
| Confidence.ComputeConfidenceBands | site/src/utils/calculations/confidence.ts:8-27 | never more bands than rows |
| Confidence.PlottableRows | site/src/utils/calculations/confidence.ts:18 | exactly the rows whose value and stderr are finite |
| Confidence.BandsFollowPlottableRows | site/src/utils/calculations/confidence.ts:14-26 | one band per plottable row, in order, each that row's band |
| DataQuality.StatusFromMissingPct | site/src/utils/dataQuality.ts:3-7 | good iff below 5, warn iff in [5, 15], bad iff above 15 or NaN |
| DataQuality.StatusMonotone | site/src/utils/dataQuality.ts:3-7 | a larger missing percentage never gets a better status |
| DataQuality.StatusColor | site/src/utils/dataQuality.ts:9-13 | every status colour is a `#rrggbb` string of lower-case hexadecimal digits |
| DataQuality.ColorsDistinct | site/src/utils/dataQuality.ts:9-13 | different statuses get different colours |

## Left out

- Reading and writing parquet and JSON files, the pipeline driver and the printed report are I/O. The models start from in-memory tables and decoded JSON values.
- `attribution_from_parquets` (analysis/src/attribution.py:54-67) only loads, calls `compute_attribution` and writes. The load and write are I/O and are not modelled.
- Floating point is modelled by exact reals; rounding and overflow are not modelled. NaN and the infinities appear only where the source tests for them: JS comparisons, pandas `min`, the stress fraction, division by zero.
- The OLS fit, the sample standard deviation, the rolling quantile, `pow` and `sqrt` are parameters. Only their shapes are fixed: the fit returns one parameter per regressor plus the intercept.
- Regimes.SummaryOf: the per-regime means of the betas and of the explained return (analysis/src/regimes.py:79-89) are not modelled; only the column selection of line 86 is (see Findings). The model keeps the regime table, the drawdowns and the stress fraction.
- Regimes.ComputeRegimes checks the percentile as pandas' rolling quantile does: only when there are values, and a level of exactly 0 or 1 is accepted (it becomes a rolling minimum or maximum). A NaN percentile is not modelled.
- BuildFrames.SleeveWeights and BuildFrames.SleeveWeightsNormalized: a sleeve that lists a ticker twice gets one weight per occurrence. The dict comprehension in analysis/src/build_frames.py:16-17 keeps one weight per distinct ticker, and pandas alignment at line 21 then counts the duplicated column twice. The configured sleeves list distinct tickers (analysis/src/config.py:11-13).
- Regimes.RegimeWeights and BuildFrames.SleeveWeights return an error on a zero weight total. pandas would divide by zero and produce infinite or NaN weights.
- Frames.SortByDate is stable. pandas' default sort is not guaranteed stable on equal dates, and the model's results only rely on it for unique dates.
- Duplicate timestamps in `pd.concat(axis=1, join="inner")` make pandas raise. This is not modelled at any of its three call sites: the equity frames (analysis/src/build_frames.py:50 and :55), the attribution join (analysis/src/attribution.py:36) and the macro frame (analysis/src/build_frames.py:67). Their completeness lemmas require unique dates instead, while BuildFrames.MacroFrame and Attribution.AttributionOf join each row to the first row of the other table that carries its date.
- Lex orders strings by character code. This agrees with Python's `sorted` and with JavaScript's UTF-16 `sort()` on the ASCII dates involved.
- Schemas.CheckDate: Python's `\d` also matches non-ASCII digits; the model accepts only `0`-`9`.
- Portfolio.PeriodsPerYear: `freq.upper()` is modelled for ASCII letters only (`w`, `d`, `m` and their capitals). Python's full Unicode case mapping also turns a few other characters into a string starting with one of these letters, such as `ẘ` into `W` followed by a combining ring, which the source accepts as weekly and the model rejects.
- Schemas.NumericOrNull: in pydantic 2 the `"*"` field validator does not run on extra fields, so the rule is modelled as the value rule it states, not as a pass over a row. Pydantic's lax coercion of the fixed fields is not modelled.
- Schemas.NumericOrNull: Python's `float(int)` raises `OverflowError` beyond the double range; integers are converted exactly.
- Manifest.AlignByIntersection requires every row to be a dict with a string `date`. The `KeyError` for an undated row is not modelled, because the tools only align rows that `validate_dataset` accepted.
- Manifest.RequireListOfDicts checks only the first five rows, as the source does. A later row that is not a dict is caught by Manifest.RowDate (`NotSubscriptable` or `MissingDate`).
- Python and JavaScript iterate sets in an unspecified order, modelled as order of first occurrence. Every alignment sorts the shared dates afterwards, and Alignment.CommonUnique shows the result is independent of that order.
- Confidence.ToNumber: JavaScript's `Number` on strings, arrays and objects and `String` on the date are parameters (`coerce`, `show`); booleans are mapped to 1 and 0 directly. `zScore` is a real, and the band arithmetic does not overflow.
- Manifest.ValidateMeta: pydantic's coercion of JSON input into `Meta` (strings to numbers and similar) is not modelled. The model starts from typed fields.

## Findings

| source | as written | input that shows it | evidently intended | confidence | as-written member | corrected member |
|---|---|---|---|---|---|---|
| tools/schemas.py:8 | `DATE_RE.match` with `^...$`: `$` also matches before a final newline | the dates `"2024-01-05"` and `"2024-01-05\n"` both pass the date check and then the sorted/unique check, although they name one day | accept exactly ten-character `YYYY-MM-DD` strings (`fullmatch` or `\Z`) | not executed; high, documented behaviour of Python's `$` | Schemas.TrailingNewlineAccepted | Schemas.CheckDate |
| tools/schemas.py:108-111 | the key sets are read from `__dict__`, which in pydantic 2 holds only the declared field `date`; the extra `contrib_*` keys live in `__pydantic_extra__` | rows `{date: "2024-01-05", contrib_MKT_RF: 0.1}` and `{date: "2024-01-12"}` pass `validate_attrib_keys` | compare each row's full key set (`model_dump().keys()`) with the first row's | not executed; medium, rests on pydantic 2 storing extras outside `__dict__` | Schemas.KeyCheckAsWrittenNeverFails | Schemas.ValidateAttribKeys |
| analysis/src/regimes.py:86 | the per-regime means select `explained_share`, a column `compute_attribution` never writes (it writes `explained`) | any attribution table `compute_attribution` produces: `regimes_and_summary` raises `KeyError` before the drawdowns and stress fraction | average a column the attribution table has, such as `explained` | not executed; high that pandas raises, the intended column is a guess | Regimes.ExplainedShareMissing | Regimes.ExplainedMeansSelect |
