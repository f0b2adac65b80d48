/** The checks `tools/validate_and_manifest.py` runs before writing the site's manifest:
    each dataset is a list of rows with string dates, strictly increasing; the meta
    configuration respects its bounds; the datasets align on their shared dates. */
module Manifest {
  import opened Wrappers
  import opened Seqs
  import opened Lex
  import opened Json
  import opened Alignment

  // ---------------------------------------------------------------- sorted, unique

  /** `is_sorted_unique`: whether the list equals its sorted copy, and whether it has no
      repeated date. */
  function IsSortedUnique(dates: seq<string>): (bool, bool)
  {
    (dates == Sort(dates), |dates| == |ToSet(dates)|)
  }

  /** The first flag is sortedness, the second uniqueness, and both together mean the list
      is strictly increasing. */
  lemma IsSortedUniqueMeaning(dates: seq<string>)
    ensures IsSortedUnique(dates).0 <==> Sorted(dates)
    ensures IsSortedUnique(dates).1 <==> Distinct(dates)
    ensures IsSortedUnique(dates) == (true, true) <==> Increasing(dates)
  {
    if Sorted(dates) {
      SortOfSorted(dates);
    }
    ToSetCardinality(dates);
    IncreasingIsSortedAndDistinct(dates);
  }

  // ---------------------------------------------------------------- rows and dates

  /** What is wrong with one row. `NotSubscriptable` is the `TypeError` Python raises when
      a row beyond the first five is not a dict and `r["date"]` or `"date" in r` cannot be
      evaluated on it. */
  datatype RowProblem = NotDict(typeName: string) | MissingDate | DateNotString | NotSubscriptable(typeName: string)

  datatype ValidationError =
    | NotAList(name: string, typeName: string)
    | RowError(name: string, row: nat, problem: RowProblem)
    | DatesNotSortedUnique(name: string, sortedOk: bool, uniqueOk: bool)
    | NoRows(name: string)

  /** `require_list_of_dicts`: the object must be a list, and only its first five rows are
      checked to be dicts. */
  method RequireListOfDicts(name: string, obj: Value) returns (r: Result<seq<Value>, ValidationError>)
    ensures !obj.List? ==> r == Err(NotAList(name, TypeName(obj)))
    ensures obj.List? ==> (r.Ok? <==> forall i :: 0 <= i < |obj.items| && i < 5 ==> obj.items[i].Object?)
    ensures r.Ok? ==> r.value == obj.items
    ensures obj.List? && r.Err? ==>
              r.error.RowError? && r.error.name == name && r.error.row < 5 && r.error.row < |obj.items| &&
              r.error.problem == NotDict(TypeName(obj.items[r.error.row])) &&
              !obj.items[r.error.row].Object? &&
              forall j :: 0 <= j < r.error.row ==> obj.items[j].Object?
  {
    if !obj.List? {
      return Err(NotAList(name, TypeName(obj)));
    }
    var head := if |obj.items| < 5 then |obj.items| else 5;
    for i := 0 to head
      invariant forall j :: 0 <= j < i ==> obj.items[j].Object?
    {
      if !obj.items[i].Object? {
        return Err(RowError(name, i, NotDict(TypeName(obj.items[i]))));
      }
    }
    return Ok(obj.items);
  }

  /** `t` occurs in `s` as a contiguous piece: Python's `t in s` on strings. */
  predicate Contains(s: string, t: string)
  {
    t <= s || (s != [] && Contains(s[1..], t))
  }

  /** One row's date, or what goes wrong reading it: `"date" not in r` is checked before
      `isinstance(r["date"], str)`. On a list or a string `in` is membership or substring
      search, and indexing either with `"date"` raises; any other scalar raises at `in`. */
  function RowDate(row: Value): (d: Result<string, RowProblem>)
    ensures d.Ok? <==> HasDate(row)
    ensures d.Ok? ==> d.value == DateField(row)
  {
    match row
    case Object(fields) =>
      if "date" !in fields then Err(MissingDate)
      else if !fields["date"].Str? then Err(DateNotString)
      else Ok(fields["date"].s)
    case List(items) =>
      if Str("date") in items then Err(NotSubscriptable(TypeName(row))) else Err(MissingDate)
    case Str(s) =>
      if Contains(s, "date") then Err(NotSubscriptable(TypeName(row))) else Err(MissingDate)
    case _ => Err(NotSubscriptable(TypeName(row)))
  }

  /** A dict row whose `date` is a string. */
  predicate HasDate(row: Value)
  {
    row.Object? && "date" in row.fields && row.fields["date"].Str?
  }

  /** `r["date"]` for a row that has a string date. */
  function DateField(row: Value): string
  {
    if HasDate(row) then row.fields["date"].s else ""
  }

  /** `require_dates`: collects the dates in row order, stopping at the first row without
      a string date. */
  method RequireDates(name: string, rows: seq<Value>) returns (r: Result<seq<string>, ValidationError>)
    ensures r.Ok? <==> forall i :: 0 <= i < |rows| ==> HasDate(rows[i])
    ensures r.Ok? ==> r.value == Dates(rows, DateField)
    ensures r.Err? ==>
              r.error.RowError? && r.error.name == name && r.error.row < |rows| &&
              RowDate(rows[r.error.row]) == Err(r.error.problem) &&
              forall j :: 0 <= j < r.error.row ==> HasDate(rows[j])
  {
    var dates: seq<string> := [];
    for i := 0 to |rows|
      invariant dates == Dates(rows[..i], DateField)
      invariant forall j :: 0 <= j < i ==> HasDate(rows[j])
    {
      var d := RowDate(rows[i]);
      if d.Err? {
        return Err(RowError(name, i, d.error));
      }
      dates := dates + [d.value];
    }
    assert rows[..|rows|] == rows;
    return Ok(dates);
  }

  // ---------------------------------------------------------------- datasets

  datatype Dataset = Dataset(rows: seq<Value>, n: nat, start: string, end: string)

  /** What a dataset that passed validation satisfies: every row has a string date, the
      dates are strictly increasing, `n` counts the rows and `start`/`end` are the first
      and last dates. */
  ghost predicate Validated(d: Dataset)
  {
    (forall i :: 0 <= i < |d.rows| ==> HasDate(d.rows[i])) &&
    Increasing(Dates(d.rows, DateField)) &&
    d.n == |d.rows| && d.n > 0 &&
    d.start == DateField(d.rows[0]) && d.end == DateField(d.rows[|d.rows| - 1])
  }

  /** `validate_dataset`: the list and row checks, then the sorted/unique check, then the
      summary. An empty list passes the checks, and `dates[0]` then raises: `NoRows`. */
  method ValidateDataset(name: string, obj: Value) returns (r: Result<Dataset, ValidationError>)
    ensures r.Ok? <==>
              obj.List? && (forall i :: 0 <= i < |obj.items| && i < 5 ==> obj.items[i].Object?) &&
              (forall i :: 0 <= i < |obj.items| ==> HasDate(obj.items[i])) &&
              Increasing(Dates(obj.items, DateField)) && obj.items != []
    ensures r.Ok? ==> r.value.rows == obj.items && Validated(r.value) && Leq(r.value.start, r.value.end)
    ensures r.Err? && r.error.DatesNotSortedUnique? ==>
              obj.List? &&
              r.error.sortedOk == Sorted(Dates(obj.items, DateField)) &&
              r.error.uniqueOk == Distinct(Dates(obj.items, DateField)) &&
              !Increasing(Dates(obj.items, DateField))
  {
    var rows :- RequireListOfDicts(name, obj);
    var dates :- RequireDates(name, rows);
    var flags := IsSortedUnique(dates);
    IsSortedUniqueMeaning(dates);
    if !flags.0 || !flags.1 {
      return Err(DatesNotSortedUnique(name, flags.0, flags.1));
    }
    if |dates| == 0 {
      return Err(NoRows(name));
    }
    if |dates| > 1 {
      assert Less(dates[0], dates[|dates| - 1]);
    }
    return Ok(Dataset(rows, |rows|, dates[0], dates[|dates| - 1]));
  }

  // ---------------------------------------------------------------- alignment

  datatype AlignedManifest = AlignedManifest(exposures: seq<Value>, attribution: seq<Value>, regimes: seq<Value>,
                                             start: Option<string>, end: Option<string>, alignedN: nat)

  /** The rows `main` passes in: all carry a string date. */
  predicate AllDated(rows: seq<Value>)
  {
    forall i :: 0 <= i < |rows| ==> HasDate(rows[i])
  }

  /** `align_by_intersection` of the manifest tool: the three lists cut to the shared
      dates, the first and last shared date (None when there is none) and their count. */
  function AlignByIntersection(exposures: seq<Value>, attribution: seq<Value>, regimes: seq<Value>)
    : (m: AlignedManifest)
    requires AllDated(exposures) && AllDated(attribution) && AllDated(regimes)
    ensures var common := CommonDates(Dates(exposures, DateField), Dates(attribution, DateField), Dates(regimes, DateField));
            IsAlignment(common, m.exposures, m.attribution, m.regimes,
                        exposures, DateField, attribution, DateField, regimes, DateField) &&
            m.alignedN == |common| &&
            (m.start.None? <==> common == []) && (m.end.None? <==> common == []) &&
            (m.start.Some? ==> m.start.value in common && forall d :: d in common ==> Leq(m.start.value, d)) &&
            (m.end.Some? ==> m.end.value in common && forall d :: d in common ==> Leq(d, m.end.value))
  {
    var common := CommonDates(Dates(exposures, DateField), Dates(attribution, DateField), Dates(regimes, DateField));
    IncreasingEnds(common);
    AlignedManifest(Keep(exposures, DateField, common), Keep(attribution, DateField, common), Keep(regimes, DateField, common),
                    if common == [] then None else Some(common[0]),
                    if common == [] then None else Some(common[|common| - 1]),
                    |common|)
  }

  /** The first element of a strictly increasing list is its least, the last its greatest. */
  lemma IncreasingEnds(c: seq<string>)
    requires Increasing(c)
    ensures c != [] ==> forall d :: d in c ==> Leq(c[0], d) && Leq(d, c[|c| - 1])
  {
  }

  /** The sanity check in `main`: the three aligned lists have the same length. */
  predicate LengthsMatch(m: AlignedManifest)
  {
    |m.exposures| == |m.attribution| == |m.regimes|
  }

  /** Datasets that passed `validate_dataset` have unique dates, so their alignment always
      passes the length check in `main`. */
  lemma ValidatedDatasetsAlign(e: Dataset, a: Dataset, r: Dataset)
    requires Validated(e) && Validated(a) && Validated(r)
    ensures LengthsMatch(AlignByIntersection(e.rows, a.rows, r.rows))
  {
    var common := CommonDates(Dates(e.rows, DateField), Dates(a.rows, DateField), Dates(r.rows, DateField));
    IncreasingIsSortedAndDistinct(Dates(e.rows, DateField));
    IncreasingIsSortedAndDistinct(Dates(a.rows, DateField));
    IncreasingIsSortedAndDistinct(Dates(r.rows, DateField));
    var m := AlignByIntersection(e.rows, a.rows, r.rows);
    AlignedLengths(common, m.exposures, m.attribution, m.regimes, e.rows, DateField, a.rows, DateField, r.rows, DateField);
  }

  /** The loop over `("US", aligned_us)` and `("INTL", aligned_intl)` in `main`: the first
      label whose lengths differ is reported. */
  method CheckAlignedCounts(us: AlignedManifest, intl: AlignedManifest) returns (o: Outcome<string>)
    ensures o.Pass? <==> LengthsMatch(us) && LengthsMatch(intl)
    ensures o.Fail? ==> (o.error == "US" && !LengthsMatch(us)) ||
                        (o.error == "INTL" && LengthsMatch(us) && !LengthsMatch(intl))
  {
    var checks := [("US", us), ("INTL", intl)];
    assert checks[0].1 == us && checks[1].1 == intl;
    for i := 0 to |checks|
      invariant forall j :: 0 <= j < i ==> LengthsMatch(checks[j].1)
    {
      if !LengthsMatch(checks[i].1) {
        return Fail(checks[i].0);
      }
    }
    return Pass;
  }

  // ---------------------------------------------------------------- meta

  datatype RegimeCfg = RegimeCfg(volWindowWeeks: int, percentile: real, lookbackWeeks: int)

  datatype Meta = Meta(tickers: seq<string>, weights: seq<real>, frequency: string,
                       rollingWindowWeeks: int, minNobs: int, regime: RegimeCfg)

  datatype MetaError =
    | TickersEmpty
    | RollingWindowBelowOne
    | MinNobsBelowOne
    | VolWindowBelowOne
    | PercentileOutOfRange
    | LookbackBelowOne
    | LengthMismatch(tickers: nat, weights: nat)

  /** The field constraints of `RegimeCfg`, in field order. */
  function RegimeCfgErrors(c: RegimeCfg): seq<MetaError>
  {
    (if c.volWindowWeeks < 1 then [VolWindowBelowOne] else []) +
    (if !(0.0 < c.percentile < 1.0) then [PercentileOutOfRange] else []) +
    (if c.lookbackWeeks < 1 then [LookbackBelowOne] else [])
  }

  /** The field validators of `Meta`, in field order; pydantic reports every failing
      field together. */
  function MetaFieldErrors(m: Meta): seq<MetaError>
  {
    (if m.tickers == [] then [TickersEmpty] else []) +
    (if m.rollingWindowWeeks < 1 then [RollingWindowBelowOne] else []) +
    (if m.minNobs < 1 then [MinNobsBelowOne] else []) +
    RegimeCfgErrors(m.regime)
  }

  /** `Meta.model_validate` on typed input: the field errors, and only when there are none
      the after-validator comparing the lengths of `tickers` and `weights`. */
  function ValidateMeta(m: Meta): (r: Result<Meta, seq<MetaError>>)
    ensures r.Ok? <==>
              |m.tickers| > 0 && |m.tickers| == |m.weights| &&
              m.rollingWindowWeeks >= 1 && m.minNobs >= 1 &&
              m.regime.volWindowWeeks >= 1 && 0.0 < m.regime.percentile < 1.0 && m.regime.lookbackWeeks >= 1
    ensures r.Ok? ==> r.value == m
    ensures r.Err? ==> r.error != []
  {
    var errors := MetaFieldErrors(m);
    if errors != [] then Err(errors)
    else if |m.tickers| != |m.weights| then Err([LengthMismatch(|m.tickers|, |m.weights|)])
    else Ok(m)
  }

  /** The constraint error `e` names is violated by `m`. */
  predicate Violated(m: Meta, e: MetaError)
  {
    match e
    case TickersEmpty => m.tickers == []
    case RollingWindowBelowOne => m.rollingWindowWeeks < 1
    case MinNobsBelowOne => m.minNobs < 1
    case VolWindowBelowOne => m.regime.volWindowWeeks < 1
    case PercentileOutOfRange => !(0.0 < m.regime.percentile < 1.0)
    case LookbackBelowOne => m.regime.lookbackWeeks < 1
    case LengthMismatch(t, w) => t == |m.tickers| && w == |m.weights| && t != w
  }

  /** Every violated field constraint is named, and a length mismatch is reported only on
      a configuration whose fields are all valid. */
  lemma MetaErrorsComplete(m: Meta)
    ensures m.tickers == [] ==> ValidateMeta(m).Err? && TickersEmpty in ValidateMeta(m).error
    ensures m.rollingWindowWeeks < 1 ==> ValidateMeta(m).Err? && RollingWindowBelowOne in ValidateMeta(m).error
    ensures m.minNobs < 1 ==> ValidateMeta(m).Err? && MinNobsBelowOne in ValidateMeta(m).error
    ensures m.regime.volWindowWeeks < 1 ==> ValidateMeta(m).Err? && VolWindowBelowOne in ValidateMeta(m).error
    ensures !(0.0 < m.regime.percentile < 1.0) ==> ValidateMeta(m).Err? && PercentileOutOfRange in ValidateMeta(m).error
    ensures m.regime.lookbackWeeks < 1 ==> ValidateMeta(m).Err? && LookbackBelowOne in ValidateMeta(m).error
    ensures ValidateMeta(m).Err? && LengthMismatch(|m.tickers|, |m.weights|) in ValidateMeta(m).error ==>
              ValidateMeta(m).error == [LengthMismatch(|m.tickers|, |m.weights|)] && MetaFieldErrors(m) == []
  {
  }

  /** Every error `ValidateMeta` reports names a constraint the configuration violates. */
  lemma MetaErrorsSound(m: Meta)
    ensures ValidateMeta(m).Err? ==> forall e :: e in ValidateMeta(m).error ==> Violated(m, e)
  {
    var c := m.regime;
    var regime := RegimeCfgErrors(c);
    assert forall e :: e in regime ==> Violated(m, e) by {
      assert regime == (if c.volWindowWeeks < 1 then [VolWindowBelowOne] else []) +
                       (if !(0.0 < c.percentile < 1.0) then [PercentileOutOfRange] else []) +
                       (if c.lookbackWeeks < 1 then [LookbackBelowOne] else []);
    }
    var fields := MetaFieldErrors(m);
    assert forall e :: e in fields ==> Violated(m, e) by {
      assert fields == (if m.tickers == [] then [TickersEmpty] else []) +
                       (if m.rollingWindowWeeks < 1 then [RollingWindowBelowOne] else []) +
                       (if m.minNobs < 1 then [MinNobsBelowOne] else []) +
                       regime;
    }
  }
}
