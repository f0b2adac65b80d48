/** The checks `tools/schemas.py` applies to the site's JSON outputs: the date format,
    sorted and unique date lists, the number-or-null rule for attribution values, one key
    set across attribution rows, and the alignment of the three datasets on shared dates. */
module Schemas {
  import opened Wrappers
  import opened Seqs
  import opened Lex
  import opened Floats
  import opened Json
  import opened Alignment

  // ---------------------------------------------------------------- date format

  predicate IsDigit(c: char)
  {
    '0' <= c <= '9'
  }

  /** `YYYY-MM-DD`: exactly ten characters, four digits, a dash, two digits, a dash, two digits. */
  predicate ValidDate(s: string)
  {
    |s| == 10 && s[4] == '-' && s[7] == '-' &&
    forall i :: 0 <= i < 10 && i != 4 && i != 7 ==> IsDigit(s[i])
  }

  /** What `DATE_RE.match(s)` accepts: `$` matches at the very end of `s` and also just
      before a final newline, so a valid date followed by one `\n` passes too. */
  predicate DateMatchAsWritten(s: string)
  {
    ValidDate(s) || (|s| == 11 && s[10] == '\n' && ValidDate(s[..10]))
  }

  function DigitValue(c: char): int
    requires IsDigit(c)
  {
    c as int - '0' as int
  }

  /** The calendar fields a date string spells: year, month and day. */
  function DateFields(s: string): (f: (int, int, int))
    requires ValidDate(s)
    ensures 0 <= f.0 <= 9999 && 0 <= f.1 <= 99 && 0 <= f.2 <= 99
  {
    (1000 * DigitValue(s[0]) + 100 * DigitValue(s[1]) + 10 * DigitValue(s[2]) + DigitValue(s[3]),
     10 * DigitValue(s[5]) + DigitValue(s[6]),
     10 * DigitValue(s[8]) + DigitValue(s[9]))
  }

  lemma DigitsDetermined(a: char, b: char, c: char, d: char)
    requires IsDigit(a) && IsDigit(b) && IsDigit(c) && IsDigit(d)
    requires 10 * DigitValue(a) + DigitValue(b) == 10 * DigitValue(c) + DigitValue(d)
    ensures a == c && b == d
  {
  }

  /** A four-digit numeral determines its digits. */
  lemma YearDigitsDetermined(a0: int, a1: int, a2: int, a3: int, b0: int, b1: int, b2: int, b3: int)
    requires 0 <= a0 <= 9 && 0 <= a1 <= 9 && 0 <= a2 <= 9 && 0 <= a3 <= 9
    requires 0 <= b0 <= 9 && 0 <= b1 <= 9 && 0 <= b2 <= 9 && 0 <= b3 <= 9
    requires 1000 * a0 + 100 * a1 + 10 * a2 + a3 == 1000 * b0 + 100 * b1 + 10 * b2 + b3
    ensures a0 == b0 && a1 == b1 && a2 == b2 && a3 == b3
  {
    assert a0 == b0;
    assert a1 == b1;
  }

  /** Under the intended check a calendar day has exactly one spelling, so the sorted
      and unique checks on date strings are checks on days. */
  lemma SameDayIsSameString(a: string, b: string)
    requires ValidDate(a) && ValidDate(b) && DateFields(a) == DateFields(b)
    ensures a == b
  {
    DigitsDetermined(a[8], a[9], b[8], b[9]);
    DigitsDetermined(a[5], a[6], b[5], b[6]);
    YearDigitsDetermined(DigitValue(a[0]), DigitValue(a[1]), DigitValue(a[2]), DigitValue(a[3]),
                         DigitValue(b[0]), DigitValue(b[1]), DigitValue(b[2]), DigitValue(b[3]));
    forall i | 0 <= i < 10 ensures a[i] == b[i] {
      if i != 4 && i != 7 {
        assert DigitValue(a[i]) == DigitValue(b[i]);
      }
    }
  }

  /** As written, `"2024-01-05\n"` passes the date check next to `"2024-01-05"`: two
      different strings for the same day. */
  lemma TrailingNewlineAccepted()
    ensures DateMatchAsWritten("2024-01-05") && DateMatchAsWritten("2024-01-05\n")
    ensures !ValidDate("2024-01-05\n")
    ensures DateFields("2024-01-05") == DateFields("2024-01-05\n"[..10])
  {
    assert "2024-01-05\n"[..10] == "2024-01-05";
  }

  /** ... and the unique-date check then counts them as two dates. */
  lemma TrailingNewlineDuplicatePasses()
    ensures AssertSortedUniqueDates(["2024-01-05", "2024-01-05\n"], "") == Pass
  {
    var a, b := "2024-01-05", "2024-01-05\n";
    assert b == a + "\n";
    assert Increasing([a, b]) by {
      LessProperPrefix(a, "\n");
    }
    SortedUniqueChecks([a, b], "");
  }

  datatype SchemaError =
    | InvalidDateFormat(value: string)
    | NotSorted(name: string)
    | Duplicates(name: string)
    | NotNumberOrNull(field: string, typeName: string)

  /** The `date` field validator of `ExposureRow`, `RegimeRow` and `AttribRow`, with the
      anchored check. */
  function CheckDate(v: string): (r: Result<string, SchemaError>)
    ensures r.Ok? <==> ValidDate(v)
    ensures r.Ok? ==> r.value == v && DateFields(v).0 >= 0
    ensures r.Err? ==> r.error == InvalidDateFormat(v)
  {
    if ValidDate(v) then Ok(v) else Err(InvalidDateFormat(v))
  }

  // ---------------------------------------------------------------- sorted, unique

  /** `assert_sorted_unique_dates`: the order is checked before the duplicates. */
  function AssertSortedUniqueDates(dates: seq<string>, name: string): Outcome<SchemaError>
  {
    if dates != Sort(dates) then Fail(NotSorted(name))
    else if |dates| != |ToSet(dates)| then Fail(Duplicates(name))
    else Pass
  }

  /** The check passes exactly on strictly increasing lists; a list out of order is
      reported as unsorted whether or not it also repeats a date, and a sorted list with
      a repeat is reported as having duplicates. */
  lemma SortedUniqueChecks(dates: seq<string>, name: string)
    ensures AssertSortedUniqueDates(dates, name) == Pass <==> Increasing(dates)
    ensures AssertSortedUniqueDates(dates, name) == Fail(NotSorted(name)) <==> !Sorted(dates)
    ensures AssertSortedUniqueDates(dates, name) == Fail(Duplicates(name)) <==> Sorted(dates) && !Distinct(dates)
  {
    if Sorted(dates) {
      SortOfSorted(dates);
    }
    ToSetCardinality(dates);
    IncreasingIsSortedAndDistinct(dates);
  }

  // ---------------------------------------------------------------- numeric or null

  /** The number a JSON scalar stands for in Python arithmetic (`True` is 1). */
  function NumberOf(v: Value): Num
    requires v.Bool? || v.Int? || v.Float?
  {
    match v
    case Bool(b) => Finite(if b then 1.0 else 0.0)
    case Int(i) => Finite(i as real)
    case Float(x) => x
  }

  /** `numeric_or_null_for_non_date`: `date` passes untouched; for any other field null
      stays null, an int or a float (a bool counts as an int) becomes a float, and
      anything else is rejected with the value's type name. */
  function NumericOrNull(field: string, v: Value): (r: Result<Value, SchemaError>)
    ensures field == "date" ==> r == Ok(v)
    ensures field != "date" ==> (r.Ok? <==> v.Null? || v.Bool? || v.Int? || v.Float?)
    ensures field != "date" && r.Ok? ==>
              (v.Null? ==> r.value == Null) &&
              (!v.Null? ==> r.value.Float? && r.value.x == NumberOf(v))
    ensures r.Err? ==> r.error == NotNumberOrNull(field, TypeName(v))
  {
    if field == "date" then Ok(v)
    else match v
      case Null => Ok(v)
      case Bool(b) => Ok(Float(Finite(if b then 1.0 else 0.0)))
      case Int(i) => Ok(Float(Finite(i as real)))
      case Float(_) => Ok(v)
      case _ => Err(NotNumberOrNull(field, TypeName(v)))
  }

  /** Validating a value the rule has already accepted changes nothing. */
  lemma NumericOrNullIdempotent(field: string, v: Value)
    requires NumericOrNull(field, v).Ok?
    ensures NumericOrNull(field, NumericOrNull(field, v).value) == NumericOrNull(field, v)
  {
  }

  // ---------------------------------------------------------------- attribution keys

  /** A validated attribution row: its date and the other keys it carries (`contrib_*`,
      `explained`, `residual`, ...), in the order they appear. */
  datatype AttribRow = AttribRow(date: string, extraKeys: seq<string>)

  /** The row's key set, `date` included, as the check means to compare it. */
  function Keys(r: AttribRow): seq<string>
  {
    ["date"] + r.extraKeys
  }

  predicate SameKeys(a: AttribRow, b: AttribRow)
  {
    ToSet(Keys(a)) == ToSet(Keys(b))
  }

  /** `sorted(set(a) - set(b))`. */
  function SortedDifference(a: seq<string>, b: seq<string>): (d: seq<string>)
    ensures Increasing(d)
    ensures ToSet(d) == ToSet(a) - ToSet(b)
  {
    var notInB := k => k !in b;
    var only := Filter(Dedup(a), notInB);
    FilterDistinct(Dedup(a), notInB);
    FilterDedupMembers(a, notInB);
    assert ToSet(only) == ToSet(a) - ToSet(b);
    SortDistinct(only);
    Sort(only)
  }

  /** `xs[:10]`. */
  function FirstTen(xs: seq<string>): (r: seq<string>)
    ensures |r| <= 10 && r <= xs
    ensures |xs| <= 10 ==> r == xs
  {
    if |xs| <= 10 then xs else xs[..10]
  }

  datatype KeyMismatch = KeyMismatch(name: string, row: nat, date: string, missing: seq<string>, extra: seq<string>)

  /** The error raised for row `i`: the keys row 0 has and row `i` lacks, and the keys row
      `i` has and row 0 lacks, each sorted and cut to ten. */
  function MismatchAt(rows: seq<AttribRow>, i: nat, name: string): (e: KeyMismatch)
    requires 1 <= i < |rows|
    ensures e.row == i && e.date == rows[i].date && e.name == name
    ensures |e.missing| <= 10 && |e.extra| <= 10
    ensures forall k :: k in e.missing ==> k in Keys(rows[0]) && k !in Keys(rows[i])
    ensures forall k :: k in e.extra ==> k in Keys(rows[i]) && k !in Keys(rows[0])
  {
    var missing := SortedDifference(Keys(rows[0]), Keys(rows[i]));
    var extra := SortedDifference(Keys(rows[i]), Keys(rows[0]));
    assert forall k :: k in FirstTen(missing) ==> k in ToSet(missing);
    assert forall k :: k in FirstTen(extra) ==> k in ToSet(extra);
    KeyMismatch(name, i, rows[i].date, FirstTen(missing), FirstTen(extra))
  }

  /** A mismatch always names at least one key, and when fewer than ten keys differ in a
      direction it names all of them. */
  lemma MismatchNamesKeys(rows: seq<AttribRow>, i: nat, name: string)
    requires 1 <= i < |rows| && !SameKeys(rows[i], rows[0])
    ensures MismatchAt(rows, i, name).missing != [] || MismatchAt(rows, i, name).extra != []
    ensures |ToSet(Keys(rows[0])) - ToSet(Keys(rows[i]))| <= 10 ==>
              ToSet(MismatchAt(rows, i, name).missing) == ToSet(Keys(rows[0])) - ToSet(Keys(rows[i]))
  {
    var missing := SortedDifference(Keys(rows[0]), Keys(rows[i]));
    var extra := SortedDifference(Keys(rows[i]), Keys(rows[0]));
    IncreasingIsSortedAndDistinct(missing);
    ToSetCardinality(missing);
  }

  /** `validate_attrib_keys`: walks rows 1, 2, ... and stops at the first whose key set
      differs from row 0's. */
  method ValidateAttribKeys(rows: seq<AttribRow>, name: string) returns (o: Outcome<KeyMismatch>)
    ensures o.Pass? <==> forall j :: 1 <= j < |rows| ==> SameKeys(rows[j], rows[0])
    ensures o.Fail? ==> 1 <= o.error.row < |rows| && o.error == MismatchAt(rows, o.error.row, name)
    ensures o.Fail? ==> !SameKeys(rows[o.error.row], rows[0]) &&
                        forall j :: 1 <= j < o.error.row ==> SameKeys(rows[j], rows[0])
  {
    if rows == [] {
      return Pass;
    }
    var i := 1;
    while i < |rows|
      invariant 1 <= i <= |rows|
      invariant forall j :: 1 <= j < i ==> SameKeys(rows[j], rows[0])
    {
      if !SameKeys(rows[i], rows[0]) {
        return Fail(MismatchAt(rows, i, name));
      }
      i := i + 1;
    }
    return Pass;
  }

  /** The keys of `r.__dict__` as written. Pydantic 2 keeps the keys an `extra="allow"`
      model accepts beyond its declared fields in `__pydantic_extra__`, not in `__dict__`,
      so every row shows only `date`. */
  function DictKeysAsWritten(r: AttribRow): seq<string>
  {
    ["date"]
  }

  /** The key comparison as written never fails: rows that disagree on their attribution
      keys still pass. */
  lemma KeyCheckAsWrittenNeverFails(rows: seq<AttribRow>)
    ensures forall j :: 0 <= j < |rows| ==> ToSet(DictKeysAsWritten(rows[j])) == ToSet(DictKeysAsWritten(rows[0]))
    ensures var two := [AttribRow("2024-01-05", ["contrib_MKT_RF"]), AttribRow("2024-01-12", [])];
            !SameKeys(two[1], two[0])
  {
    var two := [AttribRow("2024-01-05", ["contrib_MKT_RF"]), AttribRow("2024-01-12", [])];
    assert "contrib_MKT_RF" in ToSet(Keys(two[0]));
    assert "contrib_MKT_RF" !in ToSet(Keys(two[1]));
  }

  // ---------------------------------------------------------------- alignment

  datatype ExposureRow = ExposureRow(date: string, alpha: real, r2: real, nobs: int,
                                     betaMktRf: real, betaSmb: real, betaHml: real)

  datatype RegimeLabel = Calm | Stress

  datatype RegimeRow = RegimeRow(date: string, regime: RegimeLabel, vol: real, volThresh: real)

  function ExposureDate(r: ExposureRow): string { r.date }
  function AttribDate(r: AttribRow): string { r.date }
  function RegimeDate(r: RegimeRow): string { r.date }

  datatype Aligned = Aligned(common: seq<string>, ex: seq<ExposureRow>, at: seq<AttribRow>, rg: seq<RegimeRow>)

  datatype AlignError = InconsistentLengths

  /** `align_by_intersection`: the sorted shared dates, each list cut to them, and an
      error when the three cut lists and the date list differ in length. */
  function AlignByIntersection(exposures: seq<ExposureRow>, attribution: seq<AttribRow>, regimes: seq<RegimeRow>)
    : (r: Result<Aligned, AlignError>)
    ensures r.Ok? ==> IsAlignment(r.value.common, r.value.ex, r.value.at, r.value.rg,
                                  exposures, ExposureDate, attribution, AttribDate, regimes, RegimeDate)
    ensures r.Ok? ==> |r.value.ex| == |r.value.at| == |r.value.rg| == |r.value.common|
  {
    var common := CommonDates(Dates(exposures, ExposureDate), Dates(attribution, AttribDate), Dates(regimes, RegimeDate));
    var ex := Keep(exposures, ExposureDate, common);
    var at := Keep(attribution, AttribDate, common);
    var rg := Keep(regimes, RegimeDate, common);
    if !(|ex| == |at| == |rg| == |common|) then Err(InconsistentLengths)
    else Ok(Aligned(common, ex, at, rg))
  }

  /** With unique dates in each input the length check cannot raise. */
  lemma AlignByIntersectionSucceeds(exposures: seq<ExposureRow>, attribution: seq<AttribRow>, regimes: seq<RegimeRow>)
    requires Distinct(Dates(exposures, ExposureDate))
    requires Distinct(Dates(attribution, AttribDate))
    requires Distinct(Dates(regimes, RegimeDate))
    ensures AlignByIntersection(exposures, attribution, regimes).Ok?
  {
    var common := CommonDates(Dates(exposures, ExposureDate), Dates(attribution, AttribDate), Dates(regimes, RegimeDate));
    AlignedLengths(common, Keep(exposures, ExposureDate, common), Keep(attribution, AttribDate, common),
                   Keep(regimes, RegimeDate, common), exposures, ExposureDate, attribution, AttribDate, regimes, RegimeDate);
  }
}
