/** `computeConfidenceBands` of the site (`site/src/utils/calculations/confidence.ts`):
    a band `value ± z·stderr` for every row whose value and standard error are finite
    numbers, in row order. */
module Confidence {
  import opened Wrappers
  import opened Seqs
  import opened Floats
  import opened Json

  /** A parsed JSON row: field name to value. */
  type Row = map<string, Value>

  datatype Band = Band(date: string, value: real, lower: real, upper: real)

  /** The z-score the site uses when none is given. */
  const DefaultZ: real := 1.96

  /** `row[key]`, `undefined` (None) when the row has no such field. */
  function Lookup(row: Row, key: string): Option<Value>
  {
    if key in row then Some(row[key]) else None
  }

  /** JavaScript's `Number(x)`: `undefined` is NaN, `null` is 0, a boolean is 1 or 0, a
      number is itself; strings, arrays and objects are converted by `coerce`. */
  function ToNumber(v: Option<Value>, coerce: Value -> Num): (n: Num)
    ensures v.None? ==> n == NaN
    ensures v == Some(Null) ==> n == Finite(0.0)
    ensures v.Some? && v.value.Int? ==> n == Finite(v.value.i as real)
  {
    match v
    case None => NaN
    case Some(Null) => Finite(0.0)
    case Some(Bool(b)) => Finite(if b then 1.0 else 0.0)
    case Some(Int(i)) => Finite(i as real)
    case Some(Float(x)) => x
    case Some(other) => coerce(other)
  }

  /** JavaScript's `String(x)`: a string is itself; anything else is converted by `show`. */
  function ToText(v: Option<Value>, show: Option<Value> -> string): string
  {
    if v.Some? && v.value.Str? then v.value.s else show(v)
  }

  /** The row survives: both its value and its standard error are finite numbers. */
  predicate Plottable(row: Row, valueKey: string, stderrKey: string, coerce: Value -> Num)
  {
    IsFinite(ToNumber(Lookup(row, valueKey), coerce)) && IsFinite(ToNumber(Lookup(row, stderrKey), coerce))
  }

  /** The band around `value`: it reaches `z·stderr` to each side, so it is symmetric, and
      it contains the value whenever that reach is not negative. */
  function MakeBand(date: string, value: real, stderr: real, z: real): (b: Band)
    ensures b.date == date && b.value == value
    ensures b.upper - b.value == z * stderr && b.value - b.lower == z * stderr
    ensures b.upper - b.value == b.value - b.lower
    ensures z * stderr >= 0.0 ==> b.lower <= b.value <= b.upper
  {
    Band(date, value, value - z * stderr, value + z * stderr)
  }

  /** The `map` callback: a band, or `null` for a row that cannot be plotted. */
  function BandOf(row: Row, valueKey: string, stderrKey: string, z: real,
                  coerce: Value -> Num, show: Option<Value> -> string): (b: Option<Band>)
    ensures b.Some? <==> Plottable(row, valueKey, stderrKey, coerce)
  {
    var value := ToNumber(Lookup(row, valueKey), coerce);
    var stderr := ToNumber(Lookup(row, stderrKey), coerce);
    if !IsFinite(value) || !IsFinite(stderr) then None
    else Some(MakeBand(ToText(Lookup(row, "date"), show), value.r, stderr.r, z))
  }

  /** `rows.map(...).filter(row => row !== null)`. */
  function ComputeConfidenceBands(rows: seq<Row>, valueKey: string, stderrKey: string,
                                  coerce: Value -> Num, show: Option<Value> -> string,
                                  zScore: real := DefaultZ): (bands: seq<Band>)
    ensures |bands| <= |rows|
  {
    if rows == [] then []
    else
      var rest := ComputeConfidenceBands(rows[1..], valueKey, stderrKey, coerce, show, zScore);
      match BandOf(rows[0], valueKey, stderrKey, zScore, coerce, show)
      case None => rest
      case Some(b) => [b] + rest
  }

  /** The rows that survive, in their input order. */
  function PlottableRows(rows: seq<Row>, valueKey: string, stderrKey: string, coerce: Value -> Num): (kept: seq<Row>)
    ensures forall i :: 0 <= i < |kept| ==> Plottable(kept[i], valueKey, stderrKey, coerce)
    ensures forall i :: 0 <= i < |rows| && Plottable(rows[i], valueKey, stderrKey, coerce) ==> rows[i] in kept
  {
    Filter(rows, r => Plottable(r, valueKey, stderrKey, coerce))
  }

  /** The bands are exactly one band per plottable row, in row order: a row is dropped
      if and only if its value or its standard error is not finite. */
  lemma {:induction false} BandsFollowPlottableRows(rows: seq<Row>, valueKey: string, stderrKey: string,
                                                    coerce: Value -> Num, show: Option<Value> -> string, z: real)
    ensures var kept := PlottableRows(rows, valueKey, stderrKey, coerce);
            var bands := ComputeConfidenceBands(rows, valueKey, stderrKey, coerce, show, z);
            |bands| == |kept| &&
            forall i :: 0 <= i < |kept| ==> Some(bands[i]) == BandOf(kept[i], valueKey, stderrKey, z, coerce, show)
  {
    if rows != [] {
      BandsFollowPlottableRows(rows[1..], valueKey, stderrKey, coerce, show, z);
      var keptRest := PlottableRows(rows[1..], valueKey, stderrKey, coerce);
      var bandsRest := ComputeConfidenceBands(rows[1..], valueKey, stderrKey, coerce, show, z);
      var kept := PlottableRows(rows, valueKey, stderrKey, coerce);
      var bands := ComputeConfidenceBands(rows, valueKey, stderrKey, coerce, show, z);
      if Plottable(rows[0], valueKey, stderrKey, coerce) {
        assert kept == [rows[0]] + keptRest;
        assert bands == [BandOf(rows[0], valueKey, stderrKey, z, coerce, show).value] + bandsRest;
        forall i | 0 <= i < |kept|
          ensures Some(bands[i]) == BandOf(kept[i], valueKey, stderrKey, z, coerce, show)
        {
          if i > 0 {
            assert kept[i] == keptRest[i - 1] && bands[i] == bandsRest[i - 1];
          }
        }
      } else {
        assert kept == keptRest;
        assert bands == bandsRest;
      }
    }
  }
}
