/** The data-quality badge of the site (`site/src/utils/dataQuality.ts`): a status from
    the percentage of missing values, and the colour that shows it. `pct` is a JavaScript
    number, so it may be NaN or infinite; every comparison with NaN is false. */
module DataQuality {
  import opened Floats

  datatype QualityStatus = Good | Warn | Bad

  /** `pct < x` in JavaScript. */
  predicate Below(pct: Num, x: real)
  {
    pct == NegInf || (pct.Finite? && pct.r < x)
  }

  /** `pct <= x` in JavaScript. */
  predicate AtMost(pct: Num, x: real)
  {
    pct == NegInf || (pct.Finite? && pct.r <= x)
  }

  /** `statusFromMissingPct`: below 5 is good, 5 to 15 inclusive is a warning, anything
      else (above 15, +Infinity, NaN) is bad. */
  function StatusFromMissingPct(pct: Num): (s: QualityStatus)
    ensures s == Good <==> pct == NegInf || (pct.Finite? && pct.r < 5.0)
    ensures s == Warn <==> pct.Finite? && 5.0 <= pct.r <= 15.0
    ensures s == Bad <==> pct == NaN || pct == PosInf || (pct.Finite? && pct.r > 15.0)
  {
    if Below(pct, 5.0) then Good
    else if AtMost(pct, 15.0) then Warn
    else Bad
  }

  /** Good before warning before bad. */
  function Severity(s: QualityStatus): (n: nat)
    ensures n <= 2
  {
    match s
    case Good => 0
    case Warn => 1
    case Bad => 2
  }

  /** A larger percentage never earns a better status. */
  lemma StatusMonotone(a: Num, b: Num)
    requires a != NaN && b != NaN && NumLeq(a, b)
    ensures Severity(StatusFromMissingPct(a)) <= Severity(StatusFromMissingPct(b))
  {
  }

  /** A lower-case hexadecimal digit. */
  predicate IsHexDigit(ch: char)
  {
    '0' <= ch <= '9' || 'a' <= ch <= 'f'
  }

  /** `statusColor`: green, amber or red, each a `#rrggbb` colour. */
  function StatusColor(status: QualityStatus): (c: string)
    ensures |c| == 7 && c[0] == '#'
    ensures forall k :: 1 <= k < 7 ==> IsHexDigit(c[k])
  {
    if status == Good then "#2e7d32"
    else if status == Warn then "#f9a825"
    else "#c62828"
  }

  /** Each status has its own colour. */
  lemma ColorsDistinct(s: QualityStatus, t: QualityStatus)
    requires s != t
    ensures StatusColor(s) != StatusColor(t)
  {
    assert StatusColor(Good)[1] == '2' && StatusColor(Warn)[1] == 'f' && StatusColor(Bad)[1] == 'c';
  }
}
