/** `alignByIntersection` of the site (`site/src/lib/alignByDate.ts`): the same alignment
    as the Python tools, plus how many rows of each input were dropped. Rows are generic;
    each input comes with the accessor that reads its `date`. */
module AlignByDate {
  import opened Seqs
  import opened Alignment

  datatype Dropped = Dropped(exposures: int, attribution: int, regimes: int)

  datatype Aligned<E, A, R> = Aligned(dates: seq<string>, exposures: seq<E>, attribution: seq<A>,
                                      regimes: seq<R>, dropped: Dropped)

  /** `[...Sexp].filter(d => Satt.has(d) && Sreg.has(d)).sort()`, then each input filtered
      to the shared dates and the number of rows each filter removed. */
  function AlignByIntersection<E, A, R>(exposures: seq<E>, ed: E -> string,
                                        attribution: seq<A>, ad: A -> string,
                                        regimes: seq<R>, rd: R -> string): (r: Aligned<E, A, R>)
    ensures IsAlignment(r.dates, r.exposures, r.attribution, r.regimes,
                        exposures, ed, attribution, ad, regimes, rd)
    ensures r.dropped.exposures == |exposures| - |r.exposures| >= 0
    ensures r.dropped.attribution == |attribution| - |r.attribution| >= 0
    ensures r.dropped.regimes == |regimes| - |r.regimes| >= 0
  {
    var dates := CommonDates(Dates(exposures, ed), Dates(attribution, ad), Dates(regimes, rd));
    var ex := Keep(exposures, ed, dates);
    var at := Keep(attribution, ad, dates);
    var rg := Keep(regimes, rd, dates);
    Aligned(dates, ex, at, rg, Dropped(|exposures| - |ex|, |attribution| - |at|, |regimes| - |rg|))
  }

  /** When each input's dates are unique, the three aligned arrays all have one row per
      shared date. */
  lemma AlignedArraysMatchDates<E, A, R>(exposures: seq<E>, ed: E -> string,
                                         attribution: seq<A>, ad: A -> string,
                                         regimes: seq<R>, rd: R -> string)
    requires Distinct(Dates(exposures, ed)) && Distinct(Dates(attribution, ad)) && Distinct(Dates(regimes, rd))
    ensures var r := AlignByIntersection(exposures, ed, attribution, ad, regimes, rd);
            |r.exposures| == |r.dates| && |r.attribution| == |r.dates| && |r.regimes| == |r.dates|
  {
    var r := AlignByIntersection(exposures, ed, attribution, ad, regimes, rd);
    AlignedLengths(r.dates, r.exposures, r.attribution, r.regimes, exposures, ed, attribution, ad, regimes, rd);
  }

  /** Aligning the aligned arrays again returns them unchanged and drops nothing. */
  lemma RealignChangesNothing<E, A, R>(exposures: seq<E>, ed: E -> string,
                                       attribution: seq<A>, ad: A -> string,
                                       regimes: seq<R>, rd: R -> string)
    ensures var r := AlignByIntersection(exposures, ed, attribution, ad, regimes, rd);
            AlignByIntersection(r.exposures, ed, r.attribution, ad, r.regimes, rd) ==
            Aligned(r.dates, r.exposures, r.attribution, r.regimes, Dropped(0, 0, 0))
  {
    var r := AlignByIntersection(exposures, ed, attribution, ad, regimes, rd);
    RealignIsIdentity(r.dates, r.exposures, r.attribution, r.regimes, exposures, ed, attribution, ad, regimes, rd);
    var again := AlignByIntersection(r.exposures, ed, r.attribution, ad, r.regimes, rd);
    var e, a, g := Dates(r.exposures, ed), Dates(r.attribution, ad), Dates(r.regimes, rd);
    assert IsCommon(r.dates, e, a, g);
    assert again.dates == CommonDates(e, a, g);
    CommonUnique(again.dates, r.dates, e, a, g);
    assert again.exposures == Keep(r.exposures, ed, r.dates) == r.exposures;
    assert again.attribution == Keep(r.attribution, ad, r.dates) == r.attribution;
    assert again.regimes == Keep(r.regimes, rd, r.dates) == r.regimes;
  }
}
