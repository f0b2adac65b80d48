/** Aligning the three site datasets (exposures, attribution, regimes) on the dates they
    share, stated once. `tools/schemas.py`, `tools/validate_and_manifest.py` and
    `site/src/lib/alignByDate.ts` each compute it their own way; each is shown to produce an
    alignment in the sense of `IsAlignment`. */
module Alignment {
  import opened Seqs
  import opened Lex

  /** The date of every row, in row order. */
  function Dates<T>(rows: seq<T>, date: T -> string): (ds: seq<string>)
    ensures |ds| == |rows| && forall i :: 0 <= i < |rows| ==> ds[i] == date(rows[i])
  {
    seq(|rows|, i requires 0 <= i < |rows| => date(rows[i]))
  }

  /** `common` is the ascending, duplicate-free list of the dates all three lists carry. */
  ghost predicate IsCommon(common: seq<string>, e: seq<string>, a: seq<string>, r: seq<string>)
  {
    Increasing(common) && ToSet(common) == ToSet(e) * ToSet(a) * ToSet(r)
  }

  /** There is only one such list, so any two ways of computing it agree. */
  lemma CommonUnique(c1: seq<string>, c2: seq<string>, e: seq<string>, a: seq<string>, r: seq<string>)
    requires IsCommon(c1, e, a, r) && IsCommon(c2, e, a, r)
    ensures c1 == c2
  {
    IncreasingUnique(c1, c2);
  }

  /** `sorted` of the dates in all three lists. A Python or JavaScript set is enumerated
      here in first-occurrence order of `e`; sorting makes the result independent of that
      order (`CommonUnique`). */
  function CommonDates(e: seq<string>, a: seq<string>, r: seq<string>): (common: seq<string>)
    ensures IsCommon(common, e, a, r)
  {
    var inAll := d => d in a && d in r;
    var shared := Filter(Dedup(e), inAll);
    FilterDistinct(Dedup(e), inAll);
    SortDistinct(shared);
    assert ToSet(shared) == ToSet(e) * ToSet(a) * ToSet(r) by {
      FilterDedupMembers(e, inAll);
    }
    Sort(shared)
  }

  /** The rows whose date is one of `common`, in their original order. */
  function Keep<T>(rows: seq<T>, date: T -> string, common: seq<string>): (kept: seq<T>)
    ensures |kept| <= |rows|
  {
    Filter(rows, x => date(x) in common)
  }

  /** Each aligned list keeps exactly the input rows whose date is common, in input order. */
  ghost predicate IsAlignment<E, A, R>(common: seq<string>, ex: seq<E>, at: seq<A>, rg: seq<R>,
                                       exposures: seq<E>, ed: E -> string,
                                       attribution: seq<A>, ad: A -> string,
                                       regimes: seq<R>, rd: R -> string)
  {
    IsCommon(common, Dates(exposures, ed), Dates(attribution, ad), Dates(regimes, rd)) &&
    ex == Keep(exposures, ed, common) && at == Keep(attribution, ad, common) && rg == Keep(regimes, rd, common)
  }

  /** Keeping rows one at a time: the first row is kept exactly when its date is common. */
  lemma KeepCons<T>(rows: seq<T>, date: T -> string, common: seq<string>)
    requires rows != []
    ensures Keep(rows, date, common) ==
            (if date(rows[0]) in common then [rows[0]] else []) + Keep(rows[1..], date, common)
    ensures Dates(rows, date) == [date(rows[0])] + Dates(rows[1..], date)
  {
    assert Keep(rows, date, common) ==
           (if date(rows[0]) in common then [rows[0]] else []) + Keep(rows[1..], date, common);
    var ds := Dates(rows, date);
    assert ds == [ds[0]] + ds[1..];
    assert ds[1..] == Dates(rows[1..], date);
  }

  /** The dates that survive are the input's dates that are common. */
  lemma {:induction false} KeepDates<T>(rows: seq<T>, date: T -> string, common: seq<string>)
    ensures ToSet(Dates(Keep(rows, date, common), date)) == ToSet(Dates(rows, date)) * ToSet(common)
  {
    if rows != [] {
      KeepCons(rows, date, common);
      KeepDates(rows[1..], date, common);
      var rest := Keep(rows[1..], date, common);
      var kept := Keep(rows, date, common);
      assert Dates(kept, date) == (if date(rows[0]) in common then [date(rows[0])] else []) + Dates(rest, date);
      assert ToSet(Dates(rows, date)) == {date(rows[0])} + ToSet(Dates(rows[1..], date));
      assert ToSet(Dates(kept, date)) ==
             (if date(rows[0]) in common then {date(rows[0])} else {}) + ToSet(Dates(rest, date));
    }
  }

  /** Unique input dates stay unique after keeping the common-dated rows. */
  lemma {:induction false} KeepDistinct<T>(rows: seq<T>, date: T -> string, common: seq<string>)
    requires Distinct(Dates(rows, date))
    ensures Distinct(Dates(Keep(rows, date, common), date))
  {
    KeepDatesFiltered(rows, date, common);
    FilterDistinct(Dates(rows, date), d => d in common);
  }

  /** The dates of the kept rows are the input's dates filtered to the common ones. */
  lemma {:induction false} KeepDatesFiltered<T>(rows: seq<T>, date: T -> string, common: seq<string>)
    ensures Dates(Keep(rows, date, common), date) == Filter(Dates(rows, date), d => d in common)
  {
    if rows != [] {
      KeepCons(rows, date, common);
      KeepDatesFiltered(rows[1..], date, common);
      var ds := Dates(rows, date);
      assert ds[1..] == Dates(rows[1..], date);
      var kept := Keep(rows, date, common);
      var rest := Keep(rows[1..], date, common);
      if date(rows[0]) in common {
        assert kept == [rows[0]] + rest;
        assert Dates(kept, date) == [date(rows[0])] + Dates(rest, date);
      } else {
        assert kept == rest;
      }
    }
  }

  /** Rows with unique dates keep one row per common date. */
  lemma KeptLength<T>(rows: seq<T>, date: T -> string, common: seq<string>)
    requires Distinct(Dates(rows, date)) && Distinct(common)
    requires ToSet(common) <= ToSet(Dates(rows, date))
    ensures |Keep(rows, date, common)| == |common|
  {
    KeepDates(rows, date, common);
    KeepDistinct(rows, date, common);
    var kd := Dates(Keep(rows, date, common), date);
    assert ToSet(kd) == ToSet(common);
    ToSetCardinality(kd);
    ToSetCardinality(common);
  }

  /** When each input has unique dates, the three aligned lists all have one row per
      common date, so the length check of an alignment can never fail. */
  lemma AlignedLengths<E, A, R>(common: seq<string>, ex: seq<E>, at: seq<A>, rg: seq<R>,
                                exposures: seq<E>, ed: E -> string,
                                attribution: seq<A>, ad: A -> string,
                                regimes: seq<R>, rd: R -> string)
    requires IsAlignment(common, ex, at, rg, exposures, ed, attribution, ad, regimes, rd)
    requires Distinct(Dates(exposures, ed)) && Distinct(Dates(attribution, ad)) && Distinct(Dates(regimes, rd))
    ensures |ex| == |common| && |at| == |common| && |rg| == |common|
  {
    IncreasingIsSortedAndDistinct(common);
    KeptLength(exposures, ed, common);
    KeptLength(attribution, ad, common);
    KeptLength(regimes, rd, common);
  }

  /** Aligning already aligned lists changes nothing: the common dates are the same and
      every row is kept. */
  lemma RealignIsIdentity<E, A, R>(common: seq<string>, ex: seq<E>, at: seq<A>, rg: seq<R>,
                                   exposures: seq<E>, ed: E -> string,
                                   attribution: seq<A>, ad: A -> string,
                                   regimes: seq<R>, rd: R -> string)
    requires IsAlignment(common, ex, at, rg, exposures, ed, attribution, ad, regimes, rd)
    ensures IsAlignment(common, ex, at, rg, ex, ed, at, ad, rg, rd)
  {
    KeepDates(exposures, ed, common);
    KeepDates(attribution, ad, common);
    KeepDates(regimes, rd, common);
    KeepAllCommon(ex, ed, common);
    KeepAllCommon(at, ad, common);
    KeepAllCommon(rg, rd, common);
  }

  /** Rows whose dates are all common are all kept. */
  lemma KeepAllCommon<T>(rows: seq<T>, date: T -> string, common: seq<string>)
    requires forall x :: x in rows ==> date(x) in common
    ensures Keep(rows, date, common) == rows
  {
    FilterKeepsAll(rows, x => date(x) in common);
  }
}
