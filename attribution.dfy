/** Return attribution (`compute_attribution`): each date's return is split into the
    previous exposure row's alpha, one contribution `beta_c * x_c` per regressor, and a
    residual. The exposures are shifted by one row before they are joined on date with the
    frame, so the betas used on a date were estimated no later than the previous exposure
    date. */
module Attribution {
  import opened Wrappers
  import opened Seqs
  import opened Frames

  datatype Error = KeyError(labels: seq<string>)

  /** One output row: `y`, `alpha_contrib`, the `contrib_<c>` values in `x_cols` order,
      `explained` and `residual`. */
  datatype AttribRow = AttribRow(date: Date, y: real, alphaContrib: real, contribs: seq<real>,
                                 explained: real, residual: real)

  function AttribDate(r: AttribRow): Date { r.date }

  /** `[c for c in frame.columns if c != y_col]`. */
  function XCols(columns: seq<string>, yCol: string): seq<string>
  {
    Filter(columns, (c: string) => c != yCol)
  }

  function BetaName(c: string): string { "beta_" + c }

  /** `["alpha"] + [f"beta_{c}" for c in x_cols]`. */
  function Needed(xCols: seq<string>): (r: seq<string>)
    ensures |r| == |xCols| + 1 && r[0] == "alpha"
    ensures forall k :: 0 <= k < |xCols| ==> r[k + 1] == BetaName(xCols[k])
  {
    ["alpha"] + seq(|xCols|, k requires 0 <= k < |xCols| => BetaName(xCols[k]))
  }

  /** `exposures.shift(1)`: row `p` keeps its date and takes the cells of row `p - 1`;
      row 0 is all NaN. */
  function Lagged(es: seq<Row>): (r: seq<Row>)
    ensures |r| == |es|
    ensures forall p :: 0 <= p < |r| ==> r[p].date == es[p].date
    ensures |r| > 0 ==> r[0].cells == map[]
    ensures forall p :: 0 < p < |r| ==> r[p].cells == es[p - 1].cells
  {
    seq(|es|, p requires 0 <= p < |es| => Row(es[p].date, if p == 0 then map[] else es[p - 1].cells))
  }

  /** Lagged row `p >= 1` reads exactly what row `p - 1` holds. */
  lemma LaggedCells(es: seq<Row>, p: nat, cols: seq<string>)
    requires 1 <= p < |es|
    ensures forall c :: Get(Lagged(es)[p], c) == Get(es[p - 1], c)
    ensures Complete(Lagged(es)[p], cols) <==> Complete(es[p - 1], cols)
  {
    assert Lagged(es)[p].cells == es[p - 1].cells;
  }

  /** A frame row survives `concat(..., join="inner").dropna()` when the lagged exposures
      carry its date and neither side has a NaN in the selected columns. */
  predicate Kept(fr: Row, lag: seq<Row>, yCol: string, xCols: seq<string>)
  {
    var l := FindByDate(lag, fr.date);
    l.Some? && Joinable(fr, l.value, yCol, xCols)
  }

  /** `Val(a * b)` when both cells hold numbers, NaN otherwise. */
  function Times(a: Cell, b: Cell): (r: Cell)
    ensures r.Val? <==> a.Val? && b.Val?
  {
    if a.Val? && b.Val? then Val(a.v * b.v) else Missing
  }

  predicate Joinable(fr: Row, l: Row, yCol: string, xCols: seq<string>)
  {
    Complete(fr, [yCol] + xCols) && Complete(l, Needed(xCols))
  }

  lemma JoinableCells(fr: Row, l: Row, yCol: string, xCols: seq<string>)
    requires Joinable(fr, l, yCol, xCols)
    ensures Get(fr, yCol).Val? && Get(l, "alpha").Val?
    ensures forall k :: 0 <= k < |xCols| ==> Get(fr, xCols[k]).Val? && Get(l, BetaName(xCols[k])).Val?
  {
    assert ([yCol] + xCols)[0] == yCol;
    assert forall k :: 0 <= k < |xCols| ==> ([yCol] + xCols)[k + 1] == xCols[k];
  }

  function YOf(fr: Row, l: Row, yCol: string, xCols: seq<string>): real
    requires Joinable(fr, l, yCol, xCols)
  {
    JoinableCells(fr, l, yCol, xCols);
    Get(fr, yCol).v
  }

  function AlphaOf(fr: Row, l: Row, yCol: string, xCols: seq<string>): real
    requires Joinable(fr, l, yCol, xCols)
  {
    JoinableCells(fr, l, yCol, xCols);
    Get(l, "alpha").v
  }

  /** `df[f"beta_{c}"] * df[c]` for the `k`-th regressor `c`: the lagged beta times the
      current value. */
  function ContribAt(fr: Row, l: Row, yCol: string, xCols: seq<string>, k: nat): (r: real)
    requires Joinable(fr, l, yCol, xCols) && k < |xCols|
    ensures Val(r) == Times(Get(l, BetaName(xCols[k])), Get(fr, xCols[k]))
  {
    JoinableCells(fr, l, yCol, xCols);
    Get(l, BetaName(xCols[k])).v * Get(fr, xCols[k]).v
  }

  function Contribs(fr: Row, l: Row, yCol: string, xCols: seq<string>): (r: seq<real>)
    requires Joinable(fr, l, yCol, xCols)
    ensures |r| == |xCols|
  {
    seq(|xCols|, k requires 0 <= k < |xCols| => ContribAt(fr, l, yCol, xCols, k))
  }

  /** The docstring's identity for one joined row:
      `explained_t = alpha_{t-1} + sum_j beta_{j,t-1} * x_{j,t}`, `residual_t = y_t - explained_t`. */
  function AttribRowOf(fr: Row, l: Row, yCol: string, xCols: seq<string>): AttribRow
    requires Joinable(fr, l, yCol, xCols)
  {
    var y := YOf(fr, l, yCol, xCols);
    var explained := AlphaOf(fr, l, yCol, xCols) + Sum(Contribs(fr, l, yCol, xCols));
    AttribRow(fr.date, y, AlphaOf(fr, l, yCol, xCols), Contribs(fr, l, yCol, xCols), explained, y - explained)
  }

  /** The frame rows that survive the join and `dropna`, in date order. */
  predicate AllJoinable(kept: seq<Row>, lag: seq<Row>, yCol: string, xCols: seq<string>)
  {
    forall i :: 0 <= i < |kept| ==> Kept(kept[i], lag, yCol, xCols)
  }

  /** The lagged exposure row joined to `fr`. */
  function LagOf(fr: Row, lag: seq<Row>, yCol: string, xCols: seq<string>): (l: Row)
    requires Kept(fr, lag, yCol, xCols)
    ensures l in lag && l.date == fr.date && Joinable(fr, l, yCol, xCols)
  {
    FindByDate(lag, fr.date).value
  }

  function KeptRows(fs: seq<Row>, lag: seq<Row>, yCol: string, xCols: seq<string>): (r: seq<Row>)
    ensures AllJoinable(r, lag, yCol, xCols)
    ensures forall i :: 0 <= i < |r| ==> r[i] in fs
    ensures forall j :: 0 <= j < |fs| && Kept(fs[j], lag, yCol, xCols) ==> fs[j] in r
  {
    var r := Filter(fs, (fr: Row) => Kept(fr, lag, yCol, xCols));
    assert forall i :: 0 <= i < |r| ==> Kept(r[i], lag, yCol, xCols);
    r
  }

  function Attribute(kept: seq<Row>, lag: seq<Row>, yCol: string, xCols: seq<string>): (r: seq<AttribRow>)
    requires AllJoinable(kept, lag, yCol, xCols)
    ensures |r| == |kept|
    ensures forall i :: 0 <= i < |r| ==> r[i].date == kept[i].date
  {
    seq(|kept|, i requires 0 <= i < |kept| && Kept(kept[i], lag, yCol, xCols) =>
      AttribRowOf(kept[i], LagOf(kept[i], lag, yCol, xCols), yCol, xCols))
  }

  /** `compute_attribution` as a value. Both inputs are sorted by date first; the exposure
      column selection (line 34) fails before the frame selection (line 36). */
  function AttributionOf(frame: Table, exposures: Table, yCol: string): Result<seq<AttribRow>, Error>
  {
    var xCols := XCols(frame.columns, yCol);
    var missing := MissingColumns(Needed(xCols), exposures.columns);
    if missing != [] then Err(KeyError(missing))
    else if yCol !in frame.columns then Err(KeyError([yCol]))
    else Ok(JoinAndAttribute(frame.rows, SortByDate(exposures.rows, RowDate), yCol, xCols))
  }

  /** Lines 24 and 31-50 once the selections succeed: sort the frame, shift the sorted
      exposures `es`, join, drop incomplete rows and attribute. */
  function JoinAndAttribute(frameRows: seq<Row>, es: seq<Row>, yCol: string, xCols: seq<string>): seq<AttribRow>
  {
    var lag := Lagged(es);
    Attribute(KeptRows(SortByDate(frameRows, RowDate), lag, yCol, xCols), lag, yCol, xCols)
  }

  /** Each kept frame row paired with its lagged exposure row. */
  predicate Paired(df: seq<Row>, ls: seq<Row>, yCol: string, xCols: seq<string>)
  {
    |ls| == |df| && forall i :: 0 <= i < |df| ==> Joinable(df[i], ls[i], yCol, xCols)
  }

  /** The lagged exposure row joined to each kept frame row. */
  function LagColumn(df: seq<Row>, lag: seq<Row>, yCol: string, xCols: seq<string>): (ls: seq<Row>)
    requires AllJoinable(df, lag, yCol, xCols)
    ensures Paired(df, ls, yCol, xCols)
    ensures forall i :: 0 <= i < |df| ==> ls[i] == LagOf(df[i], lag, yCol, xCols)
  {
    seq(|df|, i requires 0 <= i < |df| => LagOf(df[i], lag, yCol, xCols))
  }

  /** The `alpha_contrib` column. */
  function AlphaColumn(df: seq<Row>, ls: seq<Row>, yCol: string, xCols: seq<string>): (col: seq<real>)
    requires Paired(df, ls, yCol, xCols)
    ensures |col| == |df|
  {
    seq(|df|, i requires 0 <= i < |df| => AlphaOf(df[i], ls[i], yCol, xCols))
  }

  /** The `contrib_<c>` column for the `k`-th regressor `c`. */
  function ContribColumn(df: seq<Row>, ls: seq<Row>, yCol: string, xCols: seq<string>, k: nat): (col: seq<real>)
    requires Paired(df, ls, yCol, xCols) && k < |xCols|
    ensures |col| == |df|
  {
    seq(|df|, i requires 0 <= i < |df| => ContribAt(df[i], ls[i], yCol, xCols, k))
  }

  /** The `explained` column once the first `k` regressors have been added to alpha. */
  function ExplainedUpTo(df: seq<Row>, ls: seq<Row>, yCol: string, xCols: seq<string>, k: nat): (col: seq<real>)
    requires Paired(df, ls, yCol, xCols) && k <= |xCols|
    ensures |col| == |df|
  {
    seq(|df|, i requires 0 <= i < |df| => AlphaOf(df[i], ls[i], yCol, xCols) + Sum(Contribs(df[i], ls[i], yCol, xCols)[..k]))
  }

  /** Element-wise sum of two columns (`explained += contrib`). */
  function AddColumns(a: seq<real>, b: seq<real>): (r: seq<real>)
    requires |a| == |b|
    ensures |r| == |a| && forall i :: 0 <= i < |a| ==> r[i] == a[i] + b[i]
  {
    seq(|a|, i requires 0 <= i < |a| => a[i] + b[i])
  }

  /** Before any regressor, `explained` is the alpha column. */
  lemma ExplainedStart(df: seq<Row>, ls: seq<Row>, yCol: string, xCols: seq<string>)
    requires Paired(df, ls, yCol, xCols)
    ensures ExplainedUpTo(df, ls, yCol, xCols, 0) == AlphaColumn(df, ls, yCol, xCols)
  {
    var e := ExplainedUpTo(df, ls, yCol, xCols, 0);
    forall i | 0 <= i < |df| ensures e[i] == AlphaColumn(df, ls, yCol, xCols)[i] {
      assert Contribs(df[i], ls[i], yCol, xCols)[..0] == [];
    }
  }

  /** Adding the `k`-th contribution column moves `explained` from `k` to `k + 1` regressors. */
  lemma ExplainedStep(df: seq<Row>, ls: seq<Row>, yCol: string, xCols: seq<string>, k: nat)
    requires Paired(df, ls, yCol, xCols) && k < |xCols|
    ensures ExplainedUpTo(df, ls, yCol, xCols, k + 1) ==
            AddColumns(ExplainedUpTo(df, ls, yCol, xCols, k), ContribColumn(df, ls, yCol, xCols, k))
  {
    var next := ExplainedUpTo(df, ls, yCol, xCols, k + 1);
    var sum := AddColumns(ExplainedUpTo(df, ls, yCol, xCols, k), ContribColumn(df, ls, yCol, xCols, k));
    forall i | 0 <= i < |df| ensures next[i] == sum[i] {
      var cs := Contribs(df[i], ls[i], yCol, xCols);
      assert cs[..k + 1] == cs[..k] + [cs[k]];
      SumSnoc(cs[..k], cs[k]);
    }
  }

  /** Every contribution column has been computed. */
  predicate ColumnsDone(df: seq<Row>, ls: seq<Row>, yCol: string, xCols: seq<string>, contribCols: seq<seq<real>>)
  {
    Paired(df, ls, yCol, xCols) && |contribCols| == |xCols| &&
    forall q :: 0 <= q < |xCols| ==> contribCols[q] == ContribColumn(df, ls, yCol, xCols, q)
  }

  /** The output frame read back row by row: row `i` takes the `i`-th entry of each column. */
  function Assemble(df: seq<Row>, ls: seq<Row>, yCol: string, xCols: seq<string>,
                    contribCols: seq<seq<real>>, explained: seq<real>): (out: seq<AttribRow>)
    requires ColumnsDone(df, ls, yCol, xCols, contribCols) && |explained| == |df|
    ensures |out| == |df|
  {
    seq(|df|, i requires 0 <= i < |df| =>
      var y := YOf(df[i], ls[i], yCol, xCols);
      AttribRow(df[i].date, y, AlphaOf(df[i], ls[i], yCol, xCols),
                seq(|xCols|, q requires 0 <= q < |xCols| => contribCols[q][i]),
                explained[i], y - explained[i]))
  }

  /** Row `i` assembled from the finished columns is the attribution row of `df[i]`. */
  lemma AssembledRow(df: seq<Row>, ls: seq<Row>, yCol: string, xCols: seq<string>,
                     contribCols: seq<seq<real>>, explained: seq<real>, i: nat)
    requires ColumnsDone(df, ls, yCol, xCols, contribCols) && i < |df|
    requires explained == ExplainedUpTo(df, ls, yCol, xCols, |xCols|)
    ensures Assemble(df, ls, yCol, xCols, contribCols, explained)[i] == AttribRowOf(df[i], ls[i], yCol, xCols)
  {
    var cs := Contribs(df[i], ls[i], yCol, xCols);
    assert cs[..|xCols|] == cs;
    assert Assemble(df, ls, yCol, xCols, contribCols, explained)[i].contribs == cs;
  }

  /** Lines 38-50: the output columns are built one regressor at a time; `explained`
      starts as the lagged alpha and each `contrib_<c>` column is added to it. */
  method AttributeColumns(df: seq<Row>, lag: seq<Row>, yCol: string, xCols: seq<string>)
    returns (out: seq<AttribRow>)
    requires AllJoinable(df, lag, yCol, xCols)
    ensures out == Attribute(df, lag, yCol, xCols)
  {
    var ls := LagColumn(df, lag, yCol, xCols);
    var explained := AlphaColumn(df, ls, yCol, xCols);
    ExplainedStart(df, ls, yCol, xCols);
    var contribCols: seq<seq<real>> := [];
    for k := 0 to |xCols|
      invariant explained == ExplainedUpTo(df, ls, yCol, xCols, k)
      invariant |contribCols| == k
      invariant forall q :: 0 <= q < k ==> contribCols[q] == ContribColumn(df, ls, yCol, xCols, q)
    {
      var contrib := ContribColumn(df, ls, yCol, xCols, k);
      ExplainedStep(df, ls, yCol, xCols, k);
      contribCols := contribCols + [contrib];
      explained := AddColumns(explained, contrib);
    }
    out := Assemble(df, ls, yCol, xCols, contribCols, explained);
    forall i | 0 <= i < |df| ensures out[i] == Attribute(df, lag, yCol, xCols)[i] {
      AssembledRow(df, ls, yCol, xCols, contribCols, explained, i);
    }
  }

  method ComputeAttribution(frame: Table, exposures: Table, yCol: string)
    returns (r: Result<seq<AttribRow>, Error>)
    ensures r == AttributionOf(frame, exposures, yCol)
  {
    var xCols := XCols(frame.columns, yCol);
    var missing := MissingColumns(Needed(xCols), exposures.columns);
    if missing != [] {
      return Err(KeyError(missing));
    }
    if yCol !in frame.columns {
      return Err(KeyError([yCol]));
    }
    var fs := SortByDate(frame.rows, RowDate);
    var lag := Lagged(SortByDate(exposures.rows, RowDate));
    var df := KeptRows(fs, lag, yCol, xCols);
    var out := AttributeColumns(df, lag, yCol, xCols);
    return Ok(out);
  }

  /** What an output row is made of: the frame row `fr` dated `t`, the exposure row `cur`
      dated `t` and the exposure row `prev` just before it in date order, whose alpha and
      betas are the ones applied. */
  predicate Explains(o: AttribRow, fr: Row, prev: Row, cur: Row, yCol: string, xCols: seq<string>)
  {
    o.date == fr.date && o.date == cur.date &&
    Get(fr, yCol) == Val(o.y) && Get(prev, "alpha") == Val(o.alphaContrib) &&
    |o.contribs| == |xCols| &&
    forall k :: 0 <= k < |xCols| ==> Val(o.contribs[k]) == Times(Get(prev, BetaName(xCols[k])), Get(fr, xCols[k]))
  }

  /** The attribution identity on every output row: `explained + residual == y`, and
      `explained` is the alpha contribution plus the regressor contributions. */
  lemma AttributionIdentity(frame: Table, exposures: Table, yCol: string)
    ensures var r := AttributionOf(frame, exposures, yCol);
            r.Ok? ==> forall i :: 0 <= i < |r.value| ==>
              r.value[i].explained + r.value[i].residual == r.value[i].y &&
              r.value[i].explained == r.value[i].alphaContrib + Sum(r.value[i].contribs) &&
              |r.value[i].contribs| == |XCols(frame.columns, yCol)|
  {
  }

  /** No look-ahead: every output row dated `t` applies the alpha and betas of the exposure
      row immediately before the one dated `t`, never those estimated at `t` itself. */
  predicate ExplainedBy(o: AttribRow, frameRows: seq<Row>, es: seq<Row>, a: int, p: int, yCol: string, xCols: seq<string>)
  {
    0 <= a < |frameRows| && 1 <= p < |es| && Explains(o, frameRows[a], es[p - 1], es[p], yCol, xCols)
  }

  ghost predicate Explained(o: AttribRow, frameRows: seq<Row>, es: seq<Row>, yCol: string, xCols: seq<string>)
  {
    exists a, p :: ExplainedBy(o, frameRows, es, a, p, yCol, xCols)
  }

  ghost predicate AllExplained(out: seq<AttribRow>, frameRows: seq<Row>, es: seq<Row>, yCol: string, xCols: seq<string>)
  {
    forall i :: 0 <= i < |out| ==> Explained(out[i], frameRows, es, yCol, xCols)
  }

  lemma AttributionLagged(frame: Table, exposures: Table, yCol: string)
    ensures AttributionOf(frame, exposures, yCol).Ok? ==>
              AllExplained(AttributionOf(frame, exposures, yCol).value, frame.rows,
                           SortByDate(exposures.rows, RowDate), yCol, XCols(frame.columns, yCol))
  {
    JoinedRowsExplained(frame.rows, SortByDate(exposures.rows, RowDate), yCol, XCols(frame.columns, yCol));
  }

  lemma JoinedRowsExplained(frameRows: seq<Row>, es: seq<Row>, yCol: string, xCols: seq<string>)
    ensures AllExplained(JoinAndAttribute(frameRows, es, yCol, xCols), frameRows, es, yCol, xCols)
  {
    var lag := Lagged(es);
    var fs := SortByDate(frameRows, RowDate);
    var kept := KeptRows(fs, lag, yCol, xCols);
    var out := Attribute(kept, lag, yCol, xCols);
    assert out == JoinAndAttribute(frameRows, es, yCol, xCols);
    forall i | 0 <= i < |out|
      ensures Explained(out[i], frameRows, es, yCol, xCols)
    {
      ExplainedRow(frameRows, lag, es, fs, kept, out, yCol, xCols, i);
    }
  }

  lemma ExplainedRow(frameRows: seq<Row>, lag: seq<Row>, es: seq<Row>, fs: seq<Row>, kept: seq<Row>,
                     out: seq<AttribRow>, yCol: string, xCols: seq<string>, i: nat)
    requires lag == Lagged(es) && fs == SortByDate(frameRows, RowDate)
    requires kept == KeptRows(fs, lag, yCol, xCols) && out == Attribute(kept, lag, yCol, xCols)
    requires i < |out|
    ensures Explained(out[i], frameRows, es, yCol, xCols)
  {
    var fr := kept[i];
    assert fr in multiset(frameRows) by {
      assert fr in fs;
    }
    var a :| 0 <= a < |frameRows| && frameRows[a] == fr;
    var l := LagOf(fr, lag, yCol, xCols);
    var p :| 0 <= p < |lag| && lag[p] == l;
    JoinableCells(fr, l, yCol, xCols);
    assert p >= 1;
    LaggedCells(es, p, Needed(xCols));
    assert ExplainedBy(out[i], frameRows, es, a, p, yCol, xCols);
  }

  /** Output dates are strictly increasing, and every date on which a complete frame row
      meets an exposure row that has a complete predecessor appears in the output; with
      `AttributionLagged` these are exactly the output dates. */
  predicate HasDate(out: seq<AttribRow>, d: Date)
  {
    exists i :: 0 <= i < |out| && out[i].date == d
  }

  /** Frame row `a` and exposure row `p` share a date, and the frame row and exposure row
      `p - 1` have no NaN in the selected columns. */
  predicate JoinableAt(frameRows: seq<Row>, es: seq<Row>, a: int, p: int, yCol: string, xCols: seq<string>)
  {
    0 <= a < |frameRows| && 1 <= p < |es| && frameRows[a].date == es[p].date &&
    Complete(frameRows[a], [yCol] + xCols) && Complete(es[p - 1], Needed(xCols))
  }

  ghost predicate CoversJoinable(out: seq<AttribRow>, frameRows: seq<Row>, es: seq<Row>, yCol: string, xCols: seq<string>)
  {
    forall a, p :: JoinableAt(frameRows, es, a, p, yCol, xCols) ==> HasDate(out, frameRows[a].date)
  }

  lemma AttributionDates(frame: Table, exposures: Table, yCol: string)
    requires DatesUnique(frame.rows, RowDate) && DatesUnique(exposures.rows, RowDate)
    ensures AttributionOf(frame, exposures, yCol).Ok? ==>
              DatesIncreasing(AttributionOf(frame, exposures, yCol).value, AttribDate) &&
              CoversJoinable(AttributionOf(frame, exposures, yCol).value, frame.rows,
                             SortByDate(exposures.rows, RowDate), yCol, XCols(frame.columns, yCol))
  {
    var es := SortByDate(exposures.rows, RowDate);
    SortByDateIncreasing(exposures.rows, RowDate);
    IncreasingIsUnique(es, RowDate);
    JoinedDatesIncreasing(frame.rows, es, yCol, XCols(frame.columns, yCol));
    JoinedCovers(frame.rows, es, yCol, XCols(frame.columns, yCol));
  }

  lemma JoinedDatesIncreasing(frameRows: seq<Row>, es: seq<Row>, yCol: string, xCols: seq<string>)
    requires DatesUnique(frameRows, RowDate)
    ensures DatesIncreasing(JoinAndAttribute(frameRows, es, yCol, xCols), AttribDate)
  {
    var lag := Lagged(es);
    var fs := SortByDate(frameRows, RowDate);
    SortByDateIncreasing(frameRows, RowDate);
    FilterDatesIncreasing(fs, (fr: Row) => Kept(fr, lag, yCol, xCols), RowDate);
  }

  lemma JoinedCovers(frameRows: seq<Row>, es: seq<Row>, yCol: string, xCols: seq<string>)
    requires DatesUnique(es, RowDate)
    ensures CoversJoinable(JoinAndAttribute(frameRows, es, yCol, xCols), frameRows, es, yCol, xCols)
  {
    var out := JoinAndAttribute(frameRows, es, yCol, xCols);
    forall a, p | JoinableAt(frameRows, es, a, p, yCol, xCols)
      ensures HasDate(out, frameRows[a].date)
    {
      CoveredRow(frameRows, es, yCol, xCols, a, p);
    }
  }

  /** Shifting keeps every date, so unique dates stay unique. */
  lemma LaggedDatesUnique(es: seq<Row>)
    requires DatesUnique(es, RowDate)
    ensures DatesUnique(Lagged(es), RowDate)
  {
    var lag := Lagged(es);
    forall i, j | 0 <= i < j < |lag| ensures RowDate(lag[i]) != RowDate(lag[j]) {
      assert RowDate(lag[i]) == RowDate(es[i]) && RowDate(lag[j]) == RowDate(es[j]);
    }
  }

  lemma CoveredRow(frameRows: seq<Row>, es: seq<Row>, yCol: string, xCols: seq<string>, a: nat, p: nat)
    requires DatesUnique(es, RowDate)
    requires JoinableAt(frameRows, es, a, p, yCol, xCols)
    ensures HasDate(JoinAndAttribute(frameRows, es, yCol, xCols), frameRows[a].date)
  {
    var lag := Lagged(es);
    var fs := SortByDate(frameRows, RowDate);
    var kept := KeptRows(fs, lag, yCol, xCols);
    var fr := frameRows[a];
    assert fr in multiset(fs);
    var b :| 0 <= b < |fs| && fs[b] == fr;
    LaggedDatesUnique(es);
    assert FindByDate(lag, fr.date) == Some(lag[p]);
    LaggedCells(es, p, Needed(xCols));
    assert Kept(fs[b], lag, yCol, xCols);
    var i :| 0 <= i < |kept| && kept[i] == fr;
    assert JoinAndAttribute(frameRows, es, yCol, xCols)[i].date == fr.date;
  }

  /** The earliest exposure date never appears in the output: every output date is later. */
  lemma AttributionSkipsFirstExposure(frame: Table, exposures: Table, yCol: string)
    requires DatesUnique(exposures.rows, RowDate)
    ensures var r := AttributionOf(frame, exposures, yCol);
            var es := SortByDate(exposures.rows, RowDate);
            r.Ok? ==> forall i :: 0 <= i < |r.value| ==> |es| > 0 && es[0].date < r.value[i].date
  {
    AttributionLagged(frame, exposures, yCol);
    SortByDateIncreasing(exposures.rows, RowDate);
  }

  /** The selection errors: some `alpha`/`beta_<c>` column is absent from the exposures
      (reported first, with every absent label in order), or the target is absent from
      the frame. */
  lemma AttributionErrors(frame: Table, exposures: Table, yCol: string)
    ensures var r := AttributionOf(frame, exposures, yCol);
            var needed := Needed(XCols(frame.columns, yCol));
            (r.Err? <==> (exists j :: 0 <= j < |needed| && needed[j] !in exposures.columns) || yCol !in frame.columns) &&
            (r.Err? && (exists j :: 0 <= j < |needed| && needed[j] !in exposures.columns) ==>
               r.error == KeyError(MissingColumns(needed, exposures.columns)))
  {
    var needed := Needed(XCols(frame.columns, yCol));
    var missing := MissingColumns(needed, exposures.columns);
    if exists j :: 0 <= j < |needed| && needed[j] !in exposures.columns {
      var j :| 0 <= j < |needed| && needed[j] !in exposures.columns;
      assert needed[j] in missing;
    } else {
      FilterDropsAll(needed, (c: string) => c !in exposures.columns);
    }
  }
}
