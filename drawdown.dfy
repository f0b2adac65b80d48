/** `_max_drawdown`, defined identically in the regime and the portfolio stages: the wealth
    path `(1 + r).cumprod()`, its running maximum, the drawdown `wealth / running_max - 1`
    at every step, and the least drawdown. */
module Drawdown {
  import opened Floats

  /** Wealth after the first `n` periods: `(1 + r_0) * ... * (1 + r_{n-1})`. */
  function Wealth(rs: seq<real>, n: nat): real
    requires n <= |rs|
  {
    if n == 0 then 1.0 else Wealth(rs, n - 1) * (1.0 + rs[n - 1])
  }

  /** `wealth.cummax()` at step `n - 1`: the largest of the first `n` wealth values. */
  function RunningMax(rs: seq<real>, n: nat): (m: real)
    requires 1 <= n <= |rs|
    ensures forall k :: 1 <= k <= n ==> Wealth(rs, k) <= m
    ensures exists k :: 1 <= k <= n && Wealth(rs, k) == m
  {
    if n == 1 then Wealth(rs, 1)
    else
      var m := RunningMax(rs, n - 1);
      if Wealth(rs, n) > m then Wealth(rs, n) else m
  }

  /** The drawdown series `wealth / running_max - 1`. */
  function Drawdowns(rs: seq<real>): (d: seq<Num>)
    ensures |d| == |rs|
  {
    seq(|rs|, k requires 0 <= k < |rs| => MinusOne(Div(Wealth(rs, k + 1), RunningMax(rs, k + 1))))
  }

  function MaxDrawdown(rs: seq<real>): Num
  {
    MinSkipNaN(Drawdowns(rs))
  }

  lemma MulPositive(a: real, b: real)
    requires a > 0.0 && b > 0.0
    ensures a * b > 0.0
  {
  }

  lemma MulAtLeast(a: real, b: real)
    requires a > 0.0 && b >= 1.0
    ensures a * b >= a
  {
    assert a * b - a == a * (b - 1.0);
  }

  lemma RatioBounds(w: real, m: real)
    requires 0.0 < w <= m
    ensures 0.0 < w / m <= 1.0
  {
  }

  lemma SelfRatio(x: real)
    requires x != 0.0
    ensures x / x == 1.0
  {
  }

  /** When every period return exceeds -100%, wealth stays positive. */
  lemma {:induction false} WealthPositive(rs: seq<real>, n: nat)
    requires n <= |rs|
    requires forall i :: 0 <= i < |rs| ==> rs[i] > -1.0
    ensures Wealth(rs, n) > 0.0
  {
    if n > 0 {
      WealthPositive(rs, n - 1);
      MulPositive(Wealth(rs, n - 1), 1.0 + rs[n - 1]);
    }
  }

  /** When no period return is negative, wealth never falls. */
  lemma {:induction false} WealthMonotone(rs: seq<real>, k: nat, n: nat)
    requires k <= n <= |rs|
    requires forall i :: 0 <= i < |rs| ==> rs[i] >= 0.0
    ensures 0.0 < Wealth(rs, k) <= Wealth(rs, n)
  {
    if k < n {
      WealthMonotone(rs, k, n - 1);
      MulAtLeast(Wealth(rs, n - 1), 1.0 + rs[n - 1]);
    } else if k > 0 {
      WealthPositive(rs, k);
    }
  }

  /** With every return above -100% the maximum drawdown is finite and lies in `(-1, 0]`. */
  lemma MaxDrawdownBounds(rs: seq<real>)
    requires |rs| > 0
    requires forall i :: 0 <= i < |rs| ==> rs[i] > -1.0
    ensures MaxDrawdown(rs).Finite?
    ensures -1.0 < MaxDrawdown(rs).r <= 0.0
  {
    var d := Drawdowns(rs);
    forall k | 0 <= k < |rs| ensures d[k].Finite? && -1.0 < d[k].r <= 0.0 {
      WealthPositive(rs, k + 1);
      var m := RunningMax(rs, k + 1);
      var j :| 1 <= j <= k + 1 && Wealth(rs, j) == m;
      WealthPositive(rs, j);
      RatioBounds(Wealth(rs, k + 1), m);
    }
    assert d[0] != NaN;
  }

  /** With no negative return there is no drawdown at all. */
  lemma MaxDrawdownZero(rs: seq<real>)
    requires |rs| > 0
    requires forall i :: 0 <= i < |rs| ==> rs[i] >= 0.0
    ensures MaxDrawdown(rs) == Finite(0.0)
  {
    var d := Drawdowns(rs);
    forall k | 0 <= k < |rs| ensures d[k] == Finite(0.0) {
      var m := RunningMax(rs, k + 1);
      var j :| 1 <= j <= k + 1 && Wealth(rs, j) == m;
      WealthMonotone(rs, j, k + 1);
      assert Wealth(rs, k + 1) == m;
      SelfRatio(m);
      assert Div(Wealth(rs, k + 1), m) == Finite(1.0);
    }
    assert d[0] != NaN;
  }

  /** An empty return series has no drawdown: the minimum of nothing is NaN. */
  lemma MaxDrawdownEmpty()
    ensures MaxDrawdown([]) == NaN
  {
  }
}
