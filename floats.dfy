/** Floating-point values as the analysis and the site see them, without rounding:
    a finite value, NaN, or one of the two infinities. */
module Floats {

  datatype Num = Finite(r: real) | NaN | PosInf | NegInf

  /** JavaScript's `Number.isFinite`. */
  predicate IsFinite(n: Num)
  {
    n.Finite?
  }

  /** `a / b` on two finite doubles: a zero divisor gives NaN for `0 / 0` and a signed
      infinity otherwise (the divisor is taken as `+0`). */
  function Div(a: real, b: real): (r: Num)
    ensures b != 0.0 ==> r == Finite(a / b)
    ensures b == 0.0 ==> (r == NaN <==> a == 0.0)
  {
    if b != 0.0 then Finite(a / b)
    else if a == 0.0 then NaN
    else if a > 0.0 then PosInf
    else NegInf
  }

  /** `x - 1`, which leaves NaN and the infinities as they are. */
  function MinusOne(n: Num): Num
  {
    if n.Finite? then Finite(n.r - 1.0) else n
  }

  /** The IEEE order on non-NaN values. */
  predicate NumLeq(a: Num, b: Num)
    requires a != NaN && b != NaN
  {
    a == NegInf || b == PosInf || (a.Finite? && b.Finite? && a.r <= b.r)
  }

  /** pandas `Series.min()`: the least value, skipping NaN; NaN when every value is NaN
      or there is none. */
  function MinSkipNaN(s: seq<Num>): (m: Num)
    ensures m == NaN <==> forall i :: 0 <= i < |s| ==> s[i] == NaN
    ensures m != NaN ==> m in s && forall i :: 0 <= i < |s| && s[i] != NaN ==> NumLeq(m, s[i])
  {
    if s == [] then NaN
    else
      var rest := MinSkipNaN(s[1..]);
      assert forall i :: 1 <= i < |s| ==> s[i] == s[1..][i - 1];
      if s[0] == NaN then rest
      else if rest == NaN || NumLeq(s[0], rest) then s[0]
      else rest
  }
}
