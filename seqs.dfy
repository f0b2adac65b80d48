/** Sequence helpers: list comprehensions with a guard, sums, counts, de-duplication. */
module Seqs {

  /** `[x for x in s if p(x)]`: keeps, in order, the elements of `s` that satisfy `p`. */
  function Filter<T>(s: seq<T>, p: T -> bool): (r: seq<T>)
    ensures |r| <= |s|
    ensures forall i :: 0 <= i < |r| ==> r[i] in s && p(r[i])
    ensures forall i :: 0 <= i < |s| && p(s[i]) ==> s[i] in r
  {
    if s == [] then [] else (if p(s[0]) then [s[0]] else []) + Filter(s[1..], p)
  }

  lemma {:induction false} FilterConcat<T>(a: seq<T>, b: seq<T>, p: T -> bool)
    ensures Filter(a + b, p) == Filter(a, p) + Filter(b, p)
  {
    if a == [] {
      assert a + b == b;
    } else {
      assert (a + b)[1..] == a[1..] + b;
      FilterConcat(a[1..], b, p);
    }
  }

  /** A filter whose guard holds of every element keeps the whole sequence. */
  lemma {:induction false} FilterKeepsAll<T>(s: seq<T>, p: T -> bool)
    requires forall x :: x in s ==> p(x)
    ensures Filter(s, p) == s
  {
    if s != [] {
      FilterKeepsAll(s[1..], p);
    }
  }

  /** A filter whose guard fails on every element keeps nothing. */
  lemma {:induction false} FilterDropsAll<T>(s: seq<T>, p: T -> bool)
    requires forall x :: x in s ==> !p(x)
    ensures Filter(s, p) == []
  {
    if s != [] {
      FilterDropsAll(s[1..], p);
    }
  }

  /** Two guards that agree on the elements of `s` filter it identically. */
  lemma {:induction false} FilterCongruent<T>(s: seq<T>, p: T -> bool, q: T -> bool)
    requires forall x :: x in s ==> (p(x) <==> q(x))
    ensures Filter(s, p) == Filter(s, q)
  {
    if s != [] {
      FilterCongruent(s[1..], p, q);
    }
  }

  /** A guard and its negation split a sequence into two parts that together hold every element. */
  lemma {:induction false} FilterSplit<T>(s: seq<T>, p: T -> bool, q: T -> bool)
    requires forall x :: q(x) == !p(x)
    ensures |Filter(s, p)| + |Filter(s, q)| == |s|
    ensures multiset(Filter(s, p)) + multiset(Filter(s, q)) == multiset(s)
  {
    if s != [] {
      FilterSplit(s[1..], p, q);
      assert s == [s[0]] + s[1..];
      assert multiset(s) == multiset{s[0]} + multiset(s[1..]);
    }
  }

  /** Sum of a list of reals, left to right (pandas `sum` without missing values). */
  function Sum(s: seq<real>): real
  {
    if s == [] then 0.0 else s[0] + Sum(s[1..])
  }

  /** Adding one more term at the end of a running total. */
  lemma {:induction false} SumSnoc(s: seq<real>, x: real)
    ensures Sum(s + [x]) == Sum(s) + x
  {
    if s != [] {
      assert (s + [x])[1..] == s[1..] + [x];
      SumSnoc(s[1..], x);
    }
  }

  /** `sum_j w_j * r_j`. */
  function Dot(w: seq<real>, r: seq<real>): real
    requires |w| == |r|
  {
    Sum(seq(|r|, j requires 0 <= j < |r| => w[j] * r[j]))
  }

  /** `n` copies of `x` sum to `n * x`. */
  lemma {:induction false} SumConst(n: nat, x: real)
    ensures Sum(seq(n, _ => x)) == n as real * x
  {
    if n > 0 {
      var s := seq(n, _ => x);
      assert s[1..] == seq(n - 1, _ => x);
      SumConst(n - 1, x);
      assert Sum(s) == x + (n - 1) as real * x;
      assert x + (n - 1) as real * x == n as real * x by {
        assert n as real * x == ((n - 1) as real + 1.0) * x;
      }
    }
  }

  /** Element-wise division of a list by a non-zero number (`w / total`). */
  function Divide(s: seq<real>, d: real): (r: seq<real>)
    requires d != 0.0
  {
    seq(|s|, i requires 0 <= i < |s| => s[i] / d)
  }

  lemma {:induction false} SumDivide(s: seq<real>, d: real)
    requires d != 0.0
    ensures Sum(Divide(s, d)) == Sum(s) / d
  {
    if s != [] {
      assert Divide(s, d)[1..] == Divide(s[1..], d);
      SumDivide(s[1..], d);
    }
  }

  /** Dividing a list by its own non-zero sum gives a list that sums to one. */
  lemma NormalizedSumsToOne(s: seq<real>)
    requires Sum(s) != 0.0
    ensures Sum(Divide(s, Sum(s))) == 1.0
  {
    SumDivide(s, Sum(s));
    assert Sum(s) / Sum(s) == 1.0;
  }

  /** Number of elements of `s` that satisfy `p`. */
  function Count<T>(s: seq<T>, p: T -> bool): nat
  {
    |Filter(s, p)|
  }

  predicate Distinct<T(==)>(s: seq<T>)
  {
    forall i, j :: 0 <= i < j < |s| ==> s[i] != s[j]
  }

  function ToSet<T>(s: seq<T>): set<T>
  {
    set x | x in s
  }

  /** A list headed by `x` has no repetitions exactly when its tail has none and does
      not hold `x`. */
  lemma DistinctCons<T>(x: T, s: seq<T>)
    ensures Distinct([x] + s) <==> x !in s && Distinct(s)
  {
    var t := [x] + s;
    if Distinct(t) {
      forall i, j | 0 <= i < j < |s| ensures s[i] != s[j] {
        assert t[i + 1] != t[j + 1];
      }
      forall k | 0 <= k < |s| ensures s[k] != x {
        assert t[0] != t[k + 1];
      }
    }
    if x !in s && Distinct(s) {
      forall i, j | 0 <= i < j < |t| ensures t[i] != t[j] {
        if i > 0 { assert t[i] == s[i - 1]; }
        assert t[j] == s[j - 1];
      }
    }
  }

  lemma {:induction false} ToSetCardinality<T>(s: seq<T>)
    ensures |ToSet(s)| <= |s|
    ensures Distinct(s) <==> |ToSet(s)| == |s|
  {
    if s != [] {
      ToSetCardinality(s[1..]);
      var rest := ToSet(s[1..]);
      assert s == [s[0]] + s[1..];
      DistinctCons(s[0], s[1..]);
      assert ToSet(s) == {s[0]} + rest;
      assert s[0] in rest <==> s[0] in s[1..];
      if s[0] in rest {
        assert ToSet(s) == rest;
      } else {
        assert |ToSet(s)| == |rest| + 1;
      }
    }
  }

  /** Filtering a list without repetitions leaves a list without repetitions. */
  lemma {:induction false} FilterDistinct<T>(s: seq<T>, p: T -> bool)
    requires Distinct(s)
    ensures Distinct(Filter(s, p))
  {
    if s != [] {
      assert s == [s[0]] + s[1..];
      DistinctCons(s[0], s[1..]);
      FilterDistinct(s[1..], p);
      if p(s[0]) {
        DistinctCons(s[0], Filter(s[1..], p));
      }
    }
  }

  /** The distinct elements of `s` that pass `p` are exactly the elements of `s` that pass `p`. */
  lemma FilterDedupMembers<T>(s: seq<T>, p: T -> bool)
    ensures forall x :: x in Filter(Dedup(s), p) <==> x in s && p(x)
  {
    var d := Dedup(s);
    forall x | x in s && p(x) ensures x in Filter(d, p) {
      var i :| 0 <= i < |s| && s[i] == x;
      var j :| 0 <= j < |d| && d[j] == x;
    }
  }

  /** `[...new Set(s)]`: the distinct elements of `s`, in order of first occurrence. */
  function Dedup<T(==)>(s: seq<T>): (r: seq<T>)
    ensures Distinct(r)
    ensures forall i :: 0 <= i < |r| ==> r[i] in s
    ensures forall i :: 0 <= i < |s| ==> s[i] in r
    decreases |s|
  {
    if s == [] then []
    else
      var init, last := s[..|s| - 1], s[|s| - 1];
      assert s == init + [last];
      var d := Dedup(init);
      if last in init then d else d + [last]
  }
}
