/** The order the tools and the site use on ISO date strings: lexicographic comparison
    of characters (Python's `<` on `str`, JavaScript's default `Array.prototype.sort`),
    and sorting under it. */
module Lex {
  import opened Seqs

  predicate Less(a: string, b: string)
    decreases |a|
  {
    if |a| == 0 then |b| > 0
    else if |b| == 0 then false
    else a[0] < b[0] || (a[0] == b[0] && Less(a[1..], b[1..]))
  }

  predicate Leq(a: string, b: string)
  {
    a == b || Less(a, b)
  }

  lemma {:induction false} LessIrreflexive(a: string)
    ensures !Less(a, a)
  {
    if |a| > 0 {
      LessIrreflexive(a[1..]);
    }
  }

  lemma {:induction false} LessAsymmetric(a: string, b: string)
    requires Less(a, b)
    ensures !Less(b, a)
  {
    if |a| > 0 && |b| > 0 && a[0] == b[0] {
      LessAsymmetric(a[1..], b[1..]);
    }
  }

  lemma {:induction false} LessTransitive(a: string, b: string, c: string)
    requires Less(a, b) && Less(b, c)
    ensures Less(a, c)
  {
    if |a| > 0 && a[0] == b[0] && b[0] == c[0] {
      LessTransitive(a[1..], b[1..], c[1..]);
    }
  }

  lemma {:induction false} LessTotal(a: string, b: string)
    ensures a == b || Less(a, b) || Less(b, a)
  {
    if |a| > 0 && |b| > 0 && a[0] == b[0] {
      LessTotal(a[1..], b[1..]);
      if a[1..] == b[1..] {
        assert a == [a[0]] + a[1..] && b == [b[0]] + b[1..];
      }
    }
  }

  /** A string sorts before every longer string it begins. */
  lemma {:induction false} LessProperPrefix(a: string, t: string)
    requires t != []
    ensures Less(a, a + t)
  {
    if a != [] {
      assert (a + t)[1..] == a[1..] + t;
      LessProperPrefix(a[1..], t);
    }
  }

  lemma LeqTransitive(a: string, b: string, c: string)
    requires Leq(a, b) && Leq(b, c)
    ensures Leq(a, c)
  {
    if a != b && b != c {
      LessTransitive(a, b, c);
    }
  }

  /** Non-decreasing: what `dates == sorted(dates)` tests. */
  predicate Sorted(s: seq<string>)
  {
    forall i, j :: 0 <= i < j < |s| ==> Leq(s[i], s[j])
  }

  /** Strictly increasing: sorted ascending with no repeated element. */
  predicate Increasing(s: seq<string>)
  {
    forall i, j :: 0 <= i < j < |s| ==> Less(s[i], s[j])
  }

  function Insert(x: string, s: seq<string>): (r: seq<string>)
    requires Sorted(s)
    ensures multiset(r) == multiset(s) + multiset{x}
    ensures Sorted(r)
  {
    if s == [] then [x]
    else if Leq(x, s[0]) then
      PrependSorted(x, s);
      [x] + s
    else
      assert s == [s[0]] + s[1..];
      var t := Insert(x, s[1..]);
      InsertLowerBound(x, s, t);
      PrependSorted(s[0], t);
      [s[0]] + t
  }

  lemma PrependSorted(h: string, t: seq<string>)
    requires Sorted(t) && (t == [] || Leq(h, t[0]))
    ensures Sorted([h] + t)
  {
    forall j | 0 <= j < |t| ensures Leq(h, t[j]) {
      if j > 0 { LeqTransitive(h, t[0], t[j]); }
    }
  }

  lemma InsertLowerBound(x: string, s: seq<string>, t: seq<string>)
    requires Sorted(s) && s != [] && !Leq(x, s[0])
    requires multiset(t) == multiset(s[1..]) + multiset{x}
    ensures t == [] || Leq(s[0], t[0])
  {
    if t != [] {
      assert t[0] in multiset(t);
      if t[0] != x {
        assert t[0] in multiset(s[1..]);
        var k :| 0 <= k < |s[1..]| && s[1..][k] == t[0];
        assert s[k + 1] == t[0];
      } else {
        LessTotal(x, s[0]);
      }
    }
  }

  /** `sorted(s)`: insertion sort under `Less`. */
  function Sort(s: seq<string>): (r: seq<string>)
    ensures multiset(r) == multiset(s)
    ensures Sorted(r)
  {
    if s == [] then [] else
      assert s == [s[0]] + s[1..];
      Insert(s[0], Sort(s[1..]))
  }

  /** Two sorted arrangements of the same strings are equal, so `Sort` computes exactly
      what any correct sort (Python's `sorted`, JavaScript's `sort()`) returns. */
  lemma {:induction false} SortedUnique(a: seq<string>, b: seq<string>)
    requires Sorted(a) && Sorted(b) && multiset(a) == multiset(b)
    ensures a == b
  {
    if a != [] {
      assert |b| == |multiset(b)| == |multiset(a)| == |a|;
      SortedHeads(a, b);
      SortedTail(a);
      SortedTail(b);
      SortedUnique(a[1..], b[1..]);
      assert a == [a[0]] + a[1..] && b == [b[0]] + b[1..];
    } else {
      assert |b| == |multiset(b)|;
    }
  }

  /** Two sorted arrangements of the same strings start with the same string. */
  lemma SortedHeads(a: seq<string>, b: seq<string>)
    requires Sorted(a) && Sorted(b) && multiset(a) == multiset(b) && a != [] && b != []
    ensures a[0] == b[0]
  {
    assert a[0] in multiset(b) && b[0] in multiset(a);
    assert Leq(b[0], a[0]) && Leq(a[0], b[0]);
    if a[0] != b[0] {
      LessAsymmetric(a[0], b[0]);
    }
  }

  /** Dropping the head of a sorted list leaves a sorted list of the other strings. */
  lemma SortedTail(a: seq<string>)
    requires Sorted(a) && a != []
    ensures Sorted(a[1..])
    ensures multiset(a[1..]) == multiset(a) - multiset{a[0]}
  {
    assert a == [a[0]] + a[1..];
    forall i, j | 0 <= i < j < |a| - 1 ensures Leq(a[1..][i], a[1..][j]) {
      assert a[1..][i] == a[i + 1] && a[1..][j] == a[j + 1];
    }
  }

  /** Sorting a list that is already sorted returns it unchanged. */
  lemma SortOfSorted(s: seq<string>)
    requires Sorted(s)
    ensures Sort(s) == s
  {
    SortedUnique(Sort(s), s);
  }

  lemma IncreasingIsSortedAndDistinct(s: seq<string>)
    ensures Increasing(s) <==> Sorted(s) && Distinct(s)
  {
    if Increasing(s) {
      forall i, j | 0 <= i < j < |s| ensures s[i] != s[j] {
        LessIrreflexive(s[i]);
      }
    }
  }

  /** Sorting a list without repetitions gives a strictly increasing list of the same strings. */
  lemma SortDistinct(s: seq<string>)
    requires Distinct(s)
    ensures Increasing(Sort(s))
    ensures ToSet(Sort(s)) == ToSet(s)
  {
    var r := Sort(s);
    assert |r| == |multiset(r)| == |multiset(s)| == |s|;
    assert forall x :: x in r <==> x in multiset(r);
    assert forall x :: x in s <==> x in multiset(s);
    assert ToSet(r) == ToSet(s);
    ToSetCardinality(s);
    ToSetCardinality(r);
    IncreasingIsSortedAndDistinct(r);
  }

  /** A strictly increasing list is determined by the set of its elements: Python's
      `sorted(S)` of a set `S` is the one strictly increasing list holding exactly `S`. */
  lemma {:induction false} IncreasingUnique(a: seq<string>, b: seq<string>)
    requires Increasing(a) && Increasing(b) && ToSet(a) == ToSet(b)
    ensures a == b
  {
    if a == [] {
      IncreasingIsSortedAndDistinct(b);
      ToSetCardinality(b);
      assert ToSet(a) == {};
    } else {
      assert a[0] in ToSet(b) && b != [];
      assert b[0] in ToSet(a);
      if a[0] != b[0] {
        var i :| 0 <= i < |a| && a[i] == b[0];
        var j :| 0 <= j < |b| && b[j] == a[0];
        LessAsymmetric(a[0], b[0]);
      }
      forall x | x in a[1..] ensures x != a[0] {
        var k :| 0 <= k < |a[1..]| && a[1..][k] == x;
        assert a[k + 1] == x;
        LessIrreflexive(a[0]);
      }
      forall x | x in b[1..] ensures x != b[0] {
        var k :| 0 <= k < |b[1..]| && b[1..][k] == x;
        assert b[k + 1] == x;
        LessIrreflexive(b[0]);
      }
      assert a == [a[0]] + a[1..] && b == [b[0]] + b[1..];
      assert ToSet(a[1..]) == ToSet(a) - {a[0]};
      assert ToSet(b[1..]) == ToSet(b) - {b[0]};
      IncreasingUnique(a[1..], b[1..]);
    }
  }
}
