/**
 * The orderings the program relies on through Python's `sorted` and pandas'
 * sorted group keys: strings compared code point by code point (a proper
 * prefix first), duplicate-free sorted string lists (`sorted(set(xs))`), and
 * integer lists sorted in descending order (`sorted(xs, reverse=True)`).
 */
module Ordering {

  /** `a < b` on Python strings: lexicographic on code points, a proper prefix first. */
  predicate Below(a: string, b: string)
  {
    if |a| == 0 then |b| > 0
    else if |b| == 0 then false
    else if a[0] == b[0] then Below(a[1..], b[1..])
    else a[0] < b[0]
  }

  lemma {:induction false} BelowIrreflexive(a: string)
    ensures !Below(a, a)
  {
    if |a| > 0 { BelowIrreflexive(a[1..]); }
  }

  lemma {:induction false} BelowTransitive(a: string, b: string, c: string)
    requires Below(a, b) && Below(b, c)
    ensures Below(a, c)
  {
    if |a| > 0 && |b| > 0 && |c| > 0 && a[0] == b[0] && b[0] == c[0] {
      BelowTransitive(a[1..], b[1..], c[1..]);
    }
  }

  /** Any two different strings are ordered one way or the other. */
  lemma {:induction false} BelowTotal(a: string, b: string)
    ensures a == b || Below(a, b) || Below(b, a)
  {
    if |a| > 0 && |b| > 0 && a[0] == b[0] {
      BelowTotal(a[1..], b[1..]);
      if a[1..] == b[1..] {
        assert a == [a[0]] + a[1..] && b == [b[0]] + b[1..];
      }
    }
  }

  lemma {:induction false} BelowAsymmetric(a: string, b: string)
    requires Below(a, b)
    ensures !Below(b, a)
  {
    if Below(b, a) {
      BelowTransitive(a, b, a);
      BelowIrreflexive(a);
    }
  }

  /** Sorted ascending with no repeats. */
  ghost predicate StrictlyIncreasing(s: seq<string>)
  {
    forall i, j :: 0 <= i < j < |s| ==> Below(s[i], s[j])
  }

  /** A strictly increasing list holds every value at most once. */
  lemma StrictlyIncreasingDistinct(s: seq<string>, i: int, j: int)
    requires StrictlyIncreasing(s)
    requires 0 <= i < |s| && 0 <= j < |s| && i != j
    ensures s[i] != s[j]
  {
    if i < j { BelowIrreflexive(s[i]); } else { BelowIrreflexive(s[j]); }
  }

  /** `x` put into its place in a sorted duplicate-free list, unless it is already there. */
  function InsertSorted(x: string, s: seq<string>): (r: seq<string>)
    requires StrictlyIncreasing(s)
    ensures StrictlyIncreasing(r)
    ensures forall y :: y in r <==> y == x || y in s
    ensures |r| <= |s| + 1
  {
    if s == [] then [x]
    else if x == s[0] then s
    else if Below(x, s[0]) then
      assert forall j :: 0 < j < |s| ==> Below(x, s[j]) by {
        forall j | 0 < j < |s| ensures Below(x, s[j]) { BelowTransitive(x, s[0], s[j]); }
      }
      [x] + s
    else
      BelowTotal(x, s[0]);
      var rest := InsertSorted(x, s[1..]);
      assert forall y :: y in rest ==> Below(s[0], y);
      [s[0]] + rest
  }

  /** `sorted(set(xs))`: the distinct values of `xs` in ascending order. */
  function SortedSet(xs: seq<string>): (r: seq<string>)
    ensures StrictlyIncreasing(r)
    ensures forall y :: y in r <==> y in xs
    ensures |r| <= |xs|
  {
    if xs == [] then [] else InsertSorted(xs[|xs| - 1], SortedSet(xs[..|xs| - 1]))
  }

  /** A duplicate-free ascending list is fixed by its set of values. */
  lemma {:induction false} StrictlyIncreasingUnique(s: seq<string>, t: seq<string>)
    requires StrictlyIncreasing(s) && StrictlyIncreasing(t)
    requires forall y :: y in s <==> y in t
    ensures s == t
  {
    assert s != [] ==> s[0] in t;
    assert t != [] ==> t[0] in s;
    if s != [] && t != [] {
      HeadsAgree(s, t);
      HeadsAgree(t, s);
      BelowTotal(s[0], t[0]);
      assert s[0] == t[0];
      assert s == [s[0]] + s[1..] && t == [t[0]] + t[1..];
      forall y ensures y in s[1..] <==> y in t[1..] {
        if y in s[1..] {
          var k :| 1 <= k < |s| && s[k] == y;
          StrictlyIncreasingDistinct(s, 0, k);
          assert y in t;
          var m :| 0 <= m < |t| && t[m] == y;
          assert t[1..][m - 1] == y;
        }
        if y in t[1..] {
          var k :| 1 <= k < |t| && t[k] == y;
          StrictlyIncreasingDistinct(t, 0, k);
          assert y in s;
          var m :| 0 <= m < |s| && s[m] == y;
          assert s[1..][m - 1] == y;
        }
      }
      StrictlyIncreasingUnique(s[1..], t[1..]);
    }
  }

  /** The head of a strictly increasing list is not above any value of an equal-valued one. */
  lemma {:induction false} HeadsAgree(s: seq<string>, t: seq<string>)
    requires StrictlyIncreasing(s) && StrictlyIncreasing(t)
    requires forall y :: y in s <==> y in t
    requires s != [] && t != []
    ensures !Below(t[0], s[0])
  {
    assert t[0] in t;
    var k :| 0 <= k < |s| && s[k] == t[0];
    if k > 0 {
      BelowAsymmetric(s[0], s[k]);
    } else {
      BelowIrreflexive(t[0]);
    }
  }

  /** Sorting a list of distinct values that is already sorted returns it unchanged. */
  lemma {:induction false} SortedSetOfSorted(s: seq<string>)
    requires StrictlyIncreasing(s)
    ensures SortedSet(s) == s
  {
    StrictlyIncreasingUnique(SortedSet(s), s);
  }

  /** Non-increasing order: what `sorted(..., reverse=True)` gives. */
  ghost predicate Descending(s: seq<int>)
  {
    forall i, j :: 0 <= i < j < |s| ==> s[i] >= s[j]
  }

  /** A value no smaller than a descending sequence's head can go in front of it. */
  lemma DescendingCons(a: int, t: seq<int>)
    requires Descending(t)
    requires t == [] || a >= t[0]
    ensures Descending([a] + t)
  {
    forall i, j | 0 <= i < j < |[a] + t| ensures ([a] + t)[i] >= ([a] + t)[j]
    {
      if i > 0 {
        assert ([a] + t)[i] == t[i - 1];
      }
    }
  }

  function InsertDescending(x: int, s: seq<int>): (r: seq<int>)
    requires Descending(s)
    ensures Descending(r)
    ensures multiset(r) == multiset(s) + multiset{x}
    ensures |r| == |s| + 1 && (r[0] == x || (s != [] && r[0] == s[0]))
  {
    if s == [] || x >= s[0] then
      DescendingCons(x, s);
      [x] + s
    else
      assert s == [s[0]] + s[1..];
      var rest := InsertDescending(x, s[1..]);
      DescendingCons(s[0], rest);
      [s[0]] + rest
  }

  /** `sorted(xs, reverse=True)`: the same values, largest first. */
  function SortedDescending(xs: seq<int>): (r: seq<int>)
    ensures Descending(r)
    ensures multiset(r) == multiset(xs)
  {
    if xs == [] then []
    else
      assert xs == xs[..|xs| - 1] + [xs[|xs| - 1]];
      InsertDescending(xs[|xs| - 1], SortedDescending(xs[..|xs| - 1]))
  }
}
