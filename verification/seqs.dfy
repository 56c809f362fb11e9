/** Generic operations on sequences that the stores, the sales metrics and the
    forms are built from: `Array.prototype.filter`, `map`, `reduce`, removal by
    index and `[...new Set(xs)]`. */
module Seqs {

  /** `a` is an order-preserving subsequence of `b`: `a` can be obtained from
      `b` by deleting elements. */
  predicate IsSubsequence<T(==)>(a: seq<T>, b: seq<T>)
    decreases |b|
  {
    |a| == 0 ||
    (|b| > 0 &&
     ((a[0] == b[0] && IsSubsequence(a[1..], b[1..])) || IsSubsequence(a, b[1..])))
  }

  /** Every element of a subsequence is an element of the whole. */
  lemma {:induction false} SubsequenceMembers<T>(a: seq<T>, b: seq<T>)
    requires IsSubsequence(a, b)
    ensures forall x :: x in a ==> x in b
    decreases |b|
  {
    if |a| == 0 {
    } else if a[0] == b[0] && IsSubsequence(a[1..], b[1..]) {
      SubsequenceMembers(a[1..], b[1..]);
      forall x | x in a
        ensures x in b
      {
        if x != a[0] {
          assert x in a[1..];
        }
      }
    } else {
      SubsequenceMembers(a, b[1..]);
    }
  }

  /** No two elements of `s` share a key. */
  predicate KeysDistinct<T, K(==)>(s: seq<T>, key: T -> K) {
    forall i, j | 0 <= i < j < |s| :: key(s[i]) != key(s[j])
  }

  /** Deleting elements never creates a key collision. */
  lemma {:induction false} SubsequenceKeepsKeysDistinct<T, K>(a: seq<T>, b: seq<T>, key: T -> K)
    requires IsSubsequence(a, b)
    requires KeysDistinct(b, key)
    ensures KeysDistinct(a, key)
    decreases |b|
  {
    if |a| == 0 {
    } else {
      assert KeysDistinct(b[1..], key) by {
        forall i, j | 0 <= i < j < |b[1..]|
          ensures key(b[1..][i]) != key(b[1..][j])
        {
          assert b[1..][i] == b[i + 1] && b[1..][j] == b[j + 1];
        }
      }
      if a[0] == b[0] && IsSubsequence(a[1..], b[1..]) {
        SubsequenceKeepsKeysDistinct(a[1..], b[1..], key);
        SubsequenceMembers(a[1..], b[1..]);
        forall i, j | 0 <= i < j < |a|
          ensures key(a[i]) != key(a[j])
        {
          if i == 0 {
            assert a[j] == a[1..][j - 1];
            assert a[j] in a[1..];
            assert a[j] in b[1..];
            var m :| 0 <= m < |b[1..]| && b[1..][m] == a[j];
            assert b[m + 1] == a[j];
          } else {
            assert a[i] == a[1..][i - 1] && a[j] == a[1..][j - 1];
          }
        }
      } else {
        SubsequenceKeepsKeysDistinct(a, b[1..], key);
      }
    }
  }

  /** `s.filter(p)`: the elements of `s` satisfying `p`, in their original
      order. */
  function Filter<T(==,!new)>(s: seq<T>, p: T -> bool): (r: seq<T>)
    ensures |r| <= |s|
    ensures forall x :: x in r <==> x in s && p(x)
  {
    if |s| == 0 then []
    else
      var rest := Filter(s[1..], p);
      assert s == [s[0]] + s[1..];
      if p(s[0]) then [s[0]] + rest else rest
  }

  /** The filter keeps every element satisfying `p` with its full
      multiplicity, and no other element. */
  lemma {:induction false} FilterMultiplicity<T(!new)>(s: seq<T>, p: T -> bool)
    ensures forall x :: multiset(Filter(s, p))[x] == if p(x) then multiset(s)[x] else 0
  {
    if |s| > 0 {
      FilterMultiplicity(s[1..], p);
      assert s == [s[0]] + s[1..];
    }
  }

  /** The filter deletes elements and never reorders them. */
  lemma {:induction false} FilterIsSubsequence<T(!new)>(s: seq<T>, p: T -> bool)
    ensures IsSubsequence(Filter(s, p), s)
  {
    if |s| > 0 {
      var rest := Filter(s[1..], p);
      FilterIsSubsequence(s[1..], p);
      if p(s[0]) {
        assert ([s[0]] + rest)[1..] == rest;
      }
    }
  }

  /** A filter whose predicate holds of every element keeps the sequence whole. */
  lemma {:induction false} FilterKeepsAll<T(!new)>(s: seq<T>, p: T -> bool)
    requires forall x :: x in s ==> p(x)
    ensures Filter(s, p) == s
  {
    if |s| > 0 {
      FilterKeepsAll(s[1..], p);
    }
  }

  /** Filters whose predicates agree on every element of `s` select the same
      elements. */
  lemma {:induction false} FilterCongruent<T(!new)>(s: seq<T>, p: T -> bool, q: T -> bool)
    requires forall x :: x in s ==> p(x) == q(x)
    ensures Filter(s, p) == Filter(s, q)
  {
    if |s| > 0 {
      FilterCongruent(s[1..], p, q);
    }
  }

  /** Filtering a sequence extended at the end extends the filtered sequence
      by that element exactly when it satisfies the predicate. */
  lemma {:induction false} FilterSnoc<T(!new)>(s: seq<T>, x: T, p: T -> bool)
    ensures Filter(s + [x], p) == Filter(s, p) + (if p(x) then [x] else [])
  {
    if |s| == 0 {
      assert Filter([x], p) == (if p(x) then [x] else []) + Filter([], p);
    } else {
      assert (s + [x])[0] == s[0];
      assert (s + [x])[1..] == s[1..] + [x];
      FilterSnoc(s[1..], x, p);
    }
  }

  /** `s.map(f)`. */
  function Map<T, U>(s: seq<T>, f: T -> U): (r: seq<U>)
    ensures |r| == |s|
    ensures forall i | 0 <= i < |s| :: r[i] == f(s[i])
  {
    seq(|s|, i requires 0 <= i < |s| => f(s[i]))
  }

  /** `s.reduce((sum, x) => sum + f(x), 0)`: the sum folds from the left, so it
      is defined on a prefix and the last element. */
  function SumOf<T>(s: seq<T>, f: T -> int): int
  {
    if |s| == 0 then 0 else SumOf(s[..|s| - 1], f) + f(s[|s| - 1])
  }

  /** The sum over a sequence extended at the end adds that element's value. */
  lemma SumOfSnoc<T>(s: seq<T>, x: T, f: T -> int)
    ensures SumOf(s + [x], f) == SumOf(s, f) + f(x)
  {
    assert (s + [x])[..|s|] == s;
  }

  /** `s.filter((_, j) => j !== i)`: drops the element at position `i`, and
      nothing when `i` is not a position of `s`. */
  function RemoveAt<T>(s: seq<T>, i: int): (r: seq<T>)
    ensures 0 <= i < |s| ==> r == s[..i] + s[i + 1..]
    ensures !(0 <= i < |s|) ==> r == s
  {
    if |s| == 0 then []
    else
      var rest := RemoveAt(s[1..], i - 1);
      assert s == [s[0]] + s[1..];
      if i == 0 then rest else [s[0]] + rest
  }

  /** The position of the first occurrence of `x` in `xs`. */
  function FirstIndex<T(==)>(xs: seq<T>, x: T): (k: nat)
    requires x in xs
    ensures k < |xs| && xs[k] == x && x !in xs[..k]
  {
    if xs[0] == x then 0
    else
      assert x in xs[1..];
      var k := FirstIndex(xs[1..], x);
      assert xs[..k + 1] == [xs[0]] + xs[1..][..k];
      k + 1
  }

  /** The first occurrence of an element of a prefix lies within the prefix. */
  lemma FirstIndexInPrefix<T>(xs: seq<T>, n: nat, x: T)
    requires n <= |xs| && x in xs[..n]
    ensures FirstIndex(xs, x) == FirstIndex(xs[..n], x) < n
  {
    var k, k' := FirstIndex(xs, x), FirstIndex(xs[..n], x);
    assert xs[..n][..k'] == xs[..k'];
  }

  /** No element occurs twice. */
  predicate NoDuplicates<T(==)>(s: seq<T>) {
    forall i, j | 0 <= i < j < |s| :: s[i] != s[j]
  }

  /** The elements of `r` come from `xs` and appear in the order of their first
      occurrence in `xs`. */
  predicate InFirstOccurrenceOrder<T(==)>(r: seq<T>, xs: seq<T>) {
    forall i, j | 0 <= i < j < |r| ::
      r[i] in xs && r[j] in xs && FirstIndex(xs, r[i]) < FirstIndex(xs, r[j])
  }

  /** `[...new Set(xs)]`: each element of `xs` once (a JavaScript `Set`
      iterates in insertion order, so the first occurrence decides the
      position; see `DistinctOrder`). */
  function Distinct<T(==,!new)>(xs: seq<T>): (r: seq<T>)
    ensures NoDuplicates(r)
    ensures forall x :: x in r <==> x in xs
  {
    if |xs| == 0 then []
    else
      var n := |xs| - 1;
      var init := xs[..n];
      assert xs == init + [xs[n]];
      var d := Distinct(init);
      if xs[n] in d then d else d + [xs[n]]
  }

  /** The distinct elements appear in the order of their first occurrence. */
  lemma {:induction false} DistinctOrder<T(!new)>(xs: seq<T>)
    ensures InFirstOccurrenceOrder(Distinct(xs), xs)
  {
    if |xs| > 0 {
      var n := |xs| - 1;
      var init := xs[..n];
      var d := Distinct(init);
      DistinctOrder(init);
      assert forall i | 0 <= i < |d| :: d[i] in init by {
        forall i | 0 <= i < |d| ensures d[i] in init { assert d[i] in d; }
      }
      DistinctOrderStep(xs, d);
    }
  }

  /** Extending the input at the end extends the distinct elements by that
      element exactly when it is new. */
  lemma DistinctSnoc<T(!new)>(xs: seq<T>, x: T)
    ensures Distinct(xs + [x]) == if x in xs then Distinct(xs) else Distinct(xs) + [x]
  {
    assert (xs + [x])[..|xs|] == xs;
  }

  /** A sequence without duplicates is its own sequence of distinct
      elements. */
  lemma {:induction false} DistinctOfNoDuplicates<T(!new)>(xs: seq<T>)
    requires NoDuplicates(xs)
    ensures Distinct(xs) == xs
  {
    if |xs| > 0 {
      var n := |xs| - 1;
      var init := xs[..n];
      assert NoDuplicates(init) by {
        forall i, j | 0 <= i < j < |init| ensures init[i] != init[j] {
          assert init[i] == xs[i] && init[j] == xs[j];
        }
      }
      DistinctOfNoDuplicates(init);
      assert xs[n] !in init by {
        forall i | 0 <= i < |init| ensures init[i] != xs[n] {
          assert init[i] == xs[i];
        }
      }
      assert init + [xs[n]] == xs;
      DistinctSnoc(init, xs[n]);
    }
  }

  /** The inductive step of `Distinct`: first occurrences in a prefix are first
      occurrences in the whole, and an element absent from the prefix has its
      first occurrence right after it. */
  lemma DistinctOrderStep<T>(xs: seq<T>, d: seq<T>)
    requires |xs| > 0
    requires forall i | 0 <= i < |d| :: d[i] in xs[..|xs| - 1]
    requires InFirstOccurrenceOrder(d, xs[..|xs| - 1])
    ensures InFirstOccurrenceOrder(d, xs)
    ensures xs[|xs| - 1] !in xs[..|xs| - 1] ==> InFirstOccurrenceOrder(d + [xs[|xs| - 1]], xs)
  {
    var n := |xs| - 1;
    forall i | 0 <= i < |d|
      ensures d[i] in xs && FirstIndex(xs, d[i]) == FirstIndex(xs[..n], d[i]) < n
    {
      FirstIndexInPrefix(xs, n, d[i]);
    }
    if xs[n] !in xs[..n] {
      assert FirstIndex(xs, xs[n]) == n;
      var e := d + [xs[n]];
      forall i, j | 0 <= i < j < |e|
        ensures e[i] in xs && e[j] in xs && FirstIndex(xs, e[i]) < FirstIndex(xs, e[j])
      {
        assert e[i] == d[i];
        if j < |d| {
          assert e[j] == d[j];
        }
      }
    }
  }
}
