/** Sequence helpers: `Array.prototype.filter` and first-occurrence order. */
module Seqs {

  /** `s.filter(p)`, defined from the right so that it follows a forward loop. */
  function Filter<T(!new)>(s: seq<T>, p: T -> bool): (r: seq<T>)
    ensures |r| <= |s|
    ensures forall i :: 0 <= i < |r| ==> p(r[i])
  {
    if s == [] then []
    else Filter(s[..|s| - 1], p) + (if p(s[|s| - 1]) then [s[|s| - 1]] else [])
  }

  lemma {:induction false} FilterAppend<T(!new)>(a: seq<T>, b: seq<T>, p: T -> bool)
    ensures Filter(a + b, p) == Filter(a, p) + Filter(b, p)
    decreases |b|
  {
    if b == [] {
      assert a + b == a;
    } else {
      var ab := a + b;
      assert ab[..|ab| - 1] == a + b[..|b| - 1];
      FilterAppend(a, b[..|b| - 1], p);
    }
  }

  /** The kept elements are exactly the elements that satisfy `p`. */
  lemma {:induction false} FilterMembers<T(!new)>(s: seq<T>, p: T -> bool, x: T)
    ensures x in Filter(s, p) <==> x in s && p(x)
  {
    if s != [] {
      FilterMembers(s[..|s| - 1], p, x);
      assert s == s[..|s| - 1] + [s[|s| - 1]];
    }
  }

  lemma FilterSingleton<T(!new)>(x: T, p: T -> bool)
    ensures Filter([x], p) == if p(x) then [x] else []
  {
    assert [x][..0] == [];
  }

  /** Filtering keeps every element `p` accepts, as often as it occurs, and
      drops the others. */
  lemma {:induction false} FilterMultiset<T(!new)>(s: seq<T>, p: T -> bool, x: T)
    ensures multiset(Filter(s, p))[x] == if p(x) then multiset(s)[x] else 0
  {
    if s != [] {
      var init, last := s[..|s| - 1], s[|s| - 1];
      FilterMultiset(init, p, x);
      assert s == init + [last];
      assert multiset(s) == multiset(init) + multiset{last};
      var tail := if p(last) then [last] else [];
      assert Filter(s, p) == Filter(init, p) + tail;
      assert multiset(Filter(s, p)) == multiset(Filter(init, p)) + multiset(tail);
    }
  }

  /** Filters with the same verdict on every element agree. */
  lemma {:induction false} FilterExt<T(!new)>(s: seq<T>, p: T -> bool, q: T -> bool)
    requires forall i :: 0 <= i < |s| ==> p(s[i]) == q(s[i])
    ensures Filter(s, p) == Filter(s, q)
  {
    if s != [] { FilterExt(s[..|s| - 1], p, q); }
  }

  /** Two sequences that agree, position by position, on whether an element
      is kept keep equally many. */
  lemma {:induction false} FilterCountSame<T(!new)>(a: seq<T>, b: seq<T>, p: T -> bool, q: T -> bool)
    requires |a| == |b|
    requires forall i :: 0 <= i < |a| ==> (p(a[i]) <==> q(b[i]))
    ensures |Filter(a, p)| == |Filter(b, q)|
  {
    if a != [] {
      FilterCountSame(a[..|a| - 1], b[..|b| - 1], p, q);
      assert p(a[|a| - 1]) <==> q(b[|b| - 1]);
    }
  }

  /** The distinct elements of `s` in the order they first occur (the key
      order of an object built by a loop over `s`). */
  function Distinct<T(==,!new)>(s: seq<T>): (r: seq<T>)
    ensures forall x :: x in r <==> x in s
    ensures forall i, j :: 0 <= i < j < |r| ==> r[i] != r[j]
  {
    if s == [] then []
    else
      var d := Distinct(s[..|s| - 1]);
      if s[|s| - 1] in d then d else d + [s[|s| - 1]]
  }

  /** No element occurs twice. */
  predicate NoDuplicates<T(==)>(s: seq<T>) {
    forall i, j :: 0 <= i < j < |s| ==> s[i] != s[j]
  }

  /** The sum of a sequence of integers, left to right. */
  function Sum(s: seq<int>): int {
    if s == [] then 0 else Sum(s[..|s| - 1]) + s[|s| - 1]
  }

  lemma {:induction false} SumAppend(a: seq<int>, b: seq<int>)
    ensures Sum(a + b) == Sum(a) + Sum(b)
    decreases |b|
  {
    if b == [] {
      assert a + b == a;
    } else {
      var ab := a + b;
      assert ab[..|ab| - 1] == a + b[..|b| - 1];
      SumAppend(a, b[..|b| - 1]);
    }
  }
}
