/**
 * Ruby's default string ordering (`String#<=>`, code point by code point)
 * and `Array#sort` on strings.
 */
module Sorting {

  /** `a` sorts strictly before `b`. */
  predicate Below(a: string, b: string)
    decreases |a|
  {
    if |a| == 0 then |b| > 0
    else if |b| == 0 then false
    else if a[0] == b[0] then Below(a[1..], b[1..])
    else a[0] < b[0]
  }

  lemma {:induction false} BelowIrreflexive(a: string)
    ensures !Below(a, a)
    decreases |a|
  {
    if |a| > 0 {
      BelowIrreflexive(a[1..]);
    }
  }

  lemma {:induction false} BelowAsymmetric(a: string, b: string)
    ensures !(Below(a, b) && Below(b, a))
    decreases |a|
  {
    if |a| > 0 && |b| > 0 && a[0] == b[0] {
      BelowAsymmetric(a[1..], b[1..]);
    }
  }

  lemma {:induction false} BelowTransitive(a: string, b: string, c: string)
    requires Below(a, b) && Below(b, c)
    ensures Below(a, c)
    decreases |a|
  {
    if |a| > 0 && a[0] == b[0] && b[0] == c[0] {
      BelowTransitive(a[1..], b[1..], c[1..]);
    }
  }

  lemma {:induction false} BelowTotal(a: string, b: string)
    ensures a == b || Below(a, b) || Below(b, a)
    decreases |a|
  {
    if |a| > 0 && |b| > 0 && a[0] == b[0] {
      BelowTotal(a[1..], b[1..]);
      if a[1..] == b[1..] {
        assert a == [a[0]] + a[1..] && b == [b[0]] + b[1..];
      }
    }
  }

  /** Non-strict order: `a` sorts no later than `b`. */
  predicate AtMost(a: string, b: string) {
    !Below(b, a)
  }

  lemma AtMostTransitive(a: string, b: string, c: string)
    requires AtMost(a, b) && AtMost(b, c)
    ensures AtMost(a, c)
  {
    if Below(c, a) {
      BelowTotal(a, b);
      if a != b {
        BelowTransitive(c, a, b);
      }
    }
  }

  predicate Sorted(xs: seq<string>) {
    forall i, j :: 0 <= i < j < |xs| ==> AtMost(xs[i], xs[j])
  }

  predicate StrictlySorted(xs: seq<string>) {
    forall i, j :: 0 <= i < j < |xs| ==> Below(xs[i], xs[j])
  }

  predicate Distinct<T(==)>(xs: seq<T>) {
    forall i, j :: 0 <= i < j < |xs| ==> xs[i] != xs[j]
  }

  /** Inserts `x` into the sorted list `xs`, before the first element not below it. */
  function Insert(x: string, xs: seq<string>): (r: seq<string>)
    requires Sorted(xs)
    ensures Sorted(r)
    ensures multiset(r) == multiset(xs) + multiset{x}
    decreases |xs|
  {
    if |xs| == 0 then [x]
    else if AtMost(x, xs[0]) then
      BoundsSorted(x, xs);
      assert xs == [xs[0]] + xs[1..];
      [x] + xs
    else
      var rest := Insert(x, xs[1..]);
      HeadBoundsRest(x, xs, rest);
      ConsSorted(xs[0], rest);
      assert xs == [xs[0]] + xs[1..];
      [xs[0]] + rest
  }

  /** An element no later than the head of a sorted list is no later than any of its elements. */
  lemma BoundsSorted(x: string, xs: seq<string>)
    requires Sorted(xs) && |xs| > 0 && AtMost(x, xs[0])
    ensures forall j :: 0 <= j < |xs| ==> AtMost(x, xs[j])
  {
    forall j | 0 <= j < |xs|
      ensures AtMost(x, xs[j])
    {
      if j > 0 {
        AtMostTransitive(x, xs[0], xs[j]);
      }
    }
  }

  /** The head of a sorted list is no later than `x` placed after it, nor than any of its other elements. */
  lemma HeadBoundsRest(x: string, xs: seq<string>, rest: seq<string>)
    requires Sorted(xs) && |xs| > 0 && !AtMost(x, xs[0])
    requires multiset(rest) == multiset(xs[1..]) + multiset{x}
    ensures forall j :: 0 <= j < |rest| ==> AtMost(xs[0], rest[j])
  {
    assert AtMost(xs[0], x) by {
      BelowAsymmetric(x, xs[0]);
    }
    forall j | 0 <= j < |rest|
      ensures AtMost(xs[0], rest[j])
    {
      assert rest[j] in multiset(rest);
      if rest[j] != x {
        assert rest[j] in multiset(xs[1..]);
        var k :| 0 <= k < |xs[1..]| && xs[1..][k] == rest[j];
        assert xs[k + 1] == rest[j];
      }
    }
  }

  /** A bound of a sorted list placed in front of it keeps it sorted. */
  lemma ConsSorted(h: string, rest: seq<string>)
    requires Sorted(rest) && forall j :: 0 <= j < |rest| ==> AtMost(h, rest[j])
    ensures Sorted([h] + rest)
  {
    var r := [h] + rest;
    forall i, j | 0 <= i < j < |r|
      ensures AtMost(r[i], r[j])
    {
      if i > 0 {
        assert r[i] == rest[i - 1] && r[j] == rest[j - 1];
      } else {
        assert r[j] == rest[j - 1];
      }
    }
  }

  /** `xs.sort`: the elements of `xs` in ascending order. */
  function Sort(xs: seq<string>): (r: seq<string>)
    ensures Sorted(r)
    ensures multiset(r) == multiset(xs)
    decreases |xs|
  {
    if |xs| == 0 then []
    else
      assert xs == [xs[0]] + xs[1..];
      Insert(xs[0], Sort(xs[1..]))
  }

  /** Sorting a list without repetitions yields a strictly ascending list of the same elements. */
  lemma SortDistinct(xs: seq<string>)
    requires Distinct(xs)
    ensures StrictlySorted(Sort(xs))
    ensures forall x :: x in Sort(xs) <==> x in xs
  {
    var r := Sort(xs);
    assert forall x :: x in r <==> x in multiset(r);
    assert forall x :: x in xs <==> x in multiset(xs);
    DistinctMultiset(xs);
    forall i, j | 0 <= i < j < |r|
      ensures Below(r[i], r[j])
    {
      if r[i] == r[j] {
        MultisetRepeat(r, i, j);
      }
      BelowTotal(r[i], r[j]);
    }
  }

  /** Every element of a list without repetitions occurs once. */
  lemma {:induction false} DistinctMultiset<T>(xs: seq<T>)
    requires Distinct(xs)
    ensures forall x :: multiset(xs)[x] <= 1
    decreases |xs|
  {
    if |xs| > 0 {
      var init := xs[..|xs| - 1];
      DistinctMultiset(init);
      assert xs == init + [xs[|xs| - 1]];
      assert xs[|xs| - 1] !in init;
    }
  }

  /** A value found at two positions occurs at least twice. */
  lemma MultisetRepeat<T>(xs: seq<T>, i: nat, j: nat)
    requires i < j < |xs| && xs[i] == xs[j]
    ensures multiset(xs)[xs[i]] >= 2
  {
    assert xs == xs[..i] + [xs[i]] + xs[i + 1..j] + [xs[j]] + xs[j + 1..];
  }
}
