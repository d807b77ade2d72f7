/**
 * Ordering of query results. Every `order_by` the views use compares one
 * integer column and/or one string column, so a single key type covers them:
 * `Rank(primary, secondary)` compared lexicographically, with a descending
 * column written as the negated value.
 */
module Sorting {
  import Text

  datatype Rank = Rank(primary: int, secondary: string)

  predicate RankLe(a: Rank, b: Rank)
  {
    a.primary < b.primary || (a.primary == b.primary && Text.StrLe(a.secondary, b.secondary))
  }

  lemma RankLeTotal(a: Rank, b: Rank)
    ensures RankLe(a, b) || RankLe(b, a)
  {
    Text.StrLeTotal(a.secondary, b.secondary);
  }

  lemma RankLeTransitive(a: Rank, b: Rank, c: Rank)
    requires RankLe(a, b) && RankLe(b, c)
    ensures RankLe(a, c)
  {
    if a.primary == b.primary == c.primary {
      Text.StrLeTransitive(a.secondary, b.secondary, c.secondary);
    }
  }

  /** Every earlier element ranks no higher than every later one. */
  predicate SortedBy<T>(xs: seq<T>, key: T -> Rank)
  {
    forall i, j :: 0 <= i < j < |xs| ==> RankLe(key(xs[i]), key(xs[j]))
  }

  /** No element occurs twice. */
  predicate NoDup<T(==)>(xs: seq<T>)
  {
    forall i, j :: 0 <= i < j < |xs| ==> xs[i] != xs[j]
  }

  /** Inserts `x` in front of the first element it ranks no higher than. */
  function Insert<T>(x: T, xs: seq<T>, key: T -> Rank): (r: seq<T>)
    requires SortedBy(xs, key)
    ensures multiset(r) == multiset(xs) + multiset{x}
    ensures SortedBy(r, key)
  {
    if xs == [] then [x]
    else if RankLe(key(x), key(xs[0])) then
      HeadBelowTail(xs, key);
      forall y | y in multiset(xs) ensures RankLe(key(x), key(y)) {
        if y != xs[0] { RankLeTransitive(key(x), key(xs[0]), key(y)); }
      }
      ConsSorted(x, xs, key);
      [x] + xs
    else
      assert xs == [xs[0]] + xs[1..];
      var rest := Insert(x, xs[1..], key);
      RankLeTotal(key(x), key(xs[0]));
      HeadBelowTail(xs, key);
      assert forall y :: y in multiset(rest) ==> y == x || y in xs[1..];
      ConsSorted(xs[0], rest, key);
      [xs[0]] + rest
  }

  /** The head of a sorted sequence ranks no higher than any element. */
  lemma HeadBelowTail<T>(xs: seq<T>, key: T -> Rank)
    requires xs != [] && SortedBy(xs, key)
    ensures forall y :: y in xs ==> RankLe(key(xs[0]), key(y))
  {
    forall y | y in xs ensures RankLe(key(xs[0]), key(y)) {
      var j :| 0 <= j < |xs| && xs[j] == y;
      if j == 0 { RankLeTotal(key(y), key(y)); }
    }
  }

  /** Putting in front an element no higher than the rest keeps a sorted sequence sorted. */
  lemma ConsSorted<T>(h: T, rest: seq<T>, key: T -> Rank)
    requires SortedBy(rest, key)
    requires forall y :: y in multiset(rest) ==> RankLe(key(h), key(y))
    ensures SortedBy([h] + rest, key)
  {
    var r := [h] + rest;
    forall i, j | 0 <= i < j < |r| ensures RankLe(key(r[i]), key(r[j])) {
      assert r[j] == rest[j - 1] && rest[j - 1] in multiset(rest);
      if i > 0 { assert r[i] == rest[i - 1]; }
    }
  }

  /** Stable insertion sort of `xs` by `key`. */
  function SortBy<T>(xs: seq<T>, key: T -> Rank): (r: seq<T>)
    ensures multiset(r) == multiset(xs)
    ensures |r| == |xs|
    ensures SortedBy(r, key)
  {
    if xs == [] then []
    else
      assert xs == [xs[0]] + xs[1..];
      var r := Insert(xs[0], SortBy(xs[1..], key), key);
      assert |r| == |multiset(r)|;
      r
  }

  lemma {:induction false} NoDupCount<T>(xs: seq<T>, x: T)
    requires NoDup(xs)
    ensures multiset(xs)[x] <= 1
  {
    if xs != [] {
      assert xs == [xs[0]] + xs[1..];
      assert NoDup(xs[1..]);
      NoDupCount(xs[1..], x);
      if x == xs[0] {
        assert x !in xs[1..];
      }
    }
  }

  /** A duplicate-free sequence has as many elements as the set of its elements. */
  lemma {:induction false} NoDupCard<T>(xs: seq<T>)
    requires NoDup(xs)
    ensures |set x | x in xs| == |xs|
  {
    if xs != [] {
      var rest := xs[1..];
      assert NoDup(rest);
      NoDupCard(rest);
      assert (set x | x in xs) == {xs[0]} + (set x | x in rest) by {
        assert xs == [xs[0]] + rest;
      }
      assert xs[0] !in rest;
    }
  }

  lemma CountNoDup<T>(xs: seq<T>)
    requires forall x :: multiset(xs)[x] <= 1
    ensures NoDup(xs)
  {
    forall i, j | 0 <= i < j < |xs| ensures xs[i] != xs[j] {
      var x := xs[i];
      assert xs == xs[..j] + xs[j..];
      assert x in xs[..j];
      assert multiset(xs)[x] == multiset(xs[..j])[x] + multiset(xs[j..])[x];
      assert multiset(xs[..j])[x] >= 1;
      assert multiset(xs[j..])[x] == 0;
      assert xs[j..][0] == xs[j];
    }
  }

  /** A reordering of a duplicate-free sequence is duplicate-free. */
  lemma PermutationNoDup<T>(xs: seq<T>, ys: seq<T>)
    requires NoDup(xs) && multiset(xs) == multiset(ys)
    ensures NoDup(ys)
  {
    forall x ensures multiset(ys)[x] <= 1 { NoDupCount(xs, x); }
    CountNoDup(ys);
  }

  /** The first `n` elements, or all of them when there are fewer (`qs[:n]`). */
  function Take<T>(xs: seq<T>, n: nat): (r: seq<T>)
    ensures |r| == if |xs| < n then |xs| else n
    ensures r == xs[..|r|]
  {
    if |xs| <= n then xs else xs[..n]
  }

  /** Cutting a listing short keeps it free of repeats and in order, and drops nothing when it is short already. */
  lemma TakeKeeps<T>(xs: seq<T>, n: nat, key: T -> Rank)
    requires NoDup(xs) && SortedBy(xs, key)
    ensures var r := Take(xs, n);
      && NoDup(r) && SortedBy(r, key)
      && (forall x :: x in r ==> x in xs)
      && (|r| < n ==> r == xs)
  {
    var r := Take(xs, n);
    assert forall i :: 0 <= i < |r| ==> r[i] == xs[i];
  }

  /**
   * `qs[:n]` of a sorted listing keeps its first `n`: an element it leaves out
   * was cut because `n` were shown, and it ranks no higher than the last shown.
   */
  lemma TakeTop<T>(xs: seq<T>, n: nat, key: T -> Rank, x: T)
    requires SortedBy(xs, key)
    requires x in xs && x !in Take(xs, n)
    ensures var r := Take(xs, n); |r| == n && n > 0 ==> RankLe(key(r[|r| - 1]), key(x))
    ensures |Take(xs, n)| == n
  {
    var r := Take(xs, n);
    var k :| 0 <= k < |xs| && xs[k] == x;
    if n > 0 {
      assert r[|r| - 1] == xs[n - 1];
      if k == n - 1 { RankLeTotal(key(x), key(x)); }
    }
  }

  /** The elements of `xs` that satisfy `p`, in their order (Python's `[x for x in xs if p(x)]`). */
  function Filter<T(!new)>(xs: seq<T>, p: T -> bool): (r: seq<T>)
    ensures |r| <= |xs|
    ensures forall x :: x in r <==> x in xs && p(x)
  {
    if xs == [] then []
    else (if p(xs[0]) then [xs[0]] else []) + Filter(xs[1..], p)
  }

  /** Filtering a sequence with one more element at the back. */
  lemma {:induction false} FilterSnoc<T(!new)>(xs: seq<T>, x: T, p: T -> bool)
    ensures Filter(xs + [x], p) == Filter(xs, p) + (if p(x) then [x] else [])
  {
    if xs == [] {
      assert [x][1..] == [];
    } else {
      var ys := xs + [x];
      assert ys[0] == xs[0] && ys[1..] == xs[1..] + [x];
      FilterSnoc(xs[1..], x, p);
    }
  }

  /** `xs` back to front. */
  function Reverse<T>(xs: seq<T>): (r: seq<T>)
    ensures |r| == |xs|
    ensures forall i :: 0 <= i < |xs| ==> r[i] == xs[|xs| - 1 - i]
  {
    if xs == [] then [] else Reverse(xs[1..]) + [xs[0]]
  }

  lemma ReverseSnoc<T>(xs: seq<T>, x: T)
    ensures Reverse(xs + [x]) == [x] + Reverse(xs)
  {
  }
}
