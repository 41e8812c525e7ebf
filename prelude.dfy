/**
 * Small generic building blocks shared by the random-forest model and the
 * forecasting pipeline: option and result values, occurrence counts, the
 * "first element with the highest count" choice that a stable descending
 * sort by count followed by taking the head performs, and duplicate removal.
 */
module Prelude {

  datatype Option<T> = None | Some(value: T)

  datatype Result<T, E> = Ok(value: T) | Err(error: E)

  /** Number of occurrences of `x` in `xs`. */
  function Count<T(==)>(xs: seq<T>, x: T): (n: nat)
    ensures n <= |xs|
    ensures n > 0 <==> x in xs
  {
    if xs == [] then 0
    else
      assert xs == xs[..|xs| - 1] + [xs[|xs| - 1]];
      Count(xs[..|xs| - 1], x) + (if xs[|xs| - 1] == x then 1 else 0)
  }

  lemma {:induction false} CountAppend<T>(xs: seq<T>, ys: seq<T>, x: T)
    ensures Count(xs + ys, x) == Count(xs, x) + Count(ys, x)
    decreases |ys|
  {
    if ys == [] {
      assert xs + ys == xs;
    } else {
      var ys' := ys[..|ys| - 1];
      assert (xs + ys)[..|xs + ys| - 1] == xs + ys';
      CountAppend(xs, ys', x);
    }
  }

  /** Position of the first occurrence of `x` in `xs`. */
  function IndexOf<T(==)>(xs: seq<T>, x: T): (i: nat)
    requires x in xs
    ensures i < |xs| && xs[i] == x
    ensures forall j :: 0 <= j < i ==> xs[j] != x
  {
    if xs[0] == x then 0 else 1 + IndexOf(xs[1..], x)
  }

  predicate NoDuplicates<T(==)>(xs: seq<T>) {
    forall i, j :: 0 <= i < j < |xs| ==> xs[i] != xs[j]
  }

  /** The integers 0, 1, ..., n - 1 in increasing order. */
  function Range(n: nat): (r: seq<nat>)
    ensures |r| == n
    ensures forall i :: 0 <= i < n ==> r[i] == i
  {
    if n == 0 then [] else Range(n - 1) + [n - 1]
  }

  /**
   * The distinct elements of `xs` in order of first occurrence, as spreading a
   * JavaScript `Set` built from `xs` yields them.
   */
  function Distinct<T(==)>(xs: seq<T>): (r: seq<T>)
    ensures NoDuplicates(r)
    ensures forall x <- r :: x in xs
    ensures forall x <- xs :: x in r
  {
    if xs == [] then []
    else
      var init := Distinct(xs[..|xs| - 1]);
      assert xs == xs[..|xs| - 1] + [xs[|xs| - 1]];
      if xs[|xs| - 1] in init then init else init + [xs[|xs| - 1]]
  }

  /**
   * The index that a stable sort by descending score puts first: the
   * earliest position holding the highest score.
   */
  function FirstMaxIndex(s: seq<int>): (b: nat)
    requires |s| > 0
    ensures b < |s|
    ensures forall k :: 0 <= k < |s| ==> s[k] <= s[b]
    ensures forall k :: 0 <= k < b ==> s[k] < s[b]
  {
    if |s| == 1 then 0
    else
      var b := FirstMaxIndex(s[..|s| - 1]);
      if s[|s| - 1] > s[b] then |s| - 1 else b
  }

  /** The number of occurrences of each element, position by position. */
  function Counts<T(==)>(xs: seq<T>): (s: seq<int>)
    ensures |s| == |xs|
    ensures forall i :: 0 <= i < |xs| ==> s[i] == Count(xs, xs[i])
  {
    seq(|xs|, i requires 0 <= i < |xs| => Count(xs, xs[i]) as int)
  }

  /** `v` occurs in `xs` and no element occurs more often. */
  ghost predicate IsMostCommon<T>(xs: seq<T>, v: T) {
    v in xs && forall k :: 0 <= k < |xs| ==> Count(xs, xs[k]) <= Count(xs, v)
  }

  /**
   * `v` is most common in `xs`, and every element occurring before the first
   * `v` occurs strictly less often: the tie goes to the earliest element.
   */
  ghost predicate IsFirstMostCommon<T>(xs: seq<T>, v: T) {
    IsMostCommon(xs, v) && forall j :: 0 <= j < IndexOf(xs, v) ==> Count(xs, xs[j]) < Count(xs, v)
  }

  /**
   * The most frequent element, earliest first on ties: what sorting a copy of
   * `xs` by descending occurrence count with a stable sort and taking its
   * head returns.
   */
  function Mode<T(==)>(xs: seq<T>): (v: T)
    requires |xs| > 0
    ensures IsFirstMostCommon(xs, v)
  {
    var s := Counts(xs);
    var b := FirstMaxIndex(s);
    assert IndexOf(xs, xs[b]) <= b;
    xs[b]
  }

  /** At most one element is the first most common one. */
  lemma FirstMostCommonUnique<T>(xs: seq<T>, v: T, w: T)
    requires IsFirstMostCommon(xs, v) && IsFirstMostCommon(xs, w)
    ensures v == w
  {
    var iv, iw := IndexOf(xs, v), IndexOf(xs, w);
    assert Count(xs, xs[iv]) <= Count(xs, w) && Count(xs, xs[iw]) <= Count(xs, v);
  }

  /** When every element equals `v`, the most common element is `v`. */
  lemma ModeOfConstant<T>(xs: seq<T>, v: T)
    requires |xs| > 0 && forall k :: 0 <= k < |xs| ==> xs[k] == v
    ensures Mode(xs) == v
  {
  }

  /** Removing duplicates from a sequence that has none changes nothing. */
  lemma {:induction false} DistinctOfNoDuplicates<T>(xs: seq<T>)
    requires NoDuplicates(xs)
    ensures Distinct(xs) == xs
  {
    if xs != [] {
      var init := xs[..|xs| - 1];
      assert NoDuplicates(init);
      DistinctOfNoDuplicates(init);
      assert xs[|xs| - 1] !in init;
      assert xs == init + [xs[|xs| - 1]];
    }
  }

  /**
   * Positions in a duplicate-free sequence are a bijection between its
   * elements and 0 .. |order| - 1.
   */
  lemma IndexOfBijection<T>(order: seq<T>)
    requires NoDuplicates(order)
    ensures forall i :: 0 <= i < |order| ==> IndexOf(order, order[i]) == i
    ensures forall a <- order, b <- order :: IndexOf(order, a) == IndexOf(order, b) ==> a == b
  {
  }

  /** `order` lists the distinct elements of `xs`, each once, in some order. */
  predicate IsArrangementOf<T(==)>(order: seq<T>, xs: seq<T>) {
    NoDuplicates(order) && (forall x <- order :: x in xs) && (forall x <- xs :: x in order)
  }

  /**
   * Python's `max(set(xs), key=xs.count)`: the first element, in the set's
   * iteration order `order`, whose count is the highest.
   */
  function MaxByCount<T(==)>(xs: seq<T>, order: seq<T>): (v: T)
    requires |xs| > 0 && IsArrangementOf(order, xs)
    ensures IsMostCommon(xs, v)
    ensures v in order && forall j :: 0 <= j < IndexOf(order, v) ==> Count(xs, order[j]) < Count(xs, v)
  {
    assert xs[0] in order;
    var s := seq(|order|, i requires 0 <= i < |order| => Count(xs, order[i]) as int);
    var b := FirstMaxIndex(s);
    assert forall k :: 0 <= k < |xs| ==> Count(xs, xs[k]) <= Count(xs, order[b]) by {
      forall k | 0 <= k < |xs|
        ensures Count(xs, xs[k]) <= Count(xs, order[b])
      {
        assert xs[k] in xs;
        var i :| 0 <= i < |order| && order[i] == xs[k];
        assert s[i] <= s[b];
      }
    }
    assert IndexOf(order, order[b]) == b by {
      IndexOfBijection(order);
    }
    assert forall j :: 0 <= j < b ==> Count(xs, order[j]) < Count(xs, order[b]) by {
      forall j | 0 <= j < b
        ensures Count(xs, order[j]) < Count(xs, order[b])
      {
        assert s[j] < s[b];
      }
    }
    order[b]
  }

  /**
   * When one element occurs strictly more often than every other, the
   * iteration order does not matter: Python's choice is the stable-sort
   * choice.
   */
  lemma MaxByCountWithoutTie<T>(xs: seq<T>, order: seq<T>, v: T)
    requires |xs| > 0 && IsArrangementOf(order, xs)
    requires v in xs && forall k :: 0 <= k < |xs| && xs[k] != v ==> Count(xs, xs[k]) < Count(xs, v)
    ensures MaxByCount(xs, order) == v
    ensures Mode(xs) == v
  {
  }
}
