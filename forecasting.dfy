/**
 * The forecasting pipeline: records are split by type, each type's
 * classifier (next coarse category) and regressor (next amount) are trained
 * when there are enough rows, and the next record of a type is forecast from
 * today's calendar fields, the median amount of that type and its most
 * frequent fine category.
 */
module Forecasting {
  import opened Prelude
  import opened Categories
  import opened Random
  import opened DecisionTree
  import opened Sampling
  import opened Features
  import opened Forest

  /** Fewer rows than this and no model is trained and no forecast is made. */
  const MIN_REQ_TRANSACTIONS: nat := 10

  /** The two record types the TypeScript code knows. */
  datatype TxType = Expense | Income

  function TypeName(t: TxType): string {
    match t
    case Expense => "expense"
    case Income => "income"
  }

  // ---------------------------------------------------------------------
  // Splitting the records by type
  // ---------------------------------------------------------------------

  /** The records whose type is `kind`, in input order. */
  function OfType(rows: seq<Transaction>, kind: string): (r: seq<Transaction>)
    ensures |r| <= |rows|
    ensures forall k :: 0 <= k < |r| ==> r[k].kind == kind && r[k] in rows
  {
    if rows == [] then []
    else
      var init := OfType(rows[..|rows| - 1], kind);
      var tr := rows[|rows| - 1];
      if tr.kind == kind then init + [tr] else init
  }

  /** Each record occurs in the filtered list as often as in the input if it has type `kind`, and never otherwise. */
  lemma {:induction false} OfTypeOccurrences(rows: seq<Transaction>, kind: string, tr: Transaction)
    ensures multiset(OfType(rows, kind))[tr] == if tr.kind == kind then multiset(rows)[tr] else 0
  {
    if rows != [] {
      var init := rows[..|rows| - 1];
      assert rows == init + [rows[|rows| - 1]];
      OfTypeOccurrences(init, kind, tr);
    }
  }

  /** Filtering keeps the input order: the result is the input with the other records removed. */
  lemma {:induction false} OfTypeKeepsOrder(rows: seq<Transaction>, kind: string)
    requires forall k :: 0 <= k < |rows| ==> rows[k].kind == kind
    ensures OfType(rows, kind) == rows
  {
    if rows != [] {
      var init := rows[..|rows| - 1];
      OfTypeKeepsOrder(init, kind);
      assert rows == init + [rows[|rows| - 1]];
    }
  }

  /** Filtering a concatenation filters each part. */
  lemma {:induction false} OfTypeAppend(xs: seq<Transaction>, ys: seq<Transaction>, kind: string)
    ensures OfType(xs + ys, kind) == OfType(xs, kind) + OfType(ys, kind)
    decreases |ys|
  {
    if ys == [] {
      assert xs + ys == xs;
    } else {
      var ys' := ys[..|ys| - 1];
      assert (xs + ys)[..|xs + ys| - 1] == xs + ys';
      OfTypeAppend(xs, ys', kind);
    }
  }

  /** The expense records and the income records. */
  datatype ByType = ByType(expense: seq<Transaction>, income: seq<Transaction>)

  /** `rowByType`: two filters over the same records. */
  function RowByType(rows: seq<Transaction>): (r: ByType)
    ensures forall k :: 0 <= k < |r.expense| ==> r.expense[k].kind == "expense"
    ensures forall k :: 0 <= k < |r.income| ==> r.income[k].kind == "income"
  {
    ByType(OfType(rows, "expense"), OfType(rows, "income"))
  }

  /** Records of a third type are in neither list; when there are none, every record is in exactly one. */
  lemma {:induction false} RowByTypeCovers(rows: seq<Transaction>)
    ensures |RowByType(rows).expense| + |RowByType(rows).income| <= |rows|
    ensures (forall k :: 0 <= k < |rows| ==> rows[k].kind == "expense" || rows[k].kind == "income")
            ==> |RowByType(rows).expense| + |RowByType(rows).income| == |rows|
  {
    if rows != [] {
      RowByTypeCovers(rows[..|rows| - 1]);
    }
  }

  /** Every type is "expense" or "income". */
  predicate TwoTypes(rows: seq<Transaction>) {
    forall k :: 0 <= k < |rows| ==> rows[k].kind == "expense" || rows[k].kind == "income"
  }

  /**
   * `row_by_type_tuple`: appends each record to the list of its type; a
   * type that is neither "expense" nor "income" is a `KeyError`.
   */
  method PyRowByType(rows: seq<Transaction>) returns (r: Result<ByType, string>)
    ensures r.Ok? <==> TwoTypes(rows)
    ensures r.Ok? ==> r.value == RowByType(rows)
  {
    var expense, income := [], [];
    for n := 0 to |rows|
      invariant TwoTypes(rows[..n])
      invariant expense == OfType(rows[..n], "expense") && income == OfType(rows[..n], "income")
    {
      var tr := rows[n];
      assert rows[..n + 1][..n] == rows[..n];
      if tr.kind == "expense" {
        expense := expense + [tr];
      } else if tr.kind == "income" {
        income := income + [tr];
      } else {
        assert rows[n].kind == tr.kind;
        return Err("KeyError: " + tr.kind);
      }
    }
    assert rows[..|rows|] == rows;
    return Ok(ByType(expense, income));
  }

  // ---------------------------------------------------------------------
  // The typical amount: a median
  // ---------------------------------------------------------------------

  predicate SortedAsc(s: seq<real>) {
    forall i, j :: 0 <= i < j < |s| ==> s[i] <= s[j]
  }

  /** Every element of `t` is at least `v` when `t` holds the elements of `u`, all at least `v`, and `x >= v`. */
  lemma BoundedBelow(v: real, t: seq<real>, u: seq<real>, x: real)
    requires multiset(t) == multiset(u) + multiset{x}
    requires v <= x && forall k :: 0 <= k < |u| ==> v <= u[k]
    ensures forall k :: 0 <= k < |t| ==> v <= t[k]
  {
    forall k | 0 <= k < |t|
      ensures v <= t[k]
    {
      assert t[k] in multiset(t);
      if t[k] != x {
        assert t[k] in multiset(u);
      }
    }
  }

  /** Putting a lower bound in front of an ascending sequence keeps it ascending. */
  lemma ConsSorted(v: real, t: seq<real>)
    requires SortedAsc(t) && forall k :: 0 <= k < |t| ==> v <= t[k]
    ensures SortedAsc([v] + t)
  {
    var r := [v] + t;
    forall i, j | 0 <= i < j < |r|
      ensures r[i] <= r[j]
    {
      assert r[j] == t[j - 1];
      if i > 0 {
        assert r[i] == t[i - 1];
      }
    }
  }

  /** `x` put into place in an ascending sequence. */
  function Insert(x: real, s: seq<real>): (r: seq<real>)
    requires SortedAsc(s)
    ensures SortedAsc(r) && |r| == |s| + 1
    ensures multiset(r) == multiset(s) + multiset{x}
  {
    if s == [] || x <= s[0] then
      assert forall k :: 0 <= k < |s| ==> x <= s[k] by {
        if s != [] {
          assert forall k :: 0 <= k < |s| ==> s[0] <= s[k];
        }
      }
      ConsSorted(x, s);
      [x] + s
    else
      TailSorted(s);
      var t := Insert(x, s[1..]);
      InsertBehind(x, s, t);
      [s[0]] + t
  }

  /** Inserting behind the head: the head stays in front of the tail with `x` put in. */
  lemma InsertBehind(x: real, s: seq<real>, t: seq<real>)
    requires SortedAsc(s) && s != [] && s[0] < x
    requires SortedAsc(t) && multiset(t) == multiset(s[1..]) + multiset{x}
    ensures SortedAsc([s[0]] + t)
    ensures multiset([s[0]] + t) == multiset(s) + multiset{x}
  {
    var u := s[1..];
    assert s == [s[0]] + u;
    assert forall k :: 0 <= k < |u| ==> s[0] <= u[k] by {
      assert forall k :: 0 <= k < |u| ==> u[k] == s[k + 1];
    }
    BoundedBelow(s[0], t, u, x);
    ConsSorted(s[0], t);
  }

  /** The numeric ascending sort of a copy (`sort((a, b) => a - b)`, `sorted`): ascending, and a permutation. */
  function Sort(xs: seq<real>): (r: seq<real>)
    ensures SortedAsc(r) && multiset(r) == multiset(xs) && |r| == |xs|
  {
    if xs == [] then []
    else
      assert xs == xs[..|xs| - 1] + [xs[|xs| - 1]];
      Insert(xs[|xs| - 1], Sort(xs[..|xs| - 1]))
  }

  /** Two ascending sequences with the same elements are equal. */
  lemma {:induction false} SortedUnique(a: seq<real>, b: seq<real>)
    requires SortedAsc(a) && SortedAsc(b) && multiset(a) == multiset(b)
    ensures a == b
    decreases |a|
  {
    assert |a| == |multiset(a)| == |b|;
    if a != [] {
      HeadsEqual(a, b);
      TailsSameElements(a, b);
      TailSorted(a);
      TailSorted(b);
      SortedUnique(a[1..], b[1..]);
      assert a == [a[0]] + a[1..] && b == [b[0]] + b[1..];
    }
  }

  lemma HeadsEqual(a: seq<real>, b: seq<real>)
    requires SortedAsc(a) && SortedAsc(b) && multiset(a) == multiset(b) && a != [] && b != []
    ensures a[0] == b[0]
  {
    assert a[0] in multiset(b) && b[0] in multiset(a);
    var i :| 0 <= i < |b| && b[i] == a[0];
    var j :| 0 <= j < |a| && a[j] == b[0];
    assert b[0] <= b[i] && a[0] <= a[j];
  }

  lemma TailsSameElements(a: seq<real>, b: seq<real>)
    requires a != [] && b != [] && a[0] == b[0] && multiset(a) == multiset(b)
    ensures multiset(a[1..]) == multiset(b[1..])
  {
    assert a == [a[0]] + a[1..] && b == [b[0]] + b[1..];
    assert multiset(a) == multiset{a[0]} + multiset(a[1..]);
    assert multiset(b) == multiset{a[0]} + multiset(b[1..]);
    forall y
      ensures multiset(a[1..])[y] == multiset(b[1..])[y]
    {
      assert multiset(a)[y] == multiset(b)[y];
    }
  }

  lemma TailSorted(a: seq<real>)
    requires SortedAsc(a) && a != []
    ensures SortedAsc(a[1..])
  {
    var t := a[1..];
    forall p, q | 0 <= p < q < |t|
      ensures t[p] <= t[q]
    {
      assert t[p] == a[p + 1] && t[q] == a[q + 1];
    }
  }

  /** Sorting does not depend on the order of its input. */
  lemma SortOfPermutation(a: seq<real>, b: seq<real>)
    requires multiset(a) == multiset(b)
    ensures Sort(a) == Sort(b)
  {
    SortedUnique(Sort(a), Sort(b));
  }

  /** A sequence that is already ascending sorts to itself. */
  lemma SortOfSorted(a: seq<real>)
    requires SortedAsc(a)
    ensures Sort(a) == a
  {
    SortedUnique(Sort(a), a);
  }

  /**
   * `getMedian`: 0 for no numbers, otherwise the middle of the sorted copy,
   * or the mean of the two middle values for an even count.
   */
  function Median(nums: seq<real>): (m: real)
    ensures nums == [] ==> m == 0.0
    ensures nums != [] ==> (exists i :: 0 <= i < |nums| && nums[i] <= m) && (exists j :: 0 <= j < |nums| && m <= nums[j])
    ensures |nums| % 2 == 1 ==> m in nums
  {
    if nums == [] then 0.0
    else
      var s := Sort(nums);
      var mid := |s| / 2;
      assert s[mid] in multiset(nums) && s[0] in multiset(nums) && s[|s| - 1] in multiset(nums);
      assert s[0] <= s[mid] <= s[|s| - 1];
      if |s| % 2 == 1 then s[mid]
      else
        assert s[mid - 1] in multiset(nums) && s[0] <= s[mid - 1];
        (s[mid - 1] + s[mid]) / 2.0
  }

  /** The middle position(s) of the sorted copy decide the median. */
  lemma MedianOfSorted(s: seq<real>)
    requires SortedAsc(s) && s != []
    ensures |s| % 2 == 1 ==> Median(s) == s[|s| / 2]
    ensures |s| % 2 == 0 ==> Median(s) == (s[|s| / 2 - 1] + s[|s| / 2]) / 2.0
  {
    var t := Sort(s);
    SortOfSorted(s);
    assert t == s;
    var mid := |s| / 2;
    assert |t| / 2 == mid;
    if |s| % 2 == 1 {
      MedianOdd(s);
      assert t[mid] == s[mid];
    } else {
      MedianEven(s);
      var lo, hi := t[mid - 1], t[mid];
      assert lo == s[mid - 1] && hi == s[mid];
      assert Median(s) == (lo + hi) / 2.0;
    }
  }

  lemma MedianOdd(nums: seq<real>)
    requires nums != [] && |nums| % 2 == 1
    ensures var t := Sort(nums); Median(nums) == t[|t| / 2]
  {
  }

  lemma MedianEven(nums: seq<real>)
    requires nums != [] && |nums| % 2 == 0
    ensures var t := Sort(nums); Median(nums) == (t[|t| / 2 - 1] + t[|t| / 2]) / 2.0
  {
  }

  /** The median depends only on the numbers, not on their order. */
  lemma MedianOfPermutation(a: seq<real>, b: seq<real>)
    requires multiset(a) == multiset(b)
    ensures Median(a) == Median(b)
  {
    SortOfPermutation(a, b);
    var ta, tb := Sort(a), Sort(b);
    assert ta == tb;
    assert |a| == |ta| == |tb| == |b|;
    if a == [] {
      assert b == [];
    } else {
      var mid := |ta| / 2;
      assert |tb| / 2 == mid;
      if |a| % 2 == 1 {
        MedianOdd(a);
        MedianOdd(b);
        assert Median(a) == ta[mid] && Median(b) == tb[mid];
      } else {
        MedianEven(a);
        MedianEven(b);
        var lo, hi := ta[mid - 1], ta[mid];
        assert lo == tb[mid - 1] && hi == tb[mid];
        assert Median(a) == (lo + hi) / 2.0;
        assert Median(b) == (lo + hi) / 2.0;
      }
    }
  }

  /** The median of numbers within `[lo, hi]` is within `[lo, hi]`. */
  lemma MedianWithin(nums: seq<real>, lo: real, hi: real)
    requires forall k :: 0 <= k < |nums| ==> lo <= nums[k] <= hi
    requires nums != []
    ensures lo <= Median(nums) <= hi
  {
  }

  /** The Python median, `0.5 * (a + b)` for an even count and `0.0` for none. */
  function PyMedian(nums: seq<real>): (m: real)
    ensures m == Median(nums)
  {
    if nums == [] then 0.0
    else
      var s := Sort(nums);
      var mid := |s| / 2;
      if |s| % 2 == 1 then s[mid] else 0.5 * (s[mid - 1] + s[mid])
  }

  // ---------------------------------------------------------------------
  // The main fine category of a type
  // ---------------------------------------------------------------------

  /** The known fine categories of the records of type `kind`, in input order. */
  function KnownOfType(rows: seq<Transaction>, kind: string): (cs: seq<string>)
    ensures |cs| <= |rows|
  {
    if rows == [] then []
    else
      var init := KnownOfType(rows[..|rows| - 1], kind);
      var tr := rows[|rows| - 1];
      if tr.kind == kind && IsKnown(tr) then init + [tr.category] else init
  }

  /** Only known categories are counted. */
  lemma {:induction false} KnownOfTypeKnown(rows: seq<Transaction>, kind: string)
    ensures forall c <- KnownOfType(rows, kind) :: c in ALL_CATEGORIES
  {
    if rows != [] {
      KnownOfTypeKnown(rows[..|rows| - 1], kind);
    }
  }

  /** Appending an element does not move the first occurrence of one already present. */
  lemma {:induction false} IndexOfAppend<T>(xs: seq<T>, y: T, x: T)
    requires x in xs
    ensures IndexOf(xs + [y], x) == IndexOf(xs, x)
  {
    if xs[0] != x {
      assert (xs + [y])[1..] == xs[1..] + [y];
      IndexOfAppend(xs[1..], y, x);
    }
  }

  /** A new element's first occurrence is where it is appended. */
  lemma IndexOfAppendNew<T>(xs: seq<T>, x: T)
    requires x !in xs
    ensures IndexOf(xs + [x], x) == |xs|
  {
  }

  /** `keys` lists the distinct elements of `xs` in order of first occurrence. */
  predicate FirstSeenOrder<T(==)>(xs: seq<T>, keys: seq<T>) {
    && IsArrangementOf(keys, xs)
    && forall i, j :: 0 <= i < j < |keys| ==> keys[i] in xs && keys[j] in xs && IndexOf(xs, keys[i]) < IndexOf(xs, keys[j])
  }

  /**
   * The state of the tally after the categories `xs`: the keys in insertion
   * order, and the count of each key.
   */
  ghost predicate Tally(xs: seq<string>, keys: seq<string>, counts: map<string, nat>) {
    && FirstSeenOrder(xs, keys)
    && (forall c :: c in counts <==> c in keys)
    && (forall c :: c in counts ==> counts[c] == Count(xs, c))
  }

  /** After one more category the map still holds each key's count. */
  lemma TallyCountsStep(xs: seq<string>, counts: map<string, nat>, c: string)
    requires forall d :: d in counts ==> counts[d] == Count(xs, d)
    requires c !in counts ==> Count(xs, c) == 0
    ensures var counts' := counts[c := (if c in counts then counts[c] else 0) + 1];
      forall d :: d in counts' ==> counts'[d] == Count(xs + [c], d)
  {
    forall d
      ensures Count(xs + [c], d) == Count(xs, d) + (if d == c then 1 else 0)
    {
      CountAppend(xs, [c], d);
      assert [c][..0] == [];
    }
  }

  /** After one more category the keys are still the distinct categories in first-seen order. */
  lemma FirstSeenStep<T>(xs: seq<T>, keys: seq<T>, c: T)
    requires FirstSeenOrder(xs, keys)
    ensures FirstSeenOrder(xs + [c], if c in keys then keys else keys + [c])
  {
    var xs' := xs + [c];
    var keys' := if c in keys then keys else keys + [c];
    forall i, j | 0 <= i < j < |keys'|
      ensures keys'[i] in xs' && keys'[j] in xs' && IndexOf(xs', keys'[i]) < IndexOf(xs', keys'[j])
    {
      assert keys'[i] == keys[i] && keys[i] in keys;
      IndexOfAppend(xs, c, keys'[i]);
      if j < |keys| {
        assert keys'[j] == keys[j] && keys[j] in keys;
        IndexOfAppend(xs, c, keys'[j]);
      } else {
        IndexOfAppendNew(xs, c);
      }
    }
    forall x | x in xs'
      ensures x in keys'
    {
      if x != c {
        assert x in xs;
      }
    }
    forall x | x in keys'
      ensures x in xs'
    {
      if x != c {
        assert x in keys;
      }
    }
    assert NoDuplicates(keys');
  }

  /** Counting one more category: a first sighting appends a key, and its count goes up by one. */
  lemma TallyStep(xs: seq<string>, keys: seq<string>, counts: map<string, nat>, c: string)
    requires Tally(xs, keys, counts)
    ensures Tally(xs + [c], if c in counts then keys else keys + [c], counts[c := (if c in counts then counts[c] else 0) + 1])
  {
    var keys' := if c in counts then keys else keys + [c];
    var counts' := counts[c := (if c in counts then counts[c] else 0) + 1];
    FirstSeenStep(xs, keys, c);
    assert c !in counts ==> Count(xs, c) == 0 by {
      if c !in counts {
        assert c !in keys;
        assert c !in xs;
      }
    }
    TallyCountsStep(xs, counts, c);
    assert forall d :: d in counts' <==> d in keys';
  }

  /**
   * Taking the first key with the highest count, in first-seen order, is
   * taking the mode with the earliest-first tie-break.
   */
  lemma MaxByCountFirstSeen<T>(xs: seq<T>, keys: seq<T>)
    requires |xs| > 0 && FirstSeenOrder(xs, keys)
    ensures MaxByCount(xs, keys) == Mode(xs)
  {
    var v := MaxByCount(xs, keys);
    var b := IndexOf(keys, v);
    forall j | 0 <= j < IndexOf(xs, v)
      ensures Count(xs, xs[j]) < Count(xs, v)
    {
      assert xs[j] in xs;
      var i := IndexOf(keys, xs[j]);
      assert IndexOf(xs, xs[j]) <= j;
      assert i != b;
    }
    FirstMostCommonUnique(xs, v, Mode(xs));
  }

  /**
   * The counts of the known categories of type `kind`, tallied in a map whose
   * keys keep their insertion order (`fineCounts`, the `Counter`), and the
   * first entry of a stable sort by descending count (`most_common(1)`):
   * the most frequent known category, first seen first on ties, or none
   * when the type has no record with a known category.
   */
  method MainFineCategory(rows: seq<Transaction>, kind: string) returns (main: Option<string>)
    ensures main.None? <==> KnownOfType(rows, kind) == []
    ensures main.Some? ==> main.value == Mode(KnownOfType(rows, kind)) && main.value in ALL_CATEGORIES
  {
    var keys: seq<string> := [];
    var counts: map<string, nat> := map[];
    for n := 0 to |rows|
      invariant Tally(KnownOfType(rows[..n], kind), keys, counts)
    {
      var tr := rows[n];
      assert rows[..n + 1][..n] == rows[..n];
      if tr.kind != kind || !IsKnown(tr) {
        continue;
      }
      TallyStep(KnownOfType(rows[..n], kind), keys, counts, tr.category);
      if tr.category !in counts {
        keys := keys + [tr.category];
      }
      counts := counts[tr.category := (if tr.category in counts then counts[tr.category] else 0) + 1];
    }
    assert rows[..|rows|] == rows;
    KnownOfTypeKnown(rows, kind);
    if keys == [] {
      TallyEmpty(KnownOfType(rows, kind), keys, counts);
      return None;
    }
    var scores := seq(|keys|, i requires 0 <= i < |keys| => counts[keys[i]] as int);
    var b := FirstMaxIndex(scores);
    TallyMode(KnownOfType(rows, kind), keys, counts, scores);
    main := Some(keys[b]);
  }

  /** No key was tallied exactly when no category was counted. */
  lemma TallyEmpty(xs: seq<string>, keys: seq<string>, counts: map<string, nat>)
    requires Tally(xs, keys, counts)
    ensures keys == [] <==> xs == []
  {
    if xs != [] {
      assert xs[0] in xs;
    }
    if keys != [] {
      assert keys[0] in keys;
    }
  }

  /** The first key with the highest tallied count is the mode. */
  lemma TallyMode(xs: seq<string>, keys: seq<string>, counts: map<string, nat>, scores: seq<int>)
    requires Tally(xs, keys, counts) && keys != []
    requires |scores| == |keys| && forall i :: 0 <= i < |keys| ==> keys[i] in counts && scores[i] == counts[keys[i]]
    ensures xs != [] && keys[FirstMaxIndex(scores)] == Mode(xs)
  {
    assert keys[0] in xs;
    assert scores == seq(|keys|, i requires 0 <= i < |keys| => Count(xs, keys[i]) as int);
    MaxByCountFirstSeen(xs, keys);
  }

  // ---------------------------------------------------------------------
  // Training
  // ---------------------------------------------------------------------

  /** A training set `fit` accepts: a row at least, rows of one positive width, a target per row. */
  predicate Trainable(X: seq<seq<real>>, y: seq<real>) {
    0 < |X| <= |y| && 0 < |X[0]| && forall x <- X :: |x| == |X[0]|
  }

  /** The training sets of either side of the datasets are trainable as soon as they are not empty. */
  lemma SideTrainable(rows: seq<Transaction>, order: seq<string>, expense: bool)
    requires KnownDated(rows) && Numbers(order)
    ensures var s := SideOf(DatasetsOf(rows, order), expense);
      && |s.xClf| == |s.yClf| == |s.xReg| == |s.yReg|
      && (|s.xClf| > 0 ==> Trainable(s.xClf, s.yClf) && Trainable(s.xReg, s.yReg))
  {
    DatasetsBySide(rows, order, expense);
    DatasetsShape(rows, order, expense);
  }

  /**
   * `trainRfFinanceModel` with the classifier: no model for fewer than
   * MIN_REQ_TRANSACTIONS rows, otherwise a default classifier fitted to the
   * rows.
   */
  method TrainClassifier(X: seq<seq<real>>, y: seq<real>, draws: seq<Unit>)
    returns (m: RandomForestClassifier?, rest: Option<seq<Unit>>)
    requires |X| >= MIN_REQ_TRANSACTIONS ==> Trainable(X, y)
    ensures m == null <==> |X| < MIN_REQ_TRANSACTIONS
    ensures m == null ==> rest == Some(draws)
    ensures m != null ==> fresh(m) && m.data == Labelled(X, y)
    ensures m != null ==> m.nTrees == 15 && m.maxDepth == 10 && m.minSize == 2 && m.sampleSize == 1.0
    ensures m != null ==> m.nFeatures == ISqrt(|X[0]|)
    ensures m != null && rest.Some? ==> m.Fitted() && |m.trees| == 15
  {
    if |X| < MIN_REQ_TRANSACTIONS {
      return null, Some(draws);
    }
    m := new RandomForestClassifier();
    rest := m.Fit(X, y, draws);
  }

  /** `trainRfFinanceModel` with the regressor: the same gate. */
  method TrainRegressor(X: seq<seq<real>>, y: seq<real>, draws: seq<Unit>)
    returns (m: RandomForestRegressor?, rest: Option<seq<Unit>>)
    requires |X| >= MIN_REQ_TRANSACTIONS ==> Trainable(X, y)
    ensures m == null <==> |X| < MIN_REQ_TRANSACTIONS
    ensures m == null ==> rest == Some(draws)
    ensures m != null ==> fresh(m) && m.data == Labelled(X, y)
    ensures m != null ==> m.nTrees == 15 && m.maxDepth == 10 && m.minSize == 2 && m.sampleSize == 1.0
    ensures m != null ==> m.nFeatures == ISqrt(|X[0]|)
    ensures m != null && rest.Some? ==> m.Fitted() && |m.trees| == 15
  {
    if |X| < MIN_REQ_TRANSACTIONS {
      return null, Some(draws);
    }
    m := new RandomForestRegressor();
    rest := m.Fit(X, y, draws);
  }

  // ---------------------------------------------------------------------
  // Forecasting
  // ---------------------------------------------------------------------

  /** The trained models; a missing one is `null`. */
  datatype Models = Models(expClf: RandomForestClassifier?, expReg: RandomForestRegressor?,
                           incClf: RandomForestClassifier?, incReg: RandomForestRegressor?)

  /** Every model that is there has trees to vote. */
  predicate HasTrees(m: Models)
    reads m.expClf, m.expReg, m.incClf, m.incReg
  {
    && (m.expClf != null ==> |m.expClf.trees| > 0) && (m.expReg != null ==> |m.expReg.trees| > 0)
    && (m.incClf != null ==> |m.incClf.trees| > 0) && (m.incReg != null ==> |m.incReg.trees| > 0)
  }

  /** The features the forecast starts from: today's calendar fields and the typical amount. */
  datatype Future = Future(cal: Calendar, amount: real)

  function Amounts(rows: seq<Transaction>): (a: seq<real>)
    ensures |a| == |rows| && forall k :: 0 <= k < |rows| ==> a[k] == rows[k].amount
  {
    seq(|rows|, k requires 0 <= k < |rows| => rows[k].amount)
  }

  /**
   * `defaultFutureFeatures`: the calendar features a record dated today
   * would get in the training sets, and the median amount of the records of
   * type `kind`.
   */
  function DefaultFutureFeatures(kind: string, rows: seq<Transaction>, today: Date): (f: Future)
    ensures f.cal == CalendarOf(today)
    ensures f.amount == Median(Amounts(OfType(rows, kind)))
  {
    Future(CalendarOf(today), Median(Amounts(OfType(rows, kind))))
  }

  /** The typical amount lies within the amounts of the type, and is 0 when there are none. */
  lemma TypicalAmountWithin(kind: string, rows: seq<Transaction>, today: Date, lo: real, hi: real)
    requires forall k :: 0 <= k < |rows| && rows[k].kind == kind ==> lo <= rows[k].amount <= hi
    ensures OfType(rows, kind) == [] ==> DefaultFutureFeatures(kind, rows, today).amount == 0.0
    ensures OfType(rows, kind) != [] ==> lo <= DefaultFutureFeatures(kind, rows, today).amount <= hi
  {
    var a := Amounts(OfType(rows, kind));
    if a != [] {
      forall k | 0 <= k < |a|
        ensures lo <= a[k] <= hi
      {
        var tr := OfType(rows, kind)[k];
        assert tr in rows;
      }
      MedianWithin(a, lo, hi);
    }
  }

  /**
   * The fine id of the main fine category in `order` (`CATEGORY_TO_ID[mainFine] ?? 0`):
   * 0 when there is no main category or `order` does not number it.
   */
  function MainFineId(cs: seq<string>, order: seq<string>): (id: real)
    ensures cs == [] ==> id == 0.0
    ensures cs != [] && Mode(cs) in order ==> 0.0 <= id < |order| as real && order[id.Floor] == Mode(cs)
  {
    if cs == [] || Mode(cs) !in order then 0.0 else CategoryToId(order, Mode(cs)) as real
  }

  /** The main category is always numbered: the fallback to 0 is only taken when there is none. */
  lemma MainFineNumbered(rows: seq<Transaction>, kind: string, order: seq<string>)
    requires Numbers(order)
    ensures var cs := KnownOfType(rows, kind);
      cs != [] ==> Mode(cs) in order && order[MainFineId(cs, order).Floor] == Mode(cs)
  {
    var cs := KnownOfType(rows, kind);
    KnownOfTypeKnown(rows, kind);
    if cs != [] {
      assert Mode(cs) in cs;
    }
  }

  /** The forecast of one record: its type, coarse category and amount, or nothing. */
  datatype Forecast = NoForecast | Forecast(kind: string, coarse: Option<string>, amount: real)

  /**
   * Nothing without both models; otherwise the coarse category the
   * classifier predicts for today's calendar fields and the typical amount,
   * and the amount the regressor predicts for today's calendar fields and
   * the main fine category.
   */
  function Predicted(kind: string, clf: RandomForestClassifier?, reg: RandomForestRegressor?,
                     f: Future, fineId: real): (p: Forecast)
    reads clf, reg
    requires clf != null ==> |clf.trees| > 0
    requires reg != null ==> |reg.trees| > 0
    ensures p.NoForecast? <==> clf == null || reg == null
    ensures p.Forecast? ==> p.kind == kind
  {
    if clf == null || reg == null then NoForecast
    else
      var coarseId := clf.PredictOne(ClfRow(f.cal, f.amount));
      Forecast(kind, IdToCoarse(coarseId), reg.PredictOne(RegRow(f.cal, fineId)))
  }

  function ClfOf(m: Models, t: TxType): RandomForestClassifier? {
    if t == Expense then m.expClf else m.incClf
  }

  function RegOf(m: Models, t: TxType): RandomForestRegressor? {
    if t == Expense then m.expReg else m.incReg
  }

  /**
   * `forecastNextForType`: the prediction of the type's models from today's
   * features, the median amount of the type and the id of its most frequent
   * known fine category.
   */
  method ForecastNextForType(t: TxType, models: Models, rows: seq<Transaction>, today: Date) returns (f: Forecast)
    requires HasTrees(models)
    ensures f == Predicted(TypeName(t), ClfOf(models, t), RegOf(models, t),
                           DefaultFutureFeatures(TypeName(t), rows, today),
                           MainFineId(KnownOfType(rows, TypeName(t)), ALL_CATEGORIES))
  {
    var feats := DefaultFutureFeatures(TypeName(t), rows, today);
    var clf := if t == Expense then models.expClf else models.incClf;
    var reg := if t == Expense then models.expReg else models.incReg;
    if clf == null || reg == null {
      return NoForecast;
    }
    var coarseId := clf.PredictOne(ClfRow(feats.cal, feats.amount));
    var coarseLabel := IdToCoarse(coarseId);
    var main := MainFineCategory(rows, TypeName(t));
    var fineId := if main.Some? && main.value in ALL_CATEGORIES then CategoryToId(ALL_CATEGORIES, main.value) as real else 0.0;
    var amountPred := reg.PredictOne(RegRow(feats.cal, fineId));
    return Forecast(TypeName(t), coarseLabel, amountPred);
  }

  /** The smallest of some numbers. */
  function SeqMin(s: seq<real>): (m: real)
    requires |s| > 0
    ensures m in s && forall k :: 0 <= k < |s| ==> m <= s[k]
  {
    if |s| == 1 then s[0]
    else
      var m := SeqMin(s[..|s| - 1]);
      assert forall k :: 0 <= k < |s| - 1 ==> s[..|s| - 1][k] == s[k];
      if s[|s| - 1] < m then s[|s| - 1] else m
  }

  /** The largest of some numbers. */
  function SeqMax(s: seq<real>): (m: real)
    requires |s| > 0
    ensures m in s && forall k :: 0 <= k < |s| ==> s[k] <= m
  {
    if |s| == 1 then s[0]
    else
      var m := SeqMax(s[..|s| - 1]);
      assert forall k :: 0 <= k < |s| - 1 ==> s[..|s| - 1][k] == s[k];
      if s[|s| - 1] > m then s[|s| - 1] else m
  }

  /** Targets within `[lo, hi]` make labels within `[lo, hi]`. */
  lemma LabelledWithin(X: seq<seq<real>>, y: seq<real>, lo: real, hi: real)
    requires |X| <= |y| && forall k :: 0 <= k < |X| ==> lo <= y[k] <= hi
    ensures LabelsWithin(Labelled(X, y), lo, hi)
  {
    var ds := Labelled(X, y);
    forall row | row in ds
      ensures lo <= Label(row) <= hi
    {
      var i :| 0 <= i < |ds| && ds[i] == row;
    }
  }

  /**
   * A classifier fitted to a side of the datasets predicts a coarse id, so
   * the coarse label lookup always finds a name.
   */
  lemma CoarseLabelDefined(clf: RandomForestClassifier, rows: seq<Transaction>, order: seq<string>,
                           expense: bool, x: seq<real>)
    requires KnownDated(rows) && Numbers(order)
    requires clf.Fitted() && |clf.trees| > 0
    requires var s := SideOf(DatasetsOf(rows, order), expense);
      |s.xClf| <= |s.yClf| && clf.data == Labelled(s.xClf, s.yClf)
    ensures IdToCoarse(clf.PredictOne(x)).Some?
  {
    var s := SideOf(DatasetsOf(rows, order), expense);
    DatasetsShape(rows, order, expense);
    clf.PredictsTrainingClass(x);
    var ls := Labels(clf.data);
    var i :| 0 <= i < |ls| && ls[i] == clf.PredictOne(x);
    assert ls[i] == s.yClf[i];
  }

  /** A regressor's forecast lies between the smallest and the largest amount it was trained on. */
  lemma AmountWithinTraining(reg: RandomForestRegressor, X: seq<seq<real>>, y: seq<real>, x: seq<real>)
    requires reg.Fitted() && |reg.trees| > 0
    requires 0 < |X| == |y| && reg.data == Labelled(X, y)
    ensures SeqMin(y) <= reg.PredictOne(x) <= SeqMax(y)
  {
    LabelledWithin(X, y, SeqMin(y), SeqMax(y));
    reg.PredictsWithinTrainingRange(x, SeqMin(y), SeqMax(y));
  }

  /** The result of a forecast request. */
  datatype ForecastResult = ForecastResult(success: bool, nTransactions: nat, pred: Forecast)

  /** The training sets of type `t` that `buildDatasets` produces from the records. */
  function TrainingSide(rows: seq<Transaction>, t: TxType): (s: Side)
    requires KnownDated(rows)
    ensures |s.xClf| == |s.yClf| == |s.xReg| == |s.yReg|
  {
    SideTrainable(rows, ALL_CATEGORIES, t == Expense);
    SideOf(DatasetsOf(rows, ALL_CATEGORIES), t == Expense)
  }

  /**
   * `forecastNextExpense` / `forecastNextIncome` from the loaded records:
   * with fewer than MIN_REQ_TRANSACTIONS records in all, no success and no
   * prediction; otherwise success, and a prediction exactly when the type
   * has MIN_REQ_TRANSACTIONS usable records to train on. The count reported
   * is that of the records of the type either way. A prediction names a
   * coarse category and an amount within the type's training amounts.
   */
  method ForecastNext(t: TxType, rows: seq<Transaction>, today: Date, draws: seq<Unit>)
    returns (r: Drawn<ForecastResult>, ghost clf: RandomForestClassifier?, ghost reg: RandomForestRegressor?)
    requires KnownDated(rows)
    ensures |rows| < MIN_REQ_TRANSACTIONS ==> r == Drawn(ForecastResult(false, |OfType(rows, TypeName(t))|, NoForecast), draws)
    ensures r.Drawn? ==> r.value.nTransactions == |OfType(rows, TypeName(t))| && (r.value.success <==> |rows| >= MIN_REQ_TRANSACTIONS)
    ensures r.Drawn? && r.value.success ==> (r.value.pred.Forecast? <==> |TrainingSide(rows, t).xClf| >= MIN_REQ_TRANSACTIONS)
    ensures r.Drawn? && r.value.pred.Forecast? ==>
      && r.value.pred.kind == TypeName(t) && r.value.pred.coarse.Some?
      && |TrainingSide(rows, t).yReg| > 0
      && SeqMin(TrainingSide(rows, t).yReg) <= r.value.pred.amount <= SeqMax(TrainingSide(rows, t).yReg)
    ensures r.Drawn? && r.value.success ==>
      && (clf == null <==> |TrainingSide(rows, t).xClf| < MIN_REQ_TRANSACTIONS)
      && (clf != null ==> clf.Fitted() && |clf.trees| == 15
                          && clf.data == Labelled(TrainingSide(rows, t).xClf, TrainingSide(rows, t).yClf))
      && (reg == null <==> |TrainingSide(rows, t).xReg| < MIN_REQ_TRANSACTIONS)
      && (reg != null ==> reg.Fitted() && |reg.trees| == 15
                          && reg.data == Labelled(TrainingSide(rows, t).xReg, TrainingSide(rows, t).yReg))
      && r.value.pred == Predicted(TypeName(t), clf, reg, DefaultFutureFeatures(TypeName(t), rows, today),
                                   MainFineId(KnownOfType(rows, TypeName(t)), ALL_CATEGORIES))
  {
    var byType := RowByType(rows);
    var n := if t == Expense then |byType.expense| else |byType.income|;
    if |rows| < MIN_REQ_TRANSACTIONS {
      return Drawn(ForecastResult(false, n, NoForecast), draws), null, null;
    }
    var d := BuildDatasets(rows);
    var s := if t == Expense then d.expense else d.income;
    SideTrainable(rows, ALL_CATEGORIES, t == Expense);
    var classifier, rest := TrainClassifier(s.xClf, s.yClf, draws);
    if rest.None? {
      return Exhausted, null, null;
    }
    var regressor, rest' := TrainRegressor(s.xReg, s.yReg, rest.value);
    if rest'.None? {
      return Exhausted, null, null;
    }
    clf, reg := classifier, regressor;
    var models := if t == Expense then Models(classifier, regressor, null, null)
                  else Models(null, null, classifier, regressor);
    var pred := ForecastNextForType(t, models, rows, today);
    if pred.Forecast? {
      var f := DefaultFutureFeatures(TypeName(t), rows, today);
      CoarseLabelDefined(classifier, rows, ALL_CATEGORIES, t == Expense, ClfRow(f.cal, f.amount));
      var fineId := MainFineId(KnownOfType(rows, TypeName(t)), ALL_CATEGORIES);
      AmountWithinTraining(regressor, s.xReg, s.yReg, RegRow(f.cal, fineId));
    }
    return Drawn(ForecastResult(true, n, pred), rest'.value), clf, reg;
  }

  // ---------------------------------------------------------------------
  // The Python forecast
  // ---------------------------------------------------------------------

  /** `str.lower` on ASCII letters. */
  function LowerChar(c: char): (l: char)
    ensures 'A' <= c <= 'Z' ==> 'a' <= l <= 'z' && l as int == c as int + 32
    ensures !('A' <= c <= 'Z') ==> l == c
  {
    if 'A' <= c <= 'Z' then (c as int + 32) as char else c
  }

  function Lower(s: string): (r: string)
    ensures |r| == |s| && forall k :: 0 <= k < |s| ==> r[k] == LowerChar(s[k])
  {
    seq(|s|, k requires 0 <= k < |s| => LowerChar(s[k]))
  }

  /** The Python branch: "expense" in any letter case is the expense branch, anything else the income branch. */
  function PyBranch(trType: string): TxType {
    if Lower(trType) == "expense" then Expense else Income
  }

  /**
   * `forecast_next_for_type`: the type is lower-cased; the median uses the
   * records of the lower-cased type, the models and the fine-category count
   * those of the branch; fine ids are positions in `order`.
   */
  method PyForecastNextForType(trType: string, models: Models, rows: seq<Transaction>, today: Date, order: seq<string>)
    returns (f: Forecast)
    requires HasTrees(models) && IsArrangementOf(order, ALL_CATEGORIES)
    ensures f == Predicted(TypeName(PyBranch(trType)), ClfOf(models, PyBranch(trType)), RegOf(models, PyBranch(trType)),
                           DefaultFutureFeatures(Lower(trType), rows, today),
                           MainFineId(KnownOfType(rows, TypeName(PyBranch(trType))), order))
  {
    var t := Lower(trType);
    PythonCalendarAgrees(today);
    var feats := Future(CalendarFeatures(PyWeekday(today.weekday), today), PyMedian(Amounts(OfType(rows, t))));
    var branch := if t == "expense" then Expense else Income;
    var clf := if branch == Expense then models.expClf else models.incClf;
    var reg := if branch == Expense then models.expReg else models.incReg;
    if clf == null || reg == null {
      return NoForecast;
    }
    var coarseId := clf.PredictOne(ClfRow(feats.cal, feats.amount));
    var coarseLabel := IdToCoarse(coarseId);
    var main := MainFineCategory(rows, TypeName(branch));
    var fineId := if main.Some? then CategoryToId(order, main.value) as real else 0.0;
    var amountPred := reg.PredictOne(RegRow(feats.cal, fineId));
    return Forecast(TypeName(branch), coarseLabel, amountPred);
  }

  /**
   * `forecast_next`: the count of the separated records either way; with
   * fewer than MIN_REQ_TRANSACTIONS records in all, no success and no
   * prediction, otherwise success and the type's forecast.
   */
  method PyForecastNext(rows: seq<Transaction>, sepRows: seq<Transaction>, models: Models, trType: string,
                        today: Date, order: seq<string>) returns (r: ForecastResult)
    requires HasTrees(models) && IsArrangementOf(order, ALL_CATEGORIES)
    ensures r.nTransactions == |sepRows| && (r.success <==> |rows| >= MIN_REQ_TRANSACTIONS)
    ensures !r.success ==> r.pred == NoForecast
    ensures r.success ==> r.pred == Predicted(TypeName(PyBranch(trType)), ClfOf(models, PyBranch(trType)), RegOf(models, PyBranch(trType)),
                                              DefaultFutureFeatures(Lower(trType), rows, today),
                                              MainFineId(KnownOfType(rows, TypeName(PyBranch(trType))), order))
  {
    r := ForecastResult(false, |sepRows|, NoForecast);
    if |rows| < MIN_REQ_TRANSACTIONS {
      return;
    }
    var forecast := PyForecastNextForType(trType, models, rows, today, order);
    r := r.(success := true, pred := forecast);
  }
}
