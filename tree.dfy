/**
 * One decision tree of the random forest: splitting a dataset on a feature
 * threshold, the Gini impurity of a split, choosing the best split among
 * randomly sampled features, growing the tree to a depth and leaf-size
 * limit, and walking it to predict a row.
 *
 * A training row holds the feature values followed by the label in its last
 * column. A prediction row may be any sequence of numbers.
 */
module DecisionTree {
  import opened Prelude
  import opened Random

  /** A training row: features, then the label as the last column. */
  type LabelledRow = r: seq<real> | |r| > 0 witness [0.0]

  type Dataset = seq<LabelledRow>

  /** A grown tree: a leaf holding a label, or a threshold test on one feature. */
  datatype Tree = Leaf(outcome: real) | Split(index: nat, threshold: real, left: Tree, right: Tree)

  /** A chosen split: the feature, the threshold and the two groups it makes. */
  datatype Candidate = Candidate(index: nat, value: real, left: Dataset, right: Dataset)

  function Label(row: LabelledRow): real {
    row[|row| - 1]
  }

  /** The label column of a dataset. */
  function Labels(ds: Dataset): (ls: seq<real>)
    ensures |ls| == |ds|
    ensures forall i :: 0 <= i < |ds| ==> ls[i] == Label(ds[i])
  {
    seq(|ds|, i requires 0 <= i < |ds| => Label(ds[i]))
  }

  /** Every row of `ds` has `w` columns. */
  predicate HasWidth(ds: Dataset, w: nat) {
    forall row <- ds :: |row| == w
  }

  /**
   * `row[index] < value`. A column the row does not have reads as
   * `undefined` in JavaScript, and `undefined < value` is false.
   */
  predicate GoesLeft(row: seq<real>, index: nat, value: real) {
    index < |row| && row[index] < value
  }

  /** The rows that go left, in dataset order. */
  function Below(index: nat, value: real, ds: Dataset): Dataset {
    if ds == [] then []
    else
      var last := ds[|ds| - 1];
      Below(index, value, ds[..|ds| - 1]) + (if GoesLeft(last, index, value) then [last] else [])
  }

  /** The rows that go right, in dataset order. */
  function AtOrAbove(index: nat, value: real, ds: Dataset): Dataset {
    if ds == [] then []
    else
      var last := ds[|ds| - 1];
      AtOrAbove(index, value, ds[..|ds| - 1]) + (if GoesLeft(last, index, value) then [] else [last])
  }

  /** Splits `ds` into the rows below the threshold and the rest. */
  method TestSplit(index: nat, value: real, ds: Dataset) returns (left: Dataset, right: Dataset)
    ensures left == Below(index, value, ds)
    ensures right == AtOrAbove(index, value, ds)
  {
    left, right := [], [];
    for i := 0 to |ds|
      invariant left == Below(index, value, ds[..i])
      invariant right == AtOrAbove(index, value, ds[..i])
    {
      assert ds[..i + 1][..i] == ds[..i];
      if GoesLeft(ds[i], index, value) {
        left := left + [ds[i]];
      } else {
        right := right + [ds[i]];
      }
    }
    assert ds[..|ds|] == ds;
  }

  /**
   * A split is a partition: every row lands on exactly one side, the side
   * its test picks, and no row is invented.
   */
  lemma {:induction false} SplitPartitions(index: nat, value: real, ds: Dataset)
    ensures |Below(index, value, ds)| + |AtOrAbove(index, value, ds)| == |ds|
    ensures multiset(Below(index, value, ds)) + multiset(AtOrAbove(index, value, ds)) == multiset(ds)
    ensures forall row <- Below(index, value, ds) :: GoesLeft(row, index, value) && row in ds
    ensures forall row <- AtOrAbove(index, value, ds) :: !GoesLeft(row, index, value) && row in ds
  {
    if ds != [] {
      var init := ds[..|ds| - 1];
      SplitPartitions(index, value, init);
      assert ds == init + [ds[|ds| - 1]];
    }
  }

  /** When every row passes the test, the right side is empty and the left side is the whole dataset. */
  lemma {:induction false} AllBelow(index: nat, value: real, ds: Dataset)
    requires forall row <- ds :: GoesLeft(row, index, value)
    ensures Below(index, value, ds) == ds
    ensures AtOrAbove(index, value, ds) == []
  {
    if ds != [] {
      var init, last := ds[..|ds| - 1], ds[|ds| - 1];
      forall row | row in init ensures GoesLeft(row, index, value) {
        var i :| 0 <= i < |init| && init[i] == row;
        assert row == ds[i];
      }
      AllBelow(index, value, init);
      assert GoesLeft(last, index, value);
      assert Below(index, value, ds) == Below(index, value, init) + [last];
      assert AtOrAbove(index, value, ds) == AtOrAbove(index, value, init);
      assert ds == init + [last];
    }
  }

  // ----- Gini impurity -----

  /** Rows of `g` labelled `c`. */
  function CountLabel(g: Dataset, c: real): nat {
    Count(Labels(g), c)
  }

  /** The sum of the squared class proportions of a non-empty group. */
  function ClassScore(g: Dataset, classes: seq<real>): (s: real)
    requires |g| > 0
    ensures s >= 0.0
  {
    if classes == [] then 0.0
    else ClassScore(g, classes[..|classes| - 1]) + SquaredShare(g, classes[|classes| - 1])
  }

  /** The squared proportion of rows of `g` labelled `c`. */
  function SquaredShare(g: Dataset, c: real): (s: real)
    requires |g| > 0
    ensures s >= 0.0
  {
    var p := CountLabel(g, c) as real / |g| as real;
    p * p
  }

  /** A group's impurity weighted by its share of `n` rows; an empty group adds nothing. */
  function GroupImpurity(g: Dataset, classes: seq<real>, n: nat): real
    requires |g| <= n
  {
    if |g| == 0 then 0.0
    else Impurity(ClassScore(g, classes), |g|, n)
  }

  /** `(1 - score) * (size / n)`: one group's term of the Gini index. */
  function Impurity(score: real, size: nat, n: nat): real
    requires 0 < size <= n
  {
    (1.0 - score) * (size as real / n as real)
  }

  /** The number of rows in all groups together. */
  function TotalSize(groups: seq<Dataset>): (n: nat)
    ensures forall g <- groups :: |g| <= n
  {
    if groups == [] then 0
    else
      var init := groups[..|groups| - 1];
      assert groups == init + [groups[|groups| - 1]];
      TotalSize(init) + |groups[|groups| - 1]|
  }

  function WeightedImpurity(groups: seq<Dataset>, classes: seq<real>, n: nat): real
    requires forall g <- groups :: |g| <= n
  {
    if groups == [] then 0.0
    else
      var init := groups[..|groups| - 1];
      assert forall g <- init :: g in groups;
      WeightedImpurity(init, classes, n) + GroupImpurity(groups[|groups| - 1], classes, n)
  }

  /** The Gini index of a split: the impurities of its groups weighted by group size. */
  function Gini(groups: seq<Dataset>, classes: seq<real>): real {
    WeightedImpurity(groups, classes, TotalSize(groups))
  }

  /** Computes the Gini index of a split with the two nested loops of the engine. */
  method GiniIndex(groups: seq<Dataset>, classes: seq<real>) returns (gini: real)
    ensures gini == Gini(groups, classes)
  {
    var nInstances := TotalSize(groups);
    gini := 0.0;
    for gi := 0 to |groups|
      invariant gini == WeightedImpurity(groups[..gi], classes, nInstances)
    {
      PrefixStep(groups, gi, classes, nInstances);
      var group := groups[gi];
      var size := |group|;
      if size == 0 {
        continue;
      }
      var score := 0.0;
      for ci := 0 to |classes|
        invariant score == ClassScore(group, classes[..ci])
      {
        ClassScoreStep(group, classes, ci);
        score := score + SquaredShare(group, classes[ci]);
      }
      assert classes[..|classes|] == classes;
      gini := gini + Impurity(score, size, nInstances);
    }
    assert groups[..|groups|] == groups;
  }

  lemma ClassScoreStep(g: Dataset, classes: seq<real>, i: nat)
    requires |g| > 0 && i < |classes|
    ensures ClassScore(g, classes[..i + 1]) == ClassScore(g, classes[..i]) + SquaredShare(g, classes[i])
  {
    var cs := classes[..i + 1];
    assert cs[..|cs| - 1] == classes[..i] && cs[|cs| - 1] == classes[i];
  }

  lemma PrefixStep(groups: seq<Dataset>, i: nat, classes: seq<real>, n: nat)
    requires i < |groups| && forall g <- groups :: |g| <= n
    ensures forall g <- groups[..i + 1] :: |g| <= n
    ensures WeightedImpurity(groups[..i + 1], classes, n)
         == WeightedImpurity(groups[..i], classes, n) + GroupImpurity(groups[i], classes, n)
  {
    assert forall g <- groups[..i + 1] :: g in groups;
    assert groups[..i + 1][..i] == groups[..i];
    WeightedImpurityStep(groups[..i + 1], classes, n);
  }

  lemma WeightedImpurityStep(groups: seq<Dataset>, classes: seq<real>, n: nat)
    requires groups != [] && forall g <- groups :: |g| <= n
    ensures forall g <- groups[..|groups| - 1] :: |g| <= n
    ensures WeightedImpurity(groups, classes, n)
         == WeightedImpurity(groups[..|groups| - 1], classes, n) + GroupImpurity(groups[|groups| - 1], classes, n)
    ensures TotalSize(groups) == TotalSize(groups[..|groups| - 1]) + |groups[|groups| - 1]|
  {
    assert forall g <- groups[..|groups| - 1] :: g in groups;
  }

  lemma DivSelf(n: real)
    requires n > 0.0
    ensures n / n == 1.0
  {
  }

  lemma DivAdd(a: real, b: real, n: real)
    requires n > 0.0
    ensures a / n + b / n == (a + b) / n
  {
  }

  lemma ScaledByScore(s: real, q: real)
    requires s >= 0.0 && q >= 0.0
    ensures (1.0 - s) * q <= q
  {
    assert s * q >= 0.0;
  }

  lemma ImpurityAtMostShare(score: real, size: nat, n: nat)
    requires score >= 0.0 && 0 < size <= n
    ensures Impurity(score, size, n) <= size as real / n as real
  {
    var q := size as real / n as real;
    assert q >= 0.0;
    ScaledByScore(score, q);
  }

  lemma {:induction false} WeightedImpurityBound(groups: seq<Dataset>, classes: seq<real>, n: nat)
    requires n > 0 && forall g <- groups :: |g| <= n
    ensures WeightedImpurity(groups, classes, n) <= TotalSize(groups) as real / n as real
  {
    if groups != [] {
      var init := groups[..|groups| - 1];
      var last := groups[|groups| - 1];
      WeightedImpurityStep(groups, classes, n);
      assert last in groups;
      var a := WeightedImpurity(init, classes, n);
      var b := GroupImpurity(last, classes, n);
      var x, y, nn := TotalSize(init) as real, |last| as real, n as real;
      WeightedImpurityBound(init, classes, n);
      GroupImpurityBound(last, classes, n);
      SumOfShares(a, b, x, y, nn);
      assert WeightedImpurity(groups, classes, n) == a + b;
      assert TotalSize(groups) as real == x + y;
    }
  }

  lemma GroupImpurityBound(g: Dataset, classes: seq<real>, n: nat)
    requires 0 < n && |g| <= n
    ensures GroupImpurity(g, classes, n) <= |g| as real / n as real
  {
    if |g| > 0 {
      ImpurityAtMostShare(ClassScore(g, classes), |g|, n);
    }
  }

  lemma SumOfShares(a: real, b: real, x: real, y: real, n: real)
    requires n > 0.0 && a <= x / n && b <= y / n
    ensures a + b <= (x + y) / n
  {
    DivAdd(x, y, n);
  }

  lemma {:induction false} EmptyGroupsWeighNothing(groups: seq<Dataset>, classes: seq<real>, n: nat)
    requires forall g <- groups :: |g| <= n
    requires TotalSize(groups) == 0
    ensures WeightedImpurity(groups, classes, n) == 0.0
  {
    if groups != [] {
      WeightedImpurityStep(groups, classes, n);
      EmptyGroupsWeighNothing(groups[..|groups| - 1], classes, n);
    }
  }

  /**
   * The Gini index never exceeds 1, so the first candidate the split search
   * scores always beats its starting score of 999.
   */
  lemma GiniAtMostOne(groups: seq<Dataset>, classes: seq<real>)
    ensures Gini(groups, classes) <= 1.0
  {
    var n := TotalSize(groups);
    if n == 0 {
      EmptyGroupsWeighNothing(groups, classes, n);
    } else {
      WeightedImpurityBound(groups, classes, n);
      DivSelf(n as real);
    }
  }

  /** The non-empty groups, in order. */
  function NonEmpty(groups: seq<Dataset>): (r: seq<Dataset>)
    ensures forall g <- r :: g in groups && |g| > 0
  {
    if groups == [] then []
    else
      var init := groups[..|groups| - 1];
      var last := groups[|groups| - 1];
      NonEmpty(init) + (if |last| == 0 then [] else [last])
  }

  lemma {:induction false} NonEmptyKeepsWeights(groups: seq<Dataset>, classes: seq<real>, n: nat)
    requires forall g <- groups :: |g| <= n
    ensures TotalSize(NonEmpty(groups)) == TotalSize(groups)
    ensures WeightedImpurity(NonEmpty(groups), classes, n) == WeightedImpurity(groups, classes, n)
  {
    if groups != [] {
      var init := groups[..|groups| - 1];
      var last := groups[|groups| - 1];
      WeightedImpurityStep(groups, classes, n);
      NonEmptyKeepsWeights(init, classes, n);
      var r := NonEmpty(init);
      if |last| > 0 {
        var r' := r + [last];
        assert NonEmpty(groups) == r';
        assert r'[..|r'| - 1] == r;
        WeightedImpurityStep(r', classes, n);
      } else {
        assert NonEmpty(groups) == r;
      }
    }
  }

  /** Empty groups are skipped: dropping them leaves the Gini index unchanged. */
  lemma GiniIgnoresEmptyGroups(groups: seq<Dataset>, classes: seq<real>)
    ensures Gini(NonEmpty(groups), classes) == Gini(groups, classes)
  {
    NonEmptyKeepsWeights(groups, classes, TotalSize(groups));
  }

  /** Every row of `g` carries the label `v`. */
  predicate AllLabelled(g: Dataset, v: real) {
    forall row <- g :: Label(row) == v
  }

  lemma {:induction false} CountOfConstant(xs: seq<real>, v: real, c: real)
    requires forall k :: 0 <= k < |xs| ==> xs[k] == v
    ensures Count(xs, c) == if c == v then |xs| else 0
  {
    if xs != [] {
      CountOfConstant(xs[..|xs| - 1], v, c);
    }
  }

  /** In a group labelled `v` throughout, class `c` has proportion 1 if it is `v` and 0 otherwise. */
  lemma PureProportion(g: Dataset, v: real, c: real)
    requires |g| > 0 && AllLabelled(g, v)
    ensures var p := CountLabel(g, c) as real / |g| as real; p * p == if c == v then 1.0 else 0.0
  {
    forall k | 0 <= k < |g|
      ensures Labels(g)[k] == v
    {
      assert g[k] in g;
    }
    CountOfConstant(Labels(g), v, c);
  }

  /** In a group labelled `v` throughout, the squared share of class `c` is 1 if it is `v` and 0 otherwise. */
  lemma PureSquaredShare(g: Dataset, v: real, c: real)
    requires |g| > 0 && AllLabelled(g, v)
    ensures SquaredShare(g, c) == if c == v then 1.0 else 0.0
  {
    PureProportion(g, v, c);
  }

  lemma {:induction false} PureClassScore(g: Dataset, v: real, classes: seq<real>)
    requires |g| > 0 && AllLabelled(g, v)
    ensures ClassScore(g, classes) == Count(classes, v) as real
  {
    if classes != [] {
      var init := classes[..|classes| - 1];
      var c := classes[|classes| - 1];
      PureClassScore(g, v, init);
      assert ClassScore(g, classes) == ClassScore(g, init) + SquaredShare(g, c) by {
        ClassScoreStep(g, classes, |classes| - 1);
        assert classes[..|classes|] == classes;
      }
      assert Count(classes, v) == Count(init, v) + Count([c], v) by {
        assert classes == init + [c];
        CountAppend(init, [c], v);
      }
      PureSquaredShare(g, v, c);
      if c == v {
        assert Count([c], v) == 1;
      } else {
        assert Count([c], v) == 0;
      }
    }
  }

  lemma {:induction false} PureGroupsWeighNothing(groups: seq<Dataset>, classes: seq<real>, n: nat)
    requires forall g <- groups :: |g| <= n
    requires forall g <- groups :: |g| > 0 ==> AllLabelled(g, Label(g[0])) && Count(classes, Label(g[0])) == 1
    ensures WeightedImpurity(groups, classes, n) == 0.0
  {
    if groups != [] {
      var init := groups[..|groups| - 1];
      var last := groups[|groups| - 1];
      assert forall g <- init :: g in groups;
      PureGroupsWeighNothing(init, classes, n);
      if |last| > 0 {
        PureClassScore(last, Label(last[0]), classes);
      }
    }
  }

  /**
   * A split whose every group holds a single label, listed once among the
   * classes, is perfect: its Gini index is 0.
   */
  lemma GiniOfPureSplit(groups: seq<Dataset>, classes: seq<real>)
    requires forall g <- groups :: |g| > 0 ==> AllLabelled(g, Label(g[0])) && Count(classes, Label(g[0])) == 1
    ensures Gini(groups, classes) == 0.0
  {
    PureGroupsWeighNothing(groups, classes, TotalSize(groups));
  }

  /**
   * A single group holding two classes in equal numbers has the worst
   * two-class Gini index, 0.5.
   */
  lemma GiniOfEvenTwoClassGroup(g: Dataset, a: real, b: real)
    requires 0 < |g| && 2 * CountLabel(g, a) == |g| && 2 * CountLabel(g, b) == |g|
    ensures Gini([g], [a, b]) == 0.5
  {
    var n := |g| as real;
    assert CountLabel(g, a) as real / n == 0.5 by {
      Half(CountLabel(g, a) as real, n);
    }
    assert CountLabel(g, b) as real / n == 0.5 by {
      Half(CountLabel(g, b) as real, n);
    }
    assert ClassScore(g, [a]) == 0.25 by {
      assert [a][..0] == [];
    }
    assert ClassScore(g, [a, b]) == 0.5 by {
      assert [a, b][..1] == [a];
    }
    assert Gini([g], [a, b]) == GroupImpurity(g, [a, b], |g|) by {
      WeightedImpurityStep([g], [a, b], |g|);
      assert [g][..0] == [];
    }
    DivSelf(n);
  }

  lemma Half(c: real, n: real)
    requires n > 0.0 && 2.0 * c == n
    ensures c / n == 0.5
  {
  }

  /** The distinct labels of a dataset in order of first occurrence. */
  function ClassValues(ds: Dataset): (cs: seq<real>)
    ensures NoDuplicates(cs)
    ensures forall c <- cs :: c in Labels(ds)
    ensures forall c <- Labels(ds) :: c in cs
  {
    Distinct(Labels(ds))
  }

  // ----- choosing a split -----

  /**
   * Draws feature indices below `m` until `n` distinct ones are collected,
   * starting from the ones in `acc`, keeping the order of first draw.
   */
  function SampledFeatures(draws: seq<Unit>, m: nat, n: nat, acc: seq<nat>): Drawn<seq<nat>>
    decreases |draws|
  {
    if |acc| >= n then Drawn(acc, draws)
    else if draws == [] then Exhausted
    else
      var index := RandRange(draws[0], m);
      SampledFeatures(draws[1..], m, n, if index in acc then acc else acc + [index])
  }

  /** The feature-sampling loop of the split search. */
  method SampleFeatures(m: nat, n: nat, draws: seq<Unit>) returns (r: Drawn<seq<nat>>)
    ensures r == SampledFeatures(draws, m, n, [])
  {
    var features: seq<nat> := [];
    var rest := draws;
    while |features| < n
      invariant SampledFeatures(rest, m, n, features) == SampledFeatures(draws, m, n, [])
      decreases |rest|
    {
      if rest == [] {
        return Exhausted;
      }
      var index := RandRange(rest[0], m);
      rest := rest[1..];
      if index !in features {
        features := features + [index];
      }
    }
    return Drawn(features, rest);
  }

  lemma {:induction false} SampledFeaturesFacts(draws: seq<Unit>, m: nat, n: nat, acc: seq<nat>)
    requires |acc| <= n && NoDuplicates(acc)
    requires forall f <- acc :: f < m || (m == 0 && f == 0)
    ensures var r := SampledFeatures(draws, m, n, acc);
      r.Drawn? ==>
        |r.value| == n && NoDuplicates(r.value) && IsSuffix(r.rest, draws)
        && (forall f <- r.value :: f < m || (m == 0 && f == 0))
        && r.value[..|acc|] == acc
    decreases |draws|
  {
    if |acc| < n && draws != [] {
      var index := RandRange(draws[0], m);
      var acc' := if index in acc then acc else acc + [index];
      SampledFeaturesFacts(draws[1..], m, n, acc');
      var r := SampledFeatures(draws[1..], m, n, acc');
      if r.Drawn? {
        assert r.value[..|acc'|][..|acc|] == r.value[..|acc|];
        SuffixOfTail(r.rest, draws);
      }
    }
  }

  /** A duplicate-free sequence of numbers below `m` has at most `m` elements. */
  lemma {:induction false} DistinctBelowBound(s: seq<nat>, m: nat)
    requires NoDuplicates(s) && forall f <- s :: f < m
    ensures |s| <= m
    decreases m
  {
    if s != [] {
      assert s[0] in s;
      if m - 1 in s {
        var p := IndexOf(s, m - 1);
        var s' := s[..p] + s[p + 1..];
        assert forall f <- s' :: f in s && f != m - 1;
        assert NoDuplicates(s') by {
          forall i, j | 0 <= i < j < |s'|
            ensures s'[i] != s'[j]
          {
            var i' := if i < p then i else i + 1;
            var j' := if j < p then j else j + 1;
            assert s'[i] == s[i'] && s'[j] == s[j'];
          }
        }
        DistinctBelowBound(s', m - 1);
      } else {
        DistinctBelowBound(s, m - 1);
      }
    }
  }

  /**
   * Feature sampling only finishes when enough distinct features exist:
   * asking for more features than the rows have never completes (the engine
   * keeps drawing for ever).
   */
  lemma SamplingNeedsEnoughFeatures(draws: seq<Unit>, m: nat, n: nat)
    requires SampledFeatures(draws, m, n, []).Drawn?
    ensures n <= m || (m == 0 && n <= 1)
  {
    SampledFeaturesFacts(draws, m, n, []);
    var fs := SampledFeatures(draws, m, n, []).value;
    if m > 0 {
      DistinctBelowBound(fs, m);
    } else {
      DistinctBelowBound(fs, 1);
    }
  }

  /** Every sampled feature is a column of every row. */
  predicate FeaturesFit(ds: Dataset, features: seq<nat>) {
    forall f, k :: 0 <= f < |features| && 0 <= k < |ds| ==> features[f] < |ds[k]|
  }

  /** The split on feature `features[f]` at the threshold taken from row `k`. */
  function CandidateAt(ds: Dataset, features: seq<nat>, f: nat, k: nat): Candidate
    requires f < |features| && k < |ds| && FeaturesFit(ds, features)
  {
    var index := features[f];
    var value := ds[k][index];
    Candidate(index, value, Below(index, value, ds), AtOrAbove(index, value, ds))
  }

  /** A candidate split with its Gini index. */
  datatype Scored = Scored(split: Candidate, score: real)

  /** The candidate split at (f, k) and its Gini index over the dataset's classes. */
  function ScoredAt(ds: Dataset, features: seq<nat>, f: nat, k: nat): Scored
    requires f < |features| && k < |ds| && FeaturesFit(ds, features)
  {
    var c := CandidateAt(ds, features, f, k);
    Scored(c, Gini([c.left, c.right], ClassValues(ds)))
  }

  /**
   * Every split the search visits, in its order: one row of scored splits
   * per sampled feature (the first `n` features), one entry per dataset row.
   */
  function ScoredTable(ds: Dataset, features: seq<nat>, n: nat): (t: seq<seq<Scored>>)
    requires n <= |features| && FeaturesFit(ds, features)
    ensures |t| == n
    ensures forall f :: 0 <= f < n ==> |t[f]| == |ds|
  {
    seq(n, f requires 0 <= f < n => seq(|ds|, k requires 0 <= k < |ds| => ScoredAt(ds, features, f, k)))
  }

  /** Entry (f, k) of the table is the split on feature `features[f]` at row `k`'s value, with its score. */
  lemma ScoredTableAt(ds: Dataset, features: seq<nat>, n: nat, f: nat, k: nat)
    requires f < n <= |features| && k < |ds| && FeaturesFit(ds, features)
    ensures ScoredTable(ds, features, n)[f][k] == ScoredAt(ds, features, f, k)
  {
  }

  /** The pair (f, k) is visited before (bf, bk) in the search order: feature by feature, row by row. */
  predicate Before(f: nat, k: nat, bf: nat, bk: nat) {
    f < bf || (f == bf && k < bk)
  }

  /**
   * (bf, bk) holds the lowest score of the table, and every entry before it
   * in row-major order scores strictly higher: the first minimum.
   */
  predicate IsFirstMinimum(t: seq<seq<Scored>>, bf: nat, bk: nat) {
    bf < |t| && bk < |t[bf]|
    && (forall f, k :: 0 <= f < |t| && 0 <= k < |t[f]| ==> t[f][k].score >= t[bf][bk].score)
    && (forall f, k :: 0 <= f < |t| && 0 <= k < |t[f]| && Before(f, k, bf, bk) ==> t[f][k].score > t[bf][bk].score)
  }

  /**
   * The split at (bf, bk) is the one the search keeps: the lowest Gini index
   * over all sampled features and rows, and the first such in search order,
   * since the best is replaced only on a strictly lower score.
   */
  predicate IsFirstBestSplit(ds: Dataset, features: seq<nat>, bf: nat, bk: nat)
    requires FeaturesFit(ds, features)
  {
    IsFirstMinimum(ScoredTable(ds, features, |features|), bf, bk)
  }

  /** The Gini index of the split at (f, k). */
  function ScoreAt(ds: Dataset, features: seq<nat>, f: nat, k: nat): real
    requires f < |features| && k < |ds| && FeaturesFit(ds, features)
  {
    ScoredAt(ds, features, f, k).score
  }

  /** The first best split, stated score by score. */
  lemma FirstBestSplitScores(ds: Dataset, features: seq<nat>, bf: nat, bk: nat)
    requires FeaturesFit(ds, features) && IsFirstBestSplit(ds, features, bf, bk)
    ensures bf < |features| && bk < |ds|
    ensures forall f, k :: 0 <= f < |features| && 0 <= k < |ds| ==>
      ScoreAt(ds, features, f, k) >= ScoreAt(ds, features, bf, bk)
    ensures forall f, k :: 0 <= f < |features| && 0 <= k < |ds| && Before(f, k, bf, bk) ==>
      ScoreAt(ds, features, f, k) > ScoreAt(ds, features, bf, bk)
  {
    ScoredTableAt(ds, features, |features|, bf, bk);
    forall f, k | 0 <= f < |features| && 0 <= k < |ds|
      ensures ScoreAt(ds, features, f, k) >= ScoreAt(ds, features, bf, bk)
      ensures Before(f, k, bf, bk) ==> ScoreAt(ds, features, f, k) > ScoreAt(ds, features, bf, bk)
    {
      ScoredTableAt(ds, features, |features|, f, k);
    }
  }

  lemma ScoreOfVisited(ds: Dataset, features: seq<nat>, f: nat, k: nat, c: Candidate, gini: real)
    requires f < |features| && k < |ds| && FeaturesFit(ds, features)
    requires c == CandidateAt(ds, features, f, k)
    requires gini == Gini([c.left, c.right], ClassValues(ds))
    ensures Scored(c, gini) == ScoredTable(ds, features, |features|)[f][k]
    ensures gini <= 1.0
  {
    ScoredTableAt(ds, features, |features|, f, k);
    GiniAtMostOne([c.left, c.right], ClassValues(ds));
  }

  /** Splits `ds` on feature `features[f]` at row `k`'s value and scores the split. */
  method EvaluateSplit(ds: Dataset, features: seq<nat>, f: nat, k: nat, classValues: seq<real>)
    returns (c: Candidate, gini: real)
    requires f < |features| && k < |ds| && FeaturesFit(ds, features) && classValues == ClassValues(ds)
    ensures Scored(c, gini) == ScoredTable(ds, features, |features|)[f][k]
    ensures gini <= 1.0
  {
    var index := features[f];
    var value := ds[k][index];
    var left, right := TestSplit(index, value, ds);
    gini := GiniIndex([left, right], classValues);
    c := Candidate(index, value, left, right);
    ScoreOfVisited(ds, features, f, k, c, gini);
  }

  /** The placeholder the search starts from, returned as is when no feature was sampled. */
  const NO_SPLIT := Candidate(999, 999.0, [], [])

  /**
   * The search state after visiting every pair before (fi, ki): `best` and
   * `bScore` are the entry (bf, bk) of the table, the lowest visited score,
   * and every pair visited before it scores strictly higher. Before any visit
   * the state is the placeholder with score 999.
   */
  ghost predicate SearchState(t: seq<seq<Scored>>, m: nat, fi: nat, ki: nat, best: Candidate, bScore: real, bf: nat, bk: nat)
    requires fi <= |t| && forall f :: 0 <= f < |t| ==> |t[f]| == m
    requires if fi < |t| then ki <= m else ki == 0
  {
    && (fi == 0 && ki == 0 ==> best == NO_SPLIT && bScore == 999.0)
    && (fi > 0 || ki > 0 ==> Before(bf, bk, fi, ki) && bk < m && t[bf][bk] == Scored(best, bScore))
    && (forall f, k :: 0 <= f < fi && 0 <= k < m ==> t[f][k].score >= bScore)
    && (forall k :: 0 <= k < ki ==> t[fi][k].score >= bScore)
    && (forall f, k :: 0 <= f < fi && 0 <= k < m && Before(f, k, bf, bk) ==> t[f][k].score > bScore)
    && (forall k :: 0 <= k < ki && Before(fi, k, bf, bk) ==> t[fi][k].score > bScore)
  }

  /** Scores every sampled feature at every row's value and keeps the first best split. */
  method BestSplit(ds: Dataset, features: seq<nat>) returns (best: Candidate)
    requires |ds| > 0 && FeaturesFit(ds, features)
    ensures |features| == 0 ==> best == NO_SPLIT
    ensures |features| > 0 ==>
      exists bf, bk :: IsFirstBestSplit(ds, features, bf, bk) && best == CandidateAt(ds, features, bf, bk)
    ensures |features| > 0 ==>
      best.index in features && best.left == Below(best.index, best.value, ds) && best.right == AtOrAbove(best.index, best.value, ds)
  {
    var classValues := ClassValues(ds);
    best := NO_SPLIT;
    var bScore := 999.0;
    ghost var t := ScoredTable(ds, features, |features|);
    ghost var bf, bk := 0, 0;
    for fi := 0 to |features|
      invariant SearchState(t, |ds|, fi, 0, best, bScore, bf, bk)
    {
      for ki := 0 to |ds|
        invariant SearchState(t, |ds|, fi, ki, best, bScore, bf, bk)
      {
        var c, gini := EvaluateSplit(ds, features, fi, ki, classValues);
        ghost var t0, b0, s0, f0, k0 := t, best, bScore, bf, bk;
        if gini < bScore {
          best := c;
          bScore := gini;
          bf, bk := fi, ki;
        }
        SearchStep(t, |ds|, fi, ki, b0, s0, f0, k0, c, gini, best, bScore, bf, bk);
      }
      SearchNextFeature(t, |ds|, fi, best, bScore, bf, bk);
    }
    if |features| > 0 {
      SearchDone(t, |ds|, best, bScore, bf, bk);
      ScoredTableAt(ds, features, |features|, bf, bk);
      assert features[bf] in features;
    }
  }

  lemma SearchNextFeature(t: seq<seq<Scored>>, m: nat, fi: nat, best: Candidate, bScore: real, bf: nat, bk: nat)
    requires fi < |t| && 0 < m && forall f :: 0 <= f < |t| ==> |t[f]| == m
    requires SearchState(t, m, fi, m, best, bScore, bf, bk)
    ensures SearchState(t, m, fi + 1, 0, best, bScore, bf, bk)
  {
    forall f, k | 0 <= f < fi + 1 && 0 <= k < m
      ensures t[f][k].score >= bScore
      ensures Before(f, k, bf, bk) ==> t[f][k].score > bScore
    {
      if f == fi {
        assert t[fi][k].score >= bScore;
      }
    }
  }

  lemma SearchDone(t: seq<seq<Scored>>, m: nat, best: Candidate, bScore: real, bf: nat, bk: nat)
    requires 0 < |t| && 0 < m && forall f :: 0 <= f < |t| ==> |t[f]| == m
    requires SearchState(t, m, |t|, 0, best, bScore, bf, bk)
    ensures IsFirstMinimum(t, bf, bk) && t[bf][bk].split == best
  {
  }

  /** Visiting (fi, ki) keeps the search state: the best is replaced only on a strictly lower score. */
  lemma SearchStep(t: seq<seq<Scored>>, m: nat, fi: nat, ki: nat,
                   best: Candidate, bScore: real, bf: nat, bk: nat,
                   c: Candidate, gini: real,
                   best': Candidate, bScore': real, bf': nat, bk': nat)
    requires fi < |t| && ki < m && forall f :: 0 <= f < |t| ==> |t[f]| == m
    requires SearchState(t, m, fi, ki, best, bScore, bf, bk)
    requires t[fi][ki] == Scored(c, gini) && gini <= 1.0
    requires if gini < bScore then best' == c && bScore' == gini && bf' == fi && bk' == ki
             else best' == best && bScore' == bScore && bf' == bf && bk' == bk
    ensures SearchState(t, m, fi, ki + 1, best', bScore', bf', bk')
  {
  }

  /** Draws the features to try, then finds the first best split among them. */
  method GetSplit(ds: Dataset, nFeatures: nat, draws: seq<Unit>) returns (r: Drawn<Candidate>)
    requires |ds| > 0 && HasWidth(ds, |ds[0]|)
    ensures var m := |ds[0]| - 1; var s := SampledFeatures(draws, m, nFeatures, []);
      && (r.Drawn? <==> s.Drawn?)
      && (r.Drawn? ==>
            && r.rest == s.rest
            && (nFeatures == 0 ==> r.value == NO_SPLIT)
            && (nFeatures > 0 ==>
                  && SampledFrom(s.value, m, nFeatures)
                  && FeaturesFit(ds, s.value)
                  && (exists bf, bk :: IsFirstBestSplit(ds, s.value, bf, bk) && r.value == CandidateAt(ds, s.value, bf, bk))
                  && IsSplitOf(r.value, ds)
                  && ChosenSplit(r.value.index, r.value.value, ds, nFeatures)))
  {
    var m := |ds[0]| - 1;
    var features := SampleFeatures(m, nFeatures, draws);
    if features.Exhausted? {
      return Exhausted;
    }
    SampledFeaturesFacts(draws, m, nFeatures, []);
    var fs := features.value;
    forall f, k | 0 <= f < |fs| && 0 <= k < |ds|
      ensures fs[f] < |ds[k]|
    {
      assert fs[f] in fs && ds[k] in ds;
    }
    var best := BestSplit(ds, fs);
    if nFeatures > 0 {
      BestIsChosen(ds, fs, nFeatures, best);
    }
    return Drawn(best, features.rest);
  }

  /** The first best split over a draw of feature columns is the split the engine chooses. */
  lemma BestIsChosen(ds: Dataset, fs: seq<nat>, n: nat, c: Candidate)
    requires |ds| > 0 && SampledFrom(fs, |ds[0]| - 1, n) && FeaturesFit(ds, fs)
    requires exists bf, bk :: IsFirstBestSplit(ds, fs, bf, bk) && c == CandidateAt(ds, fs, bf, bk)
    ensures ChosenSplit(c.index, c.value, ds, n)
  {
    var bf, bk :| IsFirstBestSplit(ds, fs, bf, bk) && c == CandidateAt(ds, fs, bf, bk);
    assert BestOver(c.index, c.value, ds, fs);
  }

  /** Column `i` is a feature column of rows with `nCols` features (column 0 when there are none). */
  predicate SplitColumn(i: nat, nCols: nat) {
    i < nCols || (nCols == 0 && i == 0)
  }

  /** `fs` is a draw of `n` distinct feature columns of rows with `nCols` features. */
  predicate SampledFrom(fs: seq<nat>, nCols: nat, n: nat) {
    |fs| == n && NoDuplicates(fs) && forall f <- fs :: SplitColumn(f, nCols)
  }

  /**
   * Splitting `ds` on column `index` at `threshold` is the first best split
   * over some draw of `n` of its feature columns: the choice the engine makes.
   */
  ghost predicate ChosenSplit(index: nat, threshold: real, ds: Dataset, n: nat) {
    |ds| > 0 && exists fs :: SampledFrom(fs, |ds[0]| - 1, n) && BestOver(index, threshold, ds, fs)
  }

  /** Splitting `ds` on column `index` at `threshold` is the first best split over the columns `fs`. */
  ghost predicate BestOver(index: nat, threshold: real, ds: Dataset, fs: seq<nat>) {
    FeaturesFit(ds, fs) &&
    exists bf: nat, bk: nat :: bf < |fs| && bk < |ds| && IsFirstBestSplit(ds, fs, bf, bk) &&
      CandidateAt(ds, fs, bf, bk).index == index && CandidateAt(ds, fs, bf, bk).value == threshold
  }

  /** `c` splits `ds` on a feature column at its threshold, into the rows below and the rest. */
  predicate IsSplitOf(c: Candidate, ds: Dataset)
    requires |ds| > 0
  {
    SplitColumn(c.index, |ds[0]| - 1) && c.left == Below(c.index, c.value, ds) && c.right == AtOrAbove(c.index, c.value, ds)
  }

  /** What the engine stores in a leaf: the most common label, the earliest on ties. */
  function ToTerminal(g: Dataset): (v: real)
    requires |g| > 0
    ensures IsFirstMostCommon(Labels(g), v)
  {
    Mode(Labels(g))
  }

  function Size(t: Tree): (n: nat)
    ensures n >= 1
  {
    match t
    case Leaf(_) => 1
    case Split(_, _, l, r) => 1 + Size(l) + Size(r)
  }

  /** The number of split nodes on the longest path from the root. */
  function SplitDepth(t: Tree): nat {
    match t
    case Leaf(_) => 0
    case Split(_, _, l, r) => 1 + (if SplitDepth(l) >= SplitDepth(r) then SplitDepth(l) else SplitDepth(r))
  }

  /** The labels held by the leaves. */
  function LeafLabels(t: Tree): set<real> {
    match t
    case Leaf(v) => {v}
    case Split(_, _, l, r) => LeafLabels(l) + LeafLabels(r)
  }

  /** The feature columns the split nodes test. */
  function SplitIndices(t: Tree): set<nat> {
    match t
    case Leaf(_) => {}
    case Split(i, _, l, r) => {i} + SplitIndices(l) + SplitIndices(r)
  }

  /**
   * `t` is the tree the engine grows from `ds` at `depth`: a split node on
   * the first best split over `nFeatures` sampled feature columns, whose two
   * children were grown from the rows below and at or above its threshold.
   */
  ghost predicate Grown(t: Tree, ds: Dataset, depth: int, maxDepth: int, minSize: int, nCols: nat, nFeatures: nat)
    decreases Size(t), 1
  {
    && t.Split?
    && SplitColumn(t.index, nCols)
    && ChosenSplit(t.index, t.threshold, ds, nFeatures)
    && GrownChildren(t.left, t.right, Below(t.index, t.threshold, ds), AtOrAbove(t.index, t.threshold, ds),
                     depth, maxDepth, minSize, nCols, nFeatures)
  }

  /**
   * The children `lt` and `rt` of a node at `depth` whose split made the
   * groups `l` and `r`:
   * - when one group is empty, both children are the same leaf, the most
   *   common label of all the rows;
   * - at the depth limit, each child is a leaf of its own group;
   * - otherwise a group of at most `minSize` rows becomes a leaf and a larger
   *   one is grown further at the next depth.
   */
  ghost predicate GrownChildren(lt: Tree, rt: Tree, l: Dataset, r: Dataset, depth: int, maxDepth: int, minSize: int, nCols: nat, nFeatures: nat)
    decreases Size(lt) + Size(rt), 0
  {
    if |l| == 0 || |r| == 0 then
      |l + r| > 0 && lt == Leaf(ToTerminal(l + r)) && rt == lt
    else if depth >= maxDepth then
      lt == Leaf(ToTerminal(l)) && rt == Leaf(ToTerminal(r))
    else
      && (if |l| <= minSize then lt == Leaf(ToTerminal(l)) else Grown(lt, l, depth + 1, maxDepth, minSize, nCols, nFeatures))
      && (if |r| <= minSize then rt == Leaf(ToTerminal(r)) else Grown(rt, r, depth + 1, maxDepth, minSize, nCols, nFeatures))
  }

  /** Rows of a subset of `ds` have the width of the rows of `ds`. */
  lemma SubsetWidth(sub: Dataset, ds: Dataset, w: nat)
    requires HasWidth(ds, w) && forall row <- sub :: row in ds
    ensures HasWidth(sub, w)
  {
  }

  /**
   * Finishes the node whose split `c` made the groups `c.left` and
   * `c.right`: makes terminal leaves or splits each group further, left
   * subtree first, drawing the features of every new split from `draws`.
   */
  method SplitNode(c: Candidate, w: nat, maxDepth: int, minSize: int, nFeatures: nat, depth: int, draws: seq<Unit>)
    returns (r: Drawn<Tree>)
    requires 0 < |c.left| + |c.right| && 0 < w && 0 < nFeatures
    requires HasWidth(c.left, w) && HasWidth(c.right, w)
    ensures r.Drawn? ==>
      && r.value.Split? && r.value.index == c.index && r.value.threshold == c.value
      && GrownChildren(r.value.left, r.value.right, c.left, c.right, depth, maxDepth, minSize, w - 1, nFeatures)
    decreases |c.left| + |c.right|, 0
  {
    var left, right := c.left, c.right;
    if |left| == 0 || |right| == 0 {
      var leaf := Leaf(ToTerminal(left + right));
      return Drawn(Split(c.index, c.value, leaf, leaf), draws);
    }
    if depth >= maxDepth {
      return Drawn(Split(c.index, c.value, Leaf(ToTerminal(left)), Leaf(ToTerminal(right))), draws);
    }
    var rest := draws;
    var lt: Tree;
    if |left| <= minSize {
      lt := Leaf(ToTerminal(left));
    } else {
      var sub := GrowGroup(left, w, maxDepth, minSize, nFeatures, depth + 1, rest);
      if sub.Exhausted? {
        return Exhausted;
      }
      lt, rest := sub.value, sub.rest;
    }
    var rt: Tree;
    if |right| <= minSize {
      rt := Leaf(ToTerminal(right));
    } else {
      var sub := GrowGroup(right, w, maxDepth, minSize, nFeatures, depth + 1, rest);
      if sub.Exhausted? {
        return Exhausted;
      }
      rt, rest := sub.value, sub.rest;
    }
    return Drawn(Split(c.index, c.value, lt, rt), rest);
  }

  /** Chooses the split of a group and finishes the node it makes. */
  method GrowGroup(g: Dataset, w: nat, maxDepth: int, minSize: int, nFeatures: nat, depth: int, draws: seq<Unit>)
    returns (r: Drawn<Tree>)
    requires 0 < |g| && 0 < w && 0 < nFeatures && HasWidth(g, w)
    ensures r.Drawn? ==> Grown(r.value, g, depth, maxDepth, minSize, w - 1, nFeatures)
    decreases |g|, 1
  {
    var split := GetSplit(g, nFeatures, draws);
    if split.Exhausted? {
      return Exhausted;
    }
    var c := split.value;
    assert g[0] in g;
    SplitPartitions(c.index, c.value, g);
    SubsetWidth(c.left, g, w);
    SubsetWidth(c.right, g, w);
    r := SplitNode(c, w, maxDepth, minSize, nFeatures, depth, split.rest);
    if r.Drawn? {
      NodeOfSplitGrown(r.value, c, g, depth, maxDepth, minSize, w - 1, nFeatures);
    }
  }

  /** A node on the chosen split `c` of `g` whose children were grown from its groups is grown from `g`. */
  lemma NodeOfSplitGrown(t: Tree, c: Candidate, g: Dataset, depth: int, maxDepth: int, minSize: int, nCols: nat, nFeatures: nat)
    requires |g| > 0 && IsSplitOf(c, g) && |g[0]| - 1 == nCols && ChosenSplit(c.index, c.value, g, nFeatures)
    requires t.Split? && t.index == c.index && t.threshold == c.value
    ensures GrownChildren(t.left, t.right, c.left, c.right, depth, maxDepth, minSize, nCols, nFeatures) ==>
              Grown(t, g, depth, maxDepth, minSize, nCols, nFeatures)
  {
    var fs :| SampledFrom(fs, |g[0]| - 1, nFeatures) && BestOver(c.index, c.value, g, fs);
    assert BestOver(t.index, t.threshold, g, fs);
  }

  /** Grows a tree from the training rows, starting at depth 1. */
  method BuildTree(train: Dataset, maxDepth: int, minSize: int, nFeatures: nat, draws: seq<Unit>) returns (r: Drawn<Tree>)
    requires 0 < |train| && HasWidth(train, |train[0]|) && 0 < nFeatures
    ensures r.Drawn? ==> Grown(r.value, train, 1, maxDepth, minSize, |train[0]| - 1, nFeatures)
  {
    r := GrowGroup(train, |train[0]|, maxDepth, minSize, nFeatures, 1, draws);
  }

  /** Walks the tree: left when the row's value is below the threshold, right otherwise. */
  function TreePredict(t: Tree, row: seq<real>): (v: real)
    ensures v in LeafLabels(t)
  {
    match t
    case Leaf(v) => v
    case Split(i, threshold, l, r) =>
      if GoesLeft(row, i, threshold) then TreePredict(l, row) else TreePredict(r, row)
  }

  // ----- What a grown tree looks like -----

  /** The deepest a tree grown from `depth` can be, counted in split nodes. */
  function DepthBound(depth: int, maxDepth: int): int {
    if depth >= maxDepth then 1 else maxDepth - depth + 1
  }

  /** Growth stops at the depth limit: no path holds more split nodes than the limit allows. */
  lemma {:induction false} GrownDepth(t: Tree, ds: Dataset, depth: int, maxDepth: int, minSize: int, nCols: nat, nFeatures: nat)
    requires Grown(t, ds, depth, maxDepth, minSize, nCols, nFeatures)
    ensures SplitDepth(t) <= DepthBound(depth, maxDepth)
    decreases Size(t), 1
  {
    ChildrenDepth(t.left, t.right, Below(t.index, t.threshold, ds), AtOrAbove(t.index, t.threshold, ds),
                  depth, maxDepth, minSize, nCols, nFeatures);
  }

  lemma {:induction false} ChildrenDepth(lt: Tree, rt: Tree, l: Dataset, r: Dataset, depth: int, maxDepth: int, minSize: int, nCols: nat, nFeatures: nat)
    requires GrownChildren(lt, rt, l, r, depth, maxDepth, minSize, nCols, nFeatures)
    ensures depth >= maxDepth || |l| == 0 || |r| == 0 ==> SplitDepth(lt) == 0 && SplitDepth(rt) == 0
    ensures SplitDepth(lt) < DepthBound(depth, maxDepth) && SplitDepth(rt) < DepthBound(depth, maxDepth)
    decreases Size(lt) + Size(rt), 0
  {
    if |l| == 0 || |r| == 0 || depth >= maxDepth {
    } else {
      if |l| > minSize {
        GrownDepth(lt, l, depth + 1, maxDepth, minSize, nCols, nFeatures);
      }
      if |r| > minSize {
        GrownDepth(rt, r, depth + 1, maxDepth, minSize, nCols, nFeatures);
      }
    }
  }

  /** The labels of the rows of a subset of `ds` are labels of `ds`. */
  lemma LabelsOfSubset(sub: Dataset, ds: Dataset)
    requires forall row <- sub :: row in ds
    ensures forall v <- Labels(sub) :: v in Labels(ds)
  {
    forall v | v in Labels(sub)
      ensures v in Labels(ds)
    {
      var i :| 0 <= i < |sub| && Labels(sub)[i] == v;
      assert sub[i] in sub;
      var j :| 0 <= j < |ds| && ds[j] == sub[i];
      assert Labels(ds)[j] == v;
    }
  }

  /** Every leaf of a grown tree holds a label of the rows it was grown from. */
  lemma {:induction false} GrownLeafLabels(t: Tree, ds: Dataset, depth: int, maxDepth: int, minSize: int, nCols: nat, nFeatures: nat)
    requires Grown(t, ds, depth, maxDepth, minSize, nCols, nFeatures)
    ensures forall v <- LeafLabels(t) :: v in Labels(ds)
    decreases Size(t), 1
  {
    var l, r := Below(t.index, t.threshold, ds), AtOrAbove(t.index, t.threshold, ds);
    SplitPartitions(t.index, t.threshold, ds);
    ChildrenLeafLabels(t.left, t.right, l, r, depth, maxDepth, minSize, nCols, nFeatures);
    LabelsOfSubset(l, ds);
    LabelsOfSubset(r, ds);
  }

  lemma {:induction false} ChildrenLeafLabels(lt: Tree, rt: Tree, l: Dataset, r: Dataset, depth: int, maxDepth: int, minSize: int, nCols: nat, nFeatures: nat)
    requires GrownChildren(lt, rt, l, r, depth, maxDepth, minSize, nCols, nFeatures)
    ensures forall v <- LeafLabels(lt) + LeafLabels(rt) :: v in Labels(l) || v in Labels(r)
    decreases Size(lt) + Size(rt), 0
  {
    if |l| == 0 || |r| == 0 {
      if |l| == 0 {
        assert l + r == r;
      } else {
        assert l + r == l;
      }
    } else if depth >= maxDepth {
    } else {
      if |l| > minSize {
        GrownLeafLabels(lt, l, depth + 1, maxDepth, minSize, nCols, nFeatures);
      }
      if |r| > minSize {
        GrownLeafLabels(rt, r, depth + 1, maxDepth, minSize, nCols, nFeatures);
      }
    }
  }

  /** Every split node of a grown tree tests a feature column, never the label. */
  lemma {:induction false} GrownSplitsOnFeatures(t: Tree, ds: Dataset, depth: int, maxDepth: int, minSize: int, nCols: nat, nFeatures: nat)
    requires Grown(t, ds, depth, maxDepth, minSize, nCols, nFeatures)
    ensures forall i <- SplitIndices(t) :: SplitColumn(i, nCols)
    decreases Size(t), 1
  {
    ChildrenSplitOnFeatures(t.left, t.right, Below(t.index, t.threshold, ds), AtOrAbove(t.index, t.threshold, ds),
                            depth, maxDepth, minSize, nCols, nFeatures);
  }

  lemma {:induction false} ChildrenSplitOnFeatures(lt: Tree, rt: Tree, l: Dataset, r: Dataset, depth: int, maxDepth: int, minSize: int, nCols: nat, nFeatures: nat)
    requires GrownChildren(lt, rt, l, r, depth, maxDepth, minSize, nCols, nFeatures)
    ensures forall i <- SplitIndices(lt) + SplitIndices(rt) :: SplitColumn(i, nCols)
    decreases Size(lt) + Size(rt), 0
  {
    if |l| == 0 || |r| == 0 || depth >= maxDepth {
    } else {
      if |l| > minSize {
        GrownSplitsOnFeatures(lt, l, depth + 1, maxDepth, minSize, nCols, nFeatures);
      }
      if |r| > minSize {
        GrownSplitsOnFeatures(rt, r, depth + 1, maxDepth, minSize, nCols, nFeatures);
      }
    }
  }

  /** A tree grown from rows that all carry the label `v` predicts `v` for every row. */
  lemma UnanimousTreePredicts(t: Tree, ds: Dataset, v: real, depth: int, maxDepth: int, minSize: int, nCols: nat, nFeatures: nat, row: seq<real>)
    requires Grown(t, ds, depth, maxDepth, minSize, nCols, nFeatures) && AllLabelled(ds, v)
    ensures LeafLabels(t) == {v}
    ensures TreePredict(t, row) == v
  {
    GrownLeafLabels(t, ds, depth, maxDepth, minSize, nCols, nFeatures);
    forall w | w in Labels(ds)
      ensures w == v
    {
      var i :| 0 <= i < |ds| && Labels(ds)[i] == w;
      assert ds[i] in ds;
    }
    forall w | w in LeafLabels(t)
      ensures w in {v}
    {
      assert w in Labels(ds);
    }
    assert TreePredict(t, row) in LeafLabels(t);
  }
}
