/**
 * The bagged ensembles: a classifier that takes the plurality vote of its
 * trees and a regressor that averages them. `fit` grows every tree from its
 * own bootstrap sample of the labelled training rows.
 */
module Forest {
  import opened Prelude
  import opened Random
  import opened DecisionTree
  import opened Sampling

  /** `Math.floor(Math.sqrt(n))`. */
  function ISqrt(n: nat): (r: nat)
    ensures r * r <= n < (r + 1) * (r + 1)
  {
    if n == 0 then 0
    else
      var r := ISqrt(n - 1);
      if (r + 1) * (r + 1) <= n then r + 1
      else r
  }

  /** A positive count has a positive integer square root. */
  lemma ISqrtPositive(n: nat)
    requires n > 0
    ensures 0 < ISqrt(n) <= n
  {
  }

  /** The training rows with each row's target appended as its last column. */
  function Labelled(X: seq<seq<real>>, y: seq<real>): (ds: Dataset)
    requires |X| <= |y|
    ensures |ds| == |X|
    ensures forall i :: 0 <= i < |X| ==> Label(ds[i]) == y[i] && |ds[i]| == |X[i]| + 1 && ds[i][..|X[i]|] == X[i]
  {
    seq(|X|, i requires 0 <= i < |X| => X[i] + [y[i]])
  }

  /** `s` is a bootstrap sample of `ds`: the drawn number of rows, each a row of `ds`. */
  predicate IsBootstrap(s: Dataset, ds: Dataset, sampleSize: real) {
    |s| == JsSampleSize(|ds|, sampleSize) && forall row <- s :: row in ds
  }

  /** Labelling rows of one width gives rows one column wider. */
  lemma LabelledWidth(X: seq<seq<real>>, y: seq<real>)
    requires |X| <= |y| && |X| > 0 && forall x <- X :: |x| == |X[0]|
    ensures HasWidth(Labelled(X, y), |X[0]| + 1)
  {
    var ds := Labelled(X, y);
    forall row | row in ds
      ensures |row| == |X[0]| + 1
    {
      var i :| 0 <= i < |ds| && ds[i] == row;
      assert X[i] in X;
    }
  }

  /** The trees were grown from bootstrap samples of `data`, which is rows `nCols` wide plus the label. */
  ghost predicate GrownForest(trees: seq<Tree>, samples: seq<Dataset>, data: Dataset, sampleSize: real,
                              maxDepth: int, minSize: int, nCols: nat, nFeatures: nat)
  {
    && |samples| == |trees|
    && forall k {:trigger Grown(trees[k], samples[k], 1, maxDepth, minSize, nCols, nFeatures)}
               {:trigger IsBootstrap(samples[k], data, sampleSize)} :: 0 <= k < |trees| ==>
         && IsBootstrap(samples[k], data, sampleSize)
         && Grown(trees[k], samples[k], 1, maxDepth, minSize, nCols, nFeatures)
  }

  lemma GrownForestExtend(trees: seq<Tree>, samples: seq<Dataset>, data: Dataset, sampleSize: real,
                          maxDepth: int, minSize: int, nCols: nat, nFeatures: nat, t: Tree, s: Dataset)
    requires 0 < |s| && |s[0]| - 1 == nCols
    ensures GrownForest(trees, samples, data, sampleSize, maxDepth, minSize, nCols, nFeatures) &&
            IsBootstrap(s, data, sampleSize) && Grown(t, s, 1, maxDepth, minSize, |s[0]| - 1, nFeatures) ==>
              GrownForest(trees + [t], samples + [s], data, sampleSize, maxDepth, minSize, nCols, nFeatures)
  {
  }

  /** One round of `fit`: draws a bootstrap sample `s` and grows a tree from it. */
  method GrowSampleTree(ds: Dataset, maxDepth: int, minSize: int, sampleSize: real, nFeatures: nat, draws: seq<Unit>)
    returns (r: Drawn<Tree>, ghost s: Dataset)
    requires |ds| > 0 && HasWidth(ds, |ds[0]|) && 0 < nFeatures && JsSampleSize(|ds|, sampleSize) > 0
    ensures r.Drawn? ==> 0 < |s| && |s[0]| == |ds[0]| && IsBootstrap(s, ds, sampleSize)
    ensures r.Drawn? ==> Grown(r.value, s, 1, maxDepth, minSize, |s[0]| - 1, nFeatures)
  {
    var sample := Subsample(ds, JsSampleSize(|ds|, sampleSize), draws);
    if sample.Exhausted? {
      return Exhausted, [];
    }
    var rows := sample.value;
    SubsetWidth(rows, ds, |ds[0]|);
    assert |rows[0]| == |ds[0]| by {
      assert rows[0] in rows;
    }
    r := BuildTree(rows, maxDepth, minSize, nFeatures, sample.rest);
    s := rows;
  }

  /**
   * The loop of `fit`: `nTrees` times, draws a bootstrap sample and grows a
   * tree from it. `samples` records the sample of each tree.
   */
  method GrowForest(ds: Dataset, nTrees: nat, maxDepth: int, minSize: int, sampleSize: real, nFeatures: nat, draws: seq<Unit>)
    returns (r: Drawn<seq<Tree>>, ghost samples: seq<Dataset>)
    requires |ds| > 0 && HasWidth(ds, |ds[0]|) && 0 < nFeatures && JsSampleSize(|ds|, sampleSize) > 0
    ensures r.Drawn? ==>
      |r.value| == nTrees && GrownForest(r.value, samples, ds, sampleSize, maxDepth, minSize, |ds[0]| - 1, nFeatures)
  {
    var trees: seq<Tree> := [];
    samples := [];
    var rest := draws;
    for i := 0 to nTrees
      invariant |trees| == i
      invariant GrownForest(trees, samples, ds, sampleSize, maxDepth, minSize, |ds[0]| - 1, nFeatures)
    {
      var tree, s := GrowSampleTree(ds, maxDepth, minSize, sampleSize, nFeatures, rest);
      if tree.Exhausted? {
        return Exhausted, samples;
      }
      GrownForestExtend(trees, samples, ds, sampleSize, maxDepth, minSize, |ds[0]| - 1, nFeatures, tree.value, s);
      trees, samples, rest := trees + [tree.value], samples + [s], tree.rest;
    }
    return Drawn(trees, rest), samples;
  }

  /** Each tree's prediction for `x`, tree by tree. */
  function Votes(trees: seq<Tree>, x: seq<real>): (vs: seq<real>)
    ensures |vs| == |trees| && forall k :: 0 <= k < |trees| ==> vs[k] == TreePredict(trees[k], x)
  {
    seq(|trees|, k requires 0 <= k < |trees| => TreePredict(trees[k], x))
  }

  /** `baggingPredict`: the most frequent tree prediction, the earliest tree's on ties. */
  function BaggingPredict(trees: seq<Tree>, x: seq<real>): (v: real)
    requires |trees| > 0
    ensures IsFirstMostCommon(Votes(trees, x), v)
  {
    Mode(Votes(trees, x))
  }

  /** Python's `bagging_predict`: a most frequent prediction, the first in the vote set's iteration order. */
  function PyBaggingPredict(trees: seq<Tree>, x: seq<real>, order: seq<real>): (v: real)
    requires |trees| > 0 && IsArrangementOf(order, Votes(trees, x))
    ensures IsMostCommon(Votes(trees, x), v)
  {
    MaxByCount(Votes(trees, x), order)
  }

  function Sum(xs: seq<real>): real {
    if xs == [] then 0.0 else Sum(xs[..|xs| - 1]) + xs[|xs| - 1]
  }

  /** The arithmetic mean, what `reduce((a, b) => a + b, 0) / length` computes. */
  function Mean(xs: seq<real>): real
    requires |xs| > 0
  {
    Sum(xs) / |xs| as real
  }

  lemma {:induction false} SumWithin(xs: seq<real>, lo: real, hi: real)
    requires forall k :: 0 <= k < |xs| ==> lo <= xs[k] <= hi
    ensures |xs| as real * lo <= Sum(xs) <= |xs| as real * hi
  {
    if xs != [] {
      SumWithin(xs[..|xs| - 1], lo, hi);
    }
  }

  /** The mean of values in [lo, hi] lies in [lo, hi]; the mean of copies of `v` is `v`. */
  lemma MeanWithin(xs: seq<real>, lo: real, hi: real)
    requires |xs| > 0 && forall k :: 0 <= k < |xs| ==> lo <= xs[k] <= hi
    ensures lo <= Mean(xs) <= hi
    ensures lo == hi ==> Mean(xs) == lo
  {
    SumWithin(xs, lo, hi);
    var n := |xs| as real;
    assert Sum(xs) / n <= hi by { DivideBound(Sum(xs), n, hi); }
    assert lo <= Sum(xs) / n by { DivideBoundBelow(Sum(xs), n, lo); }
  }

  lemma DivideBound(s: real, n: real, hi: real)
    requires n > 0.0 && s <= n * hi
    ensures s / n <= hi
  {
  }

  lemma DivideBoundBelow(s: real, n: real, lo: real)
    requires n > 0.0 && n * lo <= s
    ensures lo <= s / n
  {
  }

  /** Every vote of a grown forest is a label of its training rows. */
  lemma VotesAreTrainingLabels(trees: seq<Tree>, samples: seq<Dataset>, data: Dataset, sampleSize: real,
                               maxDepth: int, minSize: int, nCols: nat, nFeatures: nat, x: seq<real>)
    requires GrownForest(trees, samples, data, sampleSize, maxDepth, minSize, nCols, nFeatures)
    ensures forall k :: 0 <= k < |trees| ==> Votes(trees, x)[k] in Labels(data)
  {
    forall k | 0 <= k < |trees|
      ensures Votes(trees, x)[k] in Labels(data)
    {
      GrownLeafLabels(trees[k], samples[k], 1, maxDepth, minSize, nCols, nFeatures);
      LabelsOfSubset(samples[k], data);
    }
  }

  /** Targets of `data` all lie in [lo, hi]. */
  predicate LabelsWithin(data: Dataset, lo: real, hi: real) {
    forall row <- data :: lo <= Label(row) <= hi
  }

  lemma VotesWithin(trees: seq<Tree>, samples: seq<Dataset>, data: Dataset, sampleSize: real,
                    maxDepth: int, minSize: int, nCols: nat, nFeatures: nat, x: seq<real>, lo: real, hi: real)
    requires GrownForest(trees, samples, data, sampleSize, maxDepth, minSize, nCols, nFeatures) && LabelsWithin(data, lo, hi)
    ensures forall k :: 0 <= k < |trees| ==> lo <= Votes(trees, x)[k] <= hi
  {
    VotesAreTrainingLabels(trees, samples, data, sampleSize, maxDepth, minSize, nCols, nFeatures, x);
    forall k | 0 <= k < |trees|
      ensures lo <= Votes(trees, x)[k] <= hi
    {
      var v := Votes(trees, x)[k];
      var i :| 0 <= i < |data| && Labels(data)[i] == v;
      assert data[i] in data;
    }
  }

  class RandomForestClassifier {
    var trees: seq<Tree>
    var nFeatures: nat
    const nTrees: nat
    const maxDepth: int
    const minSize: int
    const sampleSize: real
    /** The labelled training rows of the last `fit`, and the bootstrap sample of each tree. */
    ghost var data: Dataset
    ghost var samples: seq<Dataset>
    ghost var nCols: nat

    ghost predicate Fitted()
      reads this
    {
      GrownForest(trees, samples, data, sampleSize, maxDepth, minSize, nCols, nFeatures)
    }

    constructor(nTrees: nat := 15, maxDepth: int := 10, minSize: int := 2, sampleSize: real := 1.0)
      ensures this.nTrees == nTrees && this.maxDepth == maxDepth && this.minSize == minSize && this.sampleSize == sampleSize
      ensures trees == [] && nFeatures == 0
    {
      this.nTrees, this.maxDepth, this.minSize, this.sampleSize := nTrees, maxDepth, minSize, sampleSize;
      trees, nFeatures := [], 0;
      data, samples, nCols := [], [], 0;
    }

    /**
     * Labels the rows, sets `nFeatures` to the integer square root of the
     * feature count and grows `nTrees` trees. `None` means the draws ran out.
     */
    method Fit(X: seq<seq<real>>, y: seq<real>, draws: seq<Unit>) returns (rest: Option<seq<Unit>>)
      requires 0 < |X| <= |y| && 0 < |X[0]| && forall x <- X :: |x| == |X[0]|
      requires JsSampleSize(|X|, sampleSize) > 0
      modifies this
      ensures nFeatures == ISqrt(|X[0]|) && data == Labelled(X, y) && nCols == |X[0]|
      ensures rest.Some? ==> |trees| == nTrees && Fitted()
      ensures rest.None? ==> trees == []
    {
      var dataset := Labelled(X, y);
      LabelledWidth(X, y);
      nFeatures := ISqrt(|X[0]|);
      ISqrtPositive(|X[0]|);
      data, nCols := dataset, |X[0]|;
      var r;
      r, samples := GrowForest(dataset, nTrees, maxDepth, minSize, sampleSize, nFeatures, draws);
      if r.Exhausted? {
        trees := [];
        return None;
      }
      trees := r.value;
      return Some(r.rest);
    }

    /** The plurality vote of the trees. */
    function PredictOne(x: seq<real>): (v: real)
      reads this
      requires |trees| > 0
      ensures IsFirstMostCommon(Votes(trees, x), v)
    {
      BaggingPredict(trees, x)
    }

    function Predict(X: seq<seq<real>>): (r: seq<real>)
      reads this
      requires |trees| > 0
      ensures |r| == |X| && forall i :: 0 <= i < |X| ==> r[i] == PredictOne(X[i])
    {
      var ts := trees;
      seq(|X|, i requires 0 <= i < |X| => BaggingPredict(ts, X[i]))
    }

    /** A fitted classifier only ever predicts a class that occurs in its training targets. */
    lemma PredictsTrainingClass(x: seq<real>)
      requires Fitted() && |trees| > 0
      ensures PredictOne(x) in Labels(data)
    {
      VotesAreTrainingLabels(trees, samples, data, sampleSize, maxDepth, minSize, nCols, nFeatures, x);
    }

    /** When every training target is `v`, the classifier predicts `v`. */
    lemma UnanimousTraining(x: seq<real>, v: real)
      requires Fitted() && |trees| > 0 && AllLabelled(data, v)
      ensures PredictOne(x) == v
    {
      VotesWithin(trees, samples, data, sampleSize, maxDepth, minSize, nCols, nFeatures, x, v, v);
      ModeOfConstant(Votes(trees, x), v);
    }
  }

  class RandomForestRegressor {
    var trees: seq<Tree>
    var nFeatures: nat
    const nTrees: nat
    const maxDepth: int
    const minSize: int
    const sampleSize: real
    ghost var data: Dataset
    ghost var samples: seq<Dataset>
    ghost var nCols: nat

    ghost predicate Fitted()
      reads this
    {
      GrownForest(trees, samples, data, sampleSize, maxDepth, minSize, nCols, nFeatures)
    }

    constructor(nTrees: nat := 15, maxDepth: int := 10, minSize: int := 2, sampleSize: real := 1.0)
      ensures this.nTrees == nTrees && this.maxDepth == maxDepth && this.minSize == minSize && this.sampleSize == sampleSize
      ensures trees == [] && nFeatures == 0
    {
      this.nTrees, this.maxDepth, this.minSize, this.sampleSize := nTrees, maxDepth, minSize, sampleSize;
      trees, nFeatures := [], 0;
      data, samples, nCols := [], [], 0;
    }

    method Fit(X: seq<seq<real>>, y: seq<real>, draws: seq<Unit>) returns (rest: Option<seq<Unit>>)
      requires 0 < |X| <= |y| && 0 < |X[0]| && forall x <- X :: |x| == |X[0]|
      requires JsSampleSize(|X|, sampleSize) > 0
      modifies this
      ensures nFeatures == ISqrt(|X[0]|) && data == Labelled(X, y) && nCols == |X[0]|
      ensures rest.Some? ==> |trees| == nTrees && Fitted()
      ensures rest.None? ==> trees == []
    {
      var dataset := Labelled(X, y);
      LabelledWidth(X, y);
      nFeatures := ISqrt(|X[0]|);
      ISqrtPositive(|X[0]|);
      data, nCols := dataset, |X[0]|;
      var r;
      r, samples := GrowForest(dataset, nTrees, maxDepth, minSize, sampleSize, nFeatures, draws);
      if r.Exhausted? {
        trees := [];
        return None;
      }
      trees := r.value;
      return Some(r.rest);
    }

    /** The mean of the trees' predictions. */
    function PredictOne(x: seq<real>): (v: real)
      reads this
      requires |trees| > 0
      ensures |trees| as real * v == Sum(Votes(trees, x))
    {
      Mean(Votes(trees, x))
    }

    function Predict(X: seq<seq<real>>): (r: seq<real>)
      reads this
      requires |trees| > 0
      ensures |r| == |X| && forall i :: 0 <= i < |X| ==> r[i] == PredictOne(X[i])
    {
      var ts := trees;
      seq(|X|, i requires 0 <= i < |X| => Mean(Votes(ts, X[i])))
    }

    /**
     * A fitted regressor predicts within the range of its training targets;
     * when they are all `v`, it predicts `v`.
     */
    lemma PredictsWithinTrainingRange(x: seq<real>, lo: real, hi: real)
      requires Fitted() && |trees| > 0 && LabelsWithin(data, lo, hi)
      ensures lo <= PredictOne(x) <= hi
      ensures lo == hi ==> PredictOne(x) == lo
    {
      VotesWithin(trees, samples, data, sampleSize, maxDepth, minSize, nCols, nFeatures, x, lo, hi);
      MeanWithin(Votes(trees, x), lo, hi);
    }
  }
}
