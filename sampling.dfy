/**
 * Drawing rows: the bootstrap sample each tree is grown from, the seeded
 * shuffle behind the train/test split, the split itself in its TypeScript
 * and Python forms, and the Python accuracy score.
 */
module Sampling {
  import opened Prelude
  import opened Random

  // ----- Rounding -----

  /** `Math.round`: the nearest integer, halves rounded up. */
  function JsRound(x: real): (r: int)
    ensures r as real - 0.5 <= x < r as real + 0.5
  {
    (x + 0.5).Floor
  }

  /** Python's `round` on a float: the nearest integer, halves rounded to the even neighbour. */
  function PyRound(x: real): (r: int)
    ensures r as real - 0.5 <= x <= r as real + 0.5
    ensures x - x.Floor as real == 0.5 ==> r % 2 == 0
  {
    var f := x.Floor;
    var d := x - f as real;
    if d < 0.5 then f
    else if d > 0.5 then f + 1
    else if f % 2 == 0 then f
    else f + 1
  }

  /** The two roundings differ only on exact halves. */
  lemma RoundingsAgreeOffHalves(x: real)
    requires x - x.Floor as real != 0.5
    ensures JsRound(x) == PyRound(x)
  {
  }

  /** An exact half rounds up in TypeScript and to even in Python: 2.5 gives 3 and 2. */
  lemma RoundingsDifferOnHalves()
    ensures JsRound(2.5) == 3 && PyRound(2.5) == 2
  {
    assert (2.5).Floor == 2;
    assert (3.0).Floor == 3;
  }

  /** `Math.floor`. */
  function JsFloor(x: real): (r: int)
    ensures r as real <= x < r as real + 1.0
  {
    x.Floor
  }

  /** Python's `int()` on a float: truncation toward zero. */
  function PyInt(x: real): (r: int)
    ensures 0.0 <= x ==> r == x.Floor
    ensures x < 0.0 ==> x <= r as real < x + 1.0 && r <= 0
  {
    if x >= 0.0 then x.Floor else -((-x).Floor)
  }

  // ----- Bootstrap sample -----

  /** How many rows the TypeScript `subsample` draws: `Math.round(n * ratio)`. */
  function JsSampleSize(n: nat, ratio: real): int {
    JsRound(n as real * ratio)
  }

  /** How many rows the Python `subsample` draws: `round(len(dataset) * ratio)`. */
  function PySampleSize(n: nat, ratio: real): int {
    PyRound(n as real * ratio)
  }

  /** A sample size is never positive for an empty dataset. */
  lemma EmptySampleSize(ratio: real)
    ensures JsSampleSize(0, ratio) == 0 && PySampleSize(0, ratio) == 0
  {
  }

  /**
   * Draws rows with replacement until there are `size` of them (none when
   * `size` is not positive), each at an index `randrange(|ds|)` picks.
   */
  method Subsample<T>(ds: seq<T>, size: int, draws: seq<Unit>) returns (r: Drawn<seq<T>>)
    requires size > 0 ==> |ds| > 0
    ensures r.Drawn? <==> size <= |draws|
    ensures r.Drawn? ==>
      && |r.value| == (if size < 0 then 0 else size)
      && r.rest == draws[|r.value|..]
      && (forall k :: 0 <= k < |r.value| ==> r.value[k] == ds[RandRange(draws[k], |ds|)])
      && (forall x <- r.value :: x in ds)
  {
    var sample: seq<T> := [];
    var rest := draws;
    while |sample| < size
      invariant |sample| <= |draws| - |rest|
      invariant size <= 0 ==> sample == []
      invariant size > 0 ==> |sample| <= size
      invariant rest == draws[|sample|..]
      invariant forall k :: 0 <= k < |sample| ==> sample[k] == ds[RandRange(draws[k], |ds|)]
      decreases size - |sample|
    {
      if rest == [] {
        return Exhausted;
      }
      sample := sample + [ds[RandRange(rest[0], |ds|)]];
      rest := rest[1..];
    }
    forall x | x in sample
      ensures x in ds
    {
      var k :| 0 <= k < |sample| && sample[k] == x;
    }
    return Drawn(sample, rest);
  }

  // ----- Seeded shuffle -----

  /**
   * The JavaScript `s >> 17` on a state held as an unsigned 32-bit value: the
   * operand is read as a signed 32-bit integer, so the shift copies the sign
   * bit into the 17 vacated positions.
   */
  function ShiftRightSigned17(x: bv32): (r: bv32)
    ensures x & 0x8000_0000 == 0 ==> r == x >> 17
    ensures x & 0x8000_0000 != 0 ==> r & 0xFFFF_8000 == 0xFFFF_8000
  {
    if x & 0x8000_0000 == 0 then x >> 17 else (x >> 17) | 0xFFFF_8000
  }

  /** One step of the shuffle's generator: three xor-shifts, each result taken back to 32 unsigned bits. */
  function NextState(s: bv32): bv32 {
    var a := s ^ (s << 13);
    var b := a ^ ShiftRightSigned17(a);
    b ^ (b << 5)
  }

  /** A zero state stays zero. */
  lemma ZeroStateIsFixed()
    ensures NextState(0) == 0
  {
    assert ShiftRightSigned17(0) == 0;
  }

  /** `s` with the elements at `i` and `j` exchanged. */
  function Swap<T>(s: seq<T>, i: nat, j: nat): (r: seq<T>)
    requires i < |s| && j < |s|
    ensures |r| == |s| && r[i] == s[j] && r[j] == s[i]
    ensures forall k :: 0 <= k < |s| && k != i && k != j ==> r[k] == s[k]
  {
    s[i := s[j]][j := s[i]]
  }

  lemma SwapPermutes<T>(s: seq<T>, i: nat, j: nat)
    requires i < |s| && j < |s|
    ensures multiset(Swap(s, i, j)) == multiset(s)
  {
  }

  /**
   * The shuffle from position `i` down to 1 with generator state `state`:
   * each step advances the state and swaps position `i` with position
   * `state % (i + 1)`.
   */
  function ShuffleFrom<T>(s: seq<T>, state: bv32, i: nat): seq<T>
    requires i < |s|
    decreases i
  {
    if i == 0 then s
    else
      var next := NextState(state);
      ShuffleFrom(Swap(s, i, next as int % (i + 1)), next, i - 1)
  }

  /** What `seededShuffle(s, seed)` returns. */
  function Shuffled<T>(s: seq<T>, seed: bv32): seq<T> {
    if |s| == 0 then s else ShuffleFrom(s, seed, |s| - 1)
  }

  lemma {:induction false} ShuffleFromPermutes<T>(s: seq<T>, state: bv32, i: nat)
    requires i < |s|
    ensures |ShuffleFrom(s, state, i)| == |s|
    ensures multiset(ShuffleFrom(s, state, i)) == multiset(s)
    decreases i
  {
    if i > 0 {
      var next := NextState(state);
      SwapPermutes(s, i, next as int % (i + 1));
      ShuffleFromPermutes(Swap(s, i, next as int % (i + 1)), next, i - 1);
    }
  }

  /** The shuffle rearranges its input: same length, same elements with the same multiplicities. */
  lemma ShuffledPermutes<T>(s: seq<T>, seed: bv32)
    ensures |Shuffled(s, seed)| == |s|
    ensures multiset(Shuffled(s, seed)) == multiset(s)
  {
    if |s| > 0 {
      ShuffleFromPermutes(s, seed, |s| - 1);
    }
  }

  lemma {:induction false} ShuffleFromZero<T>(s: seq<T>, i: nat)
    requires i < |s|
    ensures ShuffleFrom(s, 0, i) == s[1..i + 1] + [s[0]] + s[i + 1..]
    decreases i
  {
    ZeroStateIsFixed();
    if i > 0 {
      var t := Swap(s, i, 0);
      ShuffleFromZero(t, i - 1);
      assert t[1..i] + [t[0]] == s[1..i + 1];
      assert t[i] == s[0];
      assert t[i + 1..] == s[i + 1..];
      assert t[i..] == [s[0]] + s[i + 1..];
      assert t[1..i] + [t[0]] + t[i..] == s[1..i + 1] + [s[0]] + s[i + 1..];
    }
  }

  /**
   * With seed 0, the default, the state never moves, every step swaps with
   * position 0, and the shuffle is a rotation left by one place.
   */
  lemma ShuffledWithSeedZero<T>(s: seq<T>)
    requires |s| > 0
    ensures Shuffled(s, 0) == s[1..] + [s[0]]
  {
    ShuffleFromZero(s, |s| - 1);
    assert s[|s|..] == [];
  }

  /** Copies `arr` and shuffles the copy in place from the last position down. */
  method SeededShuffle<T>(arr: seq<T>, seed: bv32) returns (r: seq<T>)
    ensures r == Shuffled(arr, seed)
  {
    if |arr| == 0 {
      return [];
    }
    var a := new T[|arr|](k requires 0 <= k < |arr| => arr[k]);
    assert a[..] == arr;
    var s := seed;
    var i := a.Length - 1;
    while i > 0
      invariant 0 <= i < a.Length
      invariant ShuffleFrom(a[..], s, i) == Shuffled(arr, seed)
      decreases i
    {
      s := NextState(s);
      var j := s as int % (i + 1);
      ghost var before := a[..];
      a[i], a[j] := a[j], a[i];
      assert a[..] == Swap(before, i, j);
      i := i - 1;
    }
    return a[..];
  }

  // ----- Train/test split -----

  /** The rows and targets on each side of a split. */
  datatype Partition<R> = Partition(xTrain: seq<R>, xTest: seq<R>, yTrain: seq<real>, yTest: seq<real>)

  /** `xs[i]` for each index `i` of `idx`, in order. */
  function Gather<T>(xs: seq<T>, idx: seq<nat>): (r: seq<T>)
    requires forall k :: 0 <= k < |idx| ==> idx[k] < |xs|
    ensures |r| == |idx| && forall k :: 0 <= k < |idx| ==> r[k] == xs[idx[k]]
  {
    seq(|idx|, k requires 0 <= k < |idx| => xs[idx[k]])
  }

  /**
   * Where `slice(0, k)` ends and `slice(k)` starts on a sequence of length
   * `n`, in both languages: a negative `k` counts from the end, and the
   * result is clamped to 0 .. n.
   */
  function SliceIndex(k: int, n: nat): (c: nat)
    ensures c <= n
    ensures 0 <= k <= n ==> c == k
  {
    if k < 0 then (if n + k < 0 then 0 else n + k) else if k > n then n else k
  }

  /** The first `cut` shuffled indices are the test rows, the rest the training rows. */
  function PartitionBy<R>(X: seq<R>, y: seq<real>, indices: seq<nat>, cut: nat): Partition<R>
    requires cut <= |indices| && |X| <= |y| && forall k :: 0 <= k < |indices| ==> indices[k] < |X|
  {
    Partition(Gather(X, indices[cut..]), Gather(X, indices[..cut]), Gather(y, indices[cut..]), Gather(y, indices[..cut]))
  }

  /** `indices` lists each of 0 .. n - 1 once (the bounds follow from the rest; they are spelt out for indexing). */
  predicate IsPermutationOfRange(indices: seq<nat>, n: nat) {
    |indices| == n && (forall k :: 0 <= k < n ==> indices[k] < n) && multiset(indices) == multiset(Range(n))
  }

  lemma PermutationBounds(indices: seq<nat>, n: nat)
    requires IsPermutationOfRange(indices, n)
    ensures forall i :: 0 <= i < n ==> i in indices
    ensures NoDuplicates(indices)
  {
    forall i | 0 <= i < n
      ensures i in indices
    {
      assert Range(n)[i] == i;
      assert i in multiset(indices);
    }
    forall p, q | 0 <= p < q < |indices|
      ensures indices[p] != indices[q]
    {
      if indices[p] == indices[q] {
        var x := indices[p];
        assert indices == indices[..p] + [x] + indices[p + 1..q] + [x] + indices[q + 1..];
        assert multiset(indices)[x] >= 2;
        RangeOnce(n, x);
      }
    }
  }

  lemma {:induction false} RangeOnce(n: nat, x: nat)
    ensures multiset(Range(n))[x] <= 1
  {
    if n > 0 {
      RangeOnce(n - 1, x);
      assert Range(n) == Range(n - 1) + [n - 1];
      if x == n - 1 {
        assert x !in Range(n - 1);
      }
    }
  }

  /**
   * A split by a permutation of the row indices: the test side has `cut`
   * rows and the training side the rest; every row index is used on exactly
   * one side; and each row keeps its own target.
   */
  lemma PartitionFacts<R>(X: seq<R>, y: seq<real>, indices: seq<nat>, cut: nat)
    requires IsPermutationOfRange(indices, |X|) && |X| <= |y| && cut <= |X|
    ensures
      var p := PartitionBy(X, y, indices, cut);
      && |p.xTest| == |p.yTest| == cut
      && |p.xTrain| == |p.yTrain| == |X| - cut
      && (forall i :: 0 <= i < |X| ==> (i in indices[..cut] <==> i !in indices[cut..]))
      && (forall k :: 0 <= k < cut ==> p.xTest[k] == X[indices[k]] && p.yTest[k] == y[indices[k]])
      && (forall k :: 0 <= k < |X| - cut ==> p.xTrain[k] == X[indices[cut + k]] && p.yTrain[k] == y[indices[cut + k]])
  {
    PermutationBounds(indices, |X|);
    forall i | 0 <= i < |X|
      ensures i in indices[..cut] <==> i !in indices[cut..]
    {
      assert indices == indices[..cut] + indices[cut..];
      assert i in indices;
    }
  }

  /** `trainTestSplit`: shuffles the row indices with the seed and cuts off `floor(n * testRatio)` test rows. */
  method TrainTestSplit<R>(X: seq<R>, y: seq<real>, testRatio: real := 0.2, randomState: bv32 := 0) returns (p: Partition<R>)
    requires |X| <= |y|
    ensures var indices := Shuffled(Range(|X|), randomState);
      IsPermutationOfRange(indices, |X|) &&
      p == PartitionBy(X, y, indices, SliceIndex(JsFloor(|X| as real * testRatio), |X|))
  {
    var indices := SeededShuffle(Range(|X|), randomState);
    ShuffledRange(|X|, randomState);
    var cut := SliceIndex(JsFloor(|X| as real * testRatio), |X|);
    p := PartitionBy(X, y, indices, cut);
  }

  /** Shuffling 0 .. n - 1 gives a permutation of it. */
  lemma ShuffledRange(n: nat, seed: bv32)
    ensures IsPermutationOfRange(Shuffled(Range(n), seed), n)
  {
    var indices := Shuffled(Range(n), seed);
    ShuffledPermutes(Range(n), seed);
    forall k | 0 <= k < n
      ensures indices[k] < n
    {
      assert indices[k] in multiset(Range(n));
    }
  }

  /**
   * With the default seed the shuffled indices are 1, 2, ..., n - 1, 0: the
   * test rows are rows 1 .. cut and row 0 trains last.
   */
  lemma DefaultSplitIndices(n: nat)
    requires n > 0
    ensures Shuffled(Range(n), 0) == Range(n)[1..] + [0]
  {
    ShuffledWithSeedZero(Range(n));
  }

  /** `train_test_split` with `shuffle`'s permutation of the indices given: `int(n * test_ratio)` test rows. */
  function PyTrainTestSplit<R>(X: seq<R>, y: seq<real>, testRatio: real, shuffled: seq<nat>): (p: Partition<R>)
    requires |X| <= |y| && IsPermutationOfRange(shuffled, |X|)
    ensures |p.xTest| + |p.xTrain| == |X| && |p.yTest| == |p.xTest| && |p.yTrain| == |p.xTrain|
    ensures 0.0 <= testRatio <= 1.0 ==> |p.xTest| == TestCount(|X|, testRatio)
  {
    PartitionBy(X, y, shuffled, SliceIndex(TestCount(|X|, testRatio), |X|))
  }

  /** `int(n * test_ratio)`: for a ratio in [0, 1] a count between 0 and n. */
  function TestCount(n: nat, ratio: real): (k: int)
    ensures 0.0 <= ratio <= 1.0 ==> 0 <= k <= n
    ensures 0.0 <= ratio ==> k as real <= n as real * ratio < k as real + 1.0
  {
    var x := n as real * ratio;
    ShareOfCount(n, ratio);
    FloorBounds(x);
    PyInt(x)
  }

  /** The floor of a non-negative real is the integer just at or below it. */
  lemma FloorBounds(x: real)
    ensures 0.0 <= x ==> PyInt(x) as real <= x < PyInt(x) as real + 1.0
  {
    if 0.0 <= x {
      var r := x.Floor;
      assert r as real <= x < r as real + 1.0;
    }
  }

  lemma ShareOfCount(n: nat, ratio: real)
    ensures 0.0 <= ratio ==> 0.0 <= n as real * ratio
    ensures 0.0 <= ratio <= 1.0 ==> n as real * ratio <= n as real
  {
    if 0.0 <= ratio {
      assert 0.0 * ratio <= n as real * ratio;
    }
    if 0.0 <= ratio <= 1.0 {
      assert n as real * ratio <= n as real * 1.0;
    }
  }

  // ----- Accuracy -----

  /** Positions below both lengths where the two sequences agree (what `zip` pairs up). */
  function Matches(a: seq<real>, b: seq<real>): (n: nat)
    ensures n <= |a| && n <= |b|
    ensures n == |a| <==> |a| <= |b| && forall k :: 0 <= k < |a| ==> a[k] == b[k]
  {
    if |a| == 0 || |b| == 0 then 0
    else (if a[0] == b[0] then 1 else 0) + Matches(a[1..], b[1..])
  }

  /** `accuracy`: the share of true labels predicted exactly, 0.0 for no labels. */
  function Accuracy(yTrue: seq<real>, yPred: seq<real>): (r: real)
    ensures 0.0 <= r <= 1.0
    ensures |yTrue| == 0 ==> r == 0.0
    ensures r == 1.0 <==> |yTrue| > 0 && |yTrue| <= |yPred| && forall k :: 0 <= k < |yTrue| ==> yTrue[k] == yPred[k]
  {
    if |yTrue| == 0 then 0.0
    else
      var m := Matches(yTrue, yPred);
      assert m as real / |yTrue| as real <= 1.0 by { DivAtMostOne(m, |yTrue|); }
      m as real / |yTrue| as real
  }

  lemma DivAtMostOne(m: nat, n: nat)
    requires 0 < n && m <= n
    ensures m as real / n as real <= 1.0
    ensures m as real / n as real == 1.0 <==> m == n
  {
  }
}
