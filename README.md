# Finance forecasting engine of My-Doryoku-Log, in Dafny

My-Doryoku-Log is a personal log of time and money. Its finance side
forecasts the next expense or income from the stored transactions. It does
this with a random forest written from scratch, once in TypeScript and once
in Python. This project models that engine and the forecasting pipeline
around it, together with the small formatting and validation helpers of the
web client.

The modules follow the program's files:

- `Prelude` holds `Option`/`Result`, counting, and the "most common element" notions used by both languages.
- `Categories` holds the coarse and fine category tables and their ids.
- `Random` holds the injected `Math.random` draws and `randrange`.
- `DecisionTree` covers `testSplit`, `giniIndex`, `getSplit`, `toTerminal`, `splitNode`, `buildTree` and `treePredict`.
- `Sampling` covers `subsample`, the seeded shuffle, `trainTestSplit` and `accuracy`.
- `Forest` covers bagging and the `RandomForestClassifier`/`RandomForestRegressor` classes.
- `Features` covers the calendar features and `buildDatasets` (TS) / `build_datasets` (Python).
- `Forecasting` covers the type split, the median, the main fine category, training gates and the forecast results of `forecasting.ts` and `forecasting.py`.
- `Util` covers `capitalizeFirstLetter`, `formatDuration`, `toYmd` and `formatDateLabel`.
- `Time` covers `MONTH_NAMES` and `isStartData`.

How the model stands in for what it cannot see:

- Randomness is a parameter. `Math.random` becomes a finite sequence of draws in [0, 1).
  - Every member that consumes draws returns `Drawn(value, rest)`, or `Exhausted` when the sequence runs out.
  - Python's `shuffle` and set iteration order are injected arrangements.
- A tree is the datatype `Leaf | Split`. `splitNode` builds each finished node instead of overwriting the groups stored in `left`/`right`.
  - What a grown tree is, is stated declaratively by the ghost predicates `Grown`/`GrownChildren`.
  - Each split node of a grown tree satisfies `ChosenSplit`: its column and threshold are the first best split of its rows over some draw of `nFeatures` distinct feature columns. The draw itself is left existential, because it depends on the random sequence consumed by the nodes before it.
- The clock and date parsing are parameters.
  - A transaction carries an already-parsed `Date` (year, month, day, weekday), or `None` when its text is not a date.
  - "Today" is passed in.
- Amounts and impurities are `real`.
- The fitted classifier and regressor are classes. Their `fit` resets and refills `trees` and `nFeatures`.

## Model

| member | source | states |
|---|---|---|
| Prelude.Count | src/lib/server/ml/random_forest.ts:128-134 | the number of occurrences of `x` is at most the length, and positive exactly when `x` occurs |
| Prelude.CountAppend | src/lib/server/ml/random_forest.ts:128-134 | occurrence counts add over concatenation |
| Prelude.Distinct | src/lib/server/ml/random_forest.ts:31-33 | `[...new Set(xs)]` has no duplicates and the same elements as `xs` |
| Prelude.DistinctOfNoDuplicates | src/lib/server/ml/random_forest.ts:31-33 | de-duplicating a list without duplicates returns it unchanged |
| Prelude.Mode | src/lib/server/ml/random_forest.ts:128-134 | the stable sort by descending count yields a value of maximal count that occurs before every other value of that count |
| Prelude.FirstMostCommonUnique | src/lib/server/ml/random_forest.ts:208-214 | the earliest most common value is unique, so the TS tie-break is deterministic |
| Prelude.ModeOfConstant | src/lib/server/ml/random_forest.ts:128-134 | when all inputs equal `v`, the chosen value is `v` |
| Prelude.MaxByCount | backend/finance_ml/random_forest.py:84-86 | `max(set(xs), key=xs.count)` for a given set order returns a value of maximal count, the first of that count in the set order |
| Prelude.MaxByCountWithoutTie | backend/finance_ml/random_forest.py:143-145 | without a tie, the Python and the TS choices agree on the unique most common value |
| Prelude.IndexOfBijection | backend/finance_ml/random_forest.py:31-34 | `CATEGORY_TO_ID` over a duplicate-free category list is a bijection onto the positions 0..n-1 |
| Prelude.FirstMaxIndex | src/lib/server/ml/forecasting.ts:129 | the chosen index has the largest score, and every earlier index scores strictly less |
| Random.RandRange | src/lib/server/ml/random_forest.ts:88-90 | `Math.floor(Math.random() * n)` lies below `n` when `n > 0` |
| Categories.Lookup | src/lib/server/ml/random_forest.ts:5-24 | a map lookup succeeds exactly for the map's keys and returns one of its values |
| Categories.CoarseValues | src/lib/server/ml/random_forest.ts:5-24 | the coarse values of both maps, in key order |
| Categories.CoarseCategoriesAreSortedUnion | src/lib/server/ml/random_forest.ts:26-29 | `COARSE_CATEGORIES` is strictly sorted and holds exactly the values of the two maps |
| Categories.CoarseCategoriesUnique | src/lib/server/ml/random_forest.ts:26-29 | any strictly sorted list of exactly those values is `COARSE_CATEGORIES`, so the literal table is the sorted union |
| Categories.SortedUnique | backend/finance_ml/random_forest.py:30 | two strictly sorted lists with the same elements are equal |
| Categories.LexLessStrictOrder | src/lib/server/ml/random_forest.ts:26-29 | the string order used by `.sort()`/`sorted` is irreflexive and transitive |
| Categories.CoarseToId | src/lib/server/ml/random_forest.ts:35-37 | `COARSE_TO_ID[c]` is the position of `c` in `COARSE_CATEGORIES` |
| Categories.CoarseIdRoundTrip | src/lib/server/ml/random_forest.ts:35-40 | `ID_TO_COARSE[COARSE_TO_ID[c]] == c` for every coarse category |
| Categories.CategoryToId | backend/finance_ml/random_forest.py:34 | `CATEGORY_TO_ID[c]` is the position of `c` in the category order |
| Categories.CoarseOf | src/lib/server/ml/random_forest.ts:278-282 | the coarse label of a record: the map value of its type's map, or 'Other' / 'Other Income' for a category missing from that map; always a coarse category |
| Categories.FineCategoryKeys | src/lib/server/ml/random_forest.ts:30-33 | the keys of both maps are the 15 fine categories, expense keys first |
| Categories.AllCategoriesListed | src/lib/server/ml/random_forest.ts:30-33 | the keys of both maps, de-duplicated in first-seen order, are exactly the 15 names of `ALL_CATEGORIES`, each once |
| DecisionTree.Labels | src/lib/server/ml/random_forest.ts:94 | the label column is the last value of each row |
| DecisionTree.TestSplit | src/lib/server/ml/random_forest.ts:59-66 | the loop pushes exactly the rows with `row[index] < value` to the left and the rest to the right, in order |
| DecisionTree.SplitPartitions | backend/finance_ml/random_forest.py:37-44 | the two sides together hold every row exactly once (sizes add up, multisets add up), each on its own side |
| DecisionTree.AllBelow | src/lib/server/ml/random_forest.ts:59-66 | when every row goes left, the right side is empty |
| DecisionTree.GiniIndex | src/lib/server/ml/random_forest.ts:69-85 | the accumulating loops compute the weighted Gini impurity `Gini(groups, classes)` |
| DecisionTree.GiniAtMostOne | backend/finance_ml/random_forest.py:47-64 | the weighted Gini impurity never exceeds 1 |
| DecisionTree.WeightedImpurityBound | src/lib/server/ml/random_forest.ts:70-84 | the weighted impurity of groups is at most their share of all instances |
| DecisionTree.GroupImpurityBound | src/lib/server/ml/random_forest.ts:77-82 | one group contributes at most its own share of the instances |
| DecisionTree.EmptyGroupsWeighNothing | src/lib/server/ml/random_forest.ts:74-75 | groups that are all empty contribute nothing |
| DecisionTree.GiniIgnoresEmptyGroups | backend/finance_ml/random_forest.py:53-56 | skipping empty groups does not change the index |
| DecisionTree.NonEmptyKeepsWeights | src/lib/server/ml/random_forest.ts:74-75 | dropping empty groups keeps the total size and the weighted impurity |
| DecisionTree.PureClassScore | src/lib/server/ml/random_forest.ts:76-81 | a single-label group scores the number of times its label appears among the classes |
| DecisionTree.PureGroupsWeighNothing | src/lib/server/ml/random_forest.ts:73-84 | groups that each hold one listed label contribute no impurity |
| DecisionTree.GiniOfPureSplit | src/lib/server/ml/random_forest.ts:69-85 | a split into single-label groups has Gini 0 |
| DecisionTree.GiniOfEvenTwoClassGroup | backend/finance_ml/random_forest.py:47-64 | one group split evenly between two classes has Gini 0.5 |
| DecisionTree.ClassValues | src/lib/server/ml/random_forest.ts:94 | the class values are the distinct labels of the dataset |
| DecisionTree.SampleFeatures | src/lib/server/ml/random_forest.ts:99-105 | the sampling loop returns the features `SampledFeatures` describes |
| DecisionTree.SampledFeaturesFacts | backend/finance_ml/random_forest.py:70-74 | the sampled features are `n` distinct indices below the feature count (never the label column), drawn in order |
| DecisionTree.SamplingNeedsEnoughFeatures | src/lib/server/ml/random_forest.ts:99-105 | sampling finishes only when no more features are asked for than exist, otherwise it draws forever |
| DecisionTree.EvaluateSplit | src/lib/server/ml/random_forest.ts:106-108 | a candidate's groups are `testSplit` at its feature and row value, scored by `giniIndex` over the class values, and the score is at most 1 |
| DecisionTree.FirstBestSplitScores | src/lib/server/ml/random_forest.ts:106-116 | the chosen (feature, row) has the minimal score, and every pair visited before it scores strictly higher |
| DecisionTree.BestSplit | src/lib/server/ml/random_forest.ts:95-124 | with no features the result is the placeholder 999 split; otherwise it is the first strictly best candidate, on a sampled feature, with groups equal to `testSplit` at its index and value |
| DecisionTree.SearchStep | src/lib/server/ml/random_forest.ts:108-115 | the strict `<` update keeps the best-so-far as the first minimum of the visited pairs |
| DecisionTree.GetSplit | backend/finance_ml/random_forest.py:67-81 | sampling and the search together: the split is the first best candidate over the sampled features, it splits on a feature column, and its groups are `test_split` at the chosen point |
| DecisionTree.ToTerminal | backend/finance_ml/random_forest.py:84-86 | a leaf holds a most common label of its group; the TS version takes the earliest on ties |
| DecisionTree.SplitNode | src/lib/server/ml/random_forest.ts:137-180 | the node keeps its split; an empty side makes both children the same leaf of all rows; at the depth limit both sides become leaves; sides of at most `minSize` rows become leaves and larger ones grow at depth+1 |
| DecisionTree.GrowGroup | src/lib/server/ml/random_forest.ts:161-176 | a group larger than `minSize` is split by `getSplit`: the node's column and threshold are the first best split over `nFeatures` distinct sampled feature columns of the group, and every node below is chosen the same way and finished by `splitNode` at the next depth |
| DecisionTree.BuildTree | src/lib/server/ml/random_forest.ts:183-187 | the tree is grown from the training rows starting at depth 1, following every stopping rule, each node on the first best split over `nFeatures` distinct sampled feature columns of its rows |
| DecisionTree.TreePredict | src/lib/server/ml/random_forest.ts:190-195 | prediction walks left iff `row[index] < value` and returns a leaf value of the tree |
| DecisionTree.GrownDepth | src/lib/server/ml/random_forest.ts:150-154 | a tree grown from depth 1 has at most `maxDepth` split nodes on any path |
| DecisionTree.ChildrenDepth | src/lib/server/ml/random_forest.ts:149-159 | after an empty side or at the depth limit, both children are leaves |
| DecisionTree.GrownLeafLabels | src/lib/server/ml/random_forest.ts:128-134 | every leaf value of a grown tree is a label of its training rows |
| DecisionTree.GrownSplitsOnFeatures | src/lib/server/ml/random_forest.ts:99-103 | every split of a grown tree is on a feature column, never the label column |
| DecisionTree.UnanimousTreePredicts | src/lib/server/ml/random_forest.ts:137-195 | when all training labels equal `v`, every leaf is `v` and every prediction is `v` |
| Sampling.JsRound | src/lib/server/ml/random_forest.ts:199 | `Math.round` is the nearest integer, halves rounded up |
| Sampling.PyRound | backend/finance_ml/random_forest.py:136 | Python `round` is the nearest integer, halves rounded to even |
| Sampling.RoundingsAgreeOffHalves | backend/finance_ml/random_forest.py:136 | the two roundings agree except on exact halves |
| Sampling.RoundingsDifferOnHalves | src/lib/server/ml/random_forest.ts:199 | on 2.5 they differ: 3 in TS, 2 in Python |
| Sampling.EmptySampleSize | src/lib/server/ml/random_forest.ts:198-205 | an empty dataset asks for no rows in either language |
| Sampling.Subsample | src/lib/server/ml/random_forest.ts:198-205 | exactly `round(n·ratio)` rows (none for a negative count), the k-th being the row at the k-th draw's `randrange`, each a row of the dataset; it runs out exactly when too few draws remain |
| Sampling.ShiftRightSigned17 | src/lib/server/ml/random_forest.ts:223 | `>> 17` is an arithmetic shift: a set sign bit fills the top 17 bits with ones |
| Sampling.ZeroStateIsFixed | src/lib/server/ml/random_forest.ts:221-224 | the xorshift state 0 stays 0 |
| Sampling.SwapPermutes | src/lib/server/ml/random_forest.ts:226 | a swap is a permutation |
| Sampling.ShuffledPermutes | src/lib/server/ml/random_forest.ts:217-228 | `seededShuffle` returns a permutation of its input |
| Sampling.ShuffledWithSeedZero | src/lib/server/ml/random_forest.ts:217-228 | with seed 0 every step swaps with position 0, which rotates the list left by one |
| Sampling.SeededShuffle | src/lib/server/ml/random_forest.ts:217-228 | the in-place loop computes `Shuffled(arr, seed)` |
| Sampling.PermutationBounds | src/lib/server/ml/random_forest.ts:236 | a permutation of 0..n-1 contains each index once |
| Sampling.PartitionFacts | backend/finance_ml/random_forest.py:152-163 | the test part has `cut` items and the train part the rest, their index sets are disjoint and cover 0..n-1, and X and y stay aligned |
| Sampling.TrainTestSplit | src/lib/server/ml/random_forest.ts:231-247 | the split uses the seeded shuffle of 0..n-1 and cuts at `floor(n·ratio)` (clamped to n) |
| Sampling.ShuffledRange | src/lib/server/ml/random_forest.ts:236 | the shuffled indices are a permutation of 0..n-1 |
| Sampling.DefaultSplitIndices | src/lib/server/ml/random_forest.ts:231-236 | with the default seed 0 the index order is 1, 2, ..., n-1, 0 |
| Sampling.PyInt | backend/finance_ml/random_forest.py:154 | `int()` truncates toward zero |
| Sampling.PyTrainTestSplit | backend/finance_ml/random_forest.py:148-163 | for a ratio in [0, 1] the test part has `int(n·ratio)` items, the parts cover all n, and X and y stay aligned |
| Sampling.TestCount | backend/finance_ml/random_forest.py:155 | for a ratio in [0, 1], `int(n·ratio)` is a count between 0 and n, and it is the whole part of n·ratio |
| Sampling.Matches | backend/finance_ml/random_forest.py:166 | the count of agreeing pairs is the full length exactly when the lists agree everywhere |
| Sampling.Accuracy | backend/finance_ml/random_forest.py:165-167 | accuracy is in [0, 1], 0 for no labels, and 1 exactly when every prediction matches |
| Forest.ISqrt | src/lib/server/ml/random_forest.ts:319 | `Math.floor(Math.sqrt(n))` is the integer square root |
| Forest.ISqrtPositive | src/lib/server/ml/random_forest.ts:319 | at least one feature is sampled whenever there is a feature |
| Forest.Labelled | src/lib/server/ml/random_forest.ts:318 | `[...x, y[i]]` appends the label as the last column and keeps the features |
| Forest.LabelledWidth | src/lib/server/ml/random_forest.ts:318 | labelled rows of equal-width inputs have one more column |
| Forest.GrowForest | src/lib/server/ml/random_forest.ts:320-324 | the fit loop grows `nTrees` trees, each from a bootstrap sample of the data, with `nFeatures` sampled columns per split |
| Forest.GrowSampleTree | src/lib/server/ml/random_forest.ts:322-323 | one round of the loop: the sample is a bootstrap sample of the data, as wide as its rows, and the tree is grown from it |
| Forest.Votes | src/lib/server/ml/random_forest.ts:209 | the votes are each tree's prediction, in tree order |
| Forest.BaggingPredict | src/lib/server/ml/random_forest.ts:208-214 | bagging returns the earliest most common vote |
| Forest.PyBaggingPredict | backend/finance_ml/random_forest.py:143-145 | Python bagging returns a most common vote |
| Forest.VotesAreTrainingLabels | src/lib/server/ml/random_forest.ts:208-214 | every vote of a fitted forest is a training label |
| Forest.MeanWithin | src/lib/server/ml/random_forest.ts:357 | the mean of values within [lo, hi] lies within [lo, hi], and equals v when all equal v |
| Forest.VotesWithin | src/lib/server/ml/random_forest.ts:356 | when all training labels lie in [lo, hi], so do all votes |
| Forest.RandomForestClassifier.constructor | src/lib/server/ml/random_forest.ts:307-315 | defaults of 15 trees, depth 10, minimum size 2 and sample ratio 1.0, with no trees yet |
| Forest.RandomForestClassifier.Fit | src/lib/server/ml/random_forest.ts:317-325 | `nFeatures = floor(sqrt(#features))`, the data are the labelled rows, and the trees are `nTrees` trees grown from bootstrap samples, every split the first best over `nFeatures` sampled columns |
| Forest.RandomForestClassifier.PredictOne | src/lib/server/ml/random_forest.ts:327-329 | the prediction is the earliest most common vote |
| Forest.RandomForestClassifier.Predict | src/lib/server/ml/random_forest.ts:330-332 | one prediction per row, in order |
| Forest.RandomForestClassifier.PredictsTrainingClass | src/lib/server/ml/random_forest.ts:327-329 | a fitted classifier predicts one of its training labels |
| Forest.RandomForestClassifier.UnanimousTraining | src/lib/server/ml/random_forest.ts:317-329 | trained on a single label, the classifier always predicts it |
| Forest.RandomForestRegressor.constructor | src/lib/server/ml/random_forest.ts:335-343 | the same defaults as the classifier |
| Forest.RandomForestRegressor.Fit | src/lib/server/ml/random_forest.ts:345-353 | the same fit as the classifier |
| Forest.RandomForestRegressor.PredictOne | src/lib/server/ml/random_forest.ts:355-358 | the prediction times the number of trees is the sum of the votes |
| Forest.RandomForestRegressor.Predict | src/lib/server/ml/random_forest.ts:359-372 | one prediction per row, in order |
| Forest.RandomForestRegressor.PredictsWithinTrainingRange | src/lib/server/ml/random_forest.ts:355-358 | the prediction lies within the range of the training labels, and equals v when every label is v |
| Features.DayOfWeekMatchesPython | src/lib/server/ml/random_forest.ts:270-271 | mapping `getDay()` 0→6 and d→d-1 gives Python's Monday-first `weekday()` |
| Features.CalendarFeatures | src/lib/server/ml/random_forest.ts:271-276 | isWeekend iff dow ≥ 5, isMonthStart iff dom ≤ 3, isMonthEnd iff dom ≥ 28, each flag 0 or 1 |
| Features.CalendarOf | src/lib/server/ml/random_forest.ts:269-276 | the weekend flag is set exactly on Saturdays and Sundays |
| Features.PythonCalendarAgrees | backend/finance_ml/random_forest.py:189-195 | the Python features from `weekday()` equal the TS features |
| Features.ClfRow | src/lib/server/ml/random_forest.ts:289 | a classification row has 6 columns with the amount third |
| Features.RegRow | src/lib/server/ml/random_forest.ts:292 | a regression row has 5 columns with the fine id last |
| Features.CoarseIdOf | src/lib/server/ml/random_forest.ts:278-282 | the coarse id decodes back to the record's coarse label |
| Features.KeptOfSide | src/lib/server/ml/random_forest.ts:262-266 | the kept records of a side are records of the input with a known category and that side's type |
| Features.DatasetsBySide | src/lib/server/ml/random_forest.ts:250-305 | each side lists, row by row, exactly its kept records: unknown categories are dropped and any type other than 'expense' goes to income |
| Features.DatasetsShape | backend/finance_ml/random_forest.py:204-219 | classification rows have width 6, regression rows width 5, and every class label is a coarse id |
| Features.DatasetsStep | src/lib/server/ml/random_forest.ts:262-303 | one more record extends its type's four lists, and an unknown category changes nothing |
| Features.BuildDatasets | src/lib/server/ml/random_forest.ts:250-305 | the loop computes `DatasetsOf(rows, ALL_CATEGORIES)` |
| Features.PyBuildDatasets | backend/finance_ml/random_forest.py:170-222 | succeeds exactly when every known-category record has a parseable date (otherwise the `strptime` error), and then yields `DatasetsOf` under the injected category order |
| Forecasting.OfType | src/lib/server/ml/forecasting.ts:25-26 | the filter keeps only records of the type, all from the input |
| Forecasting.OfTypeOccurrences | src/lib/server/ml/forecasting.ts:23-28 | a record occurs in the filtered list as often as in the input if it has the type, else never |
| Forecasting.OfTypeKeepsOrder | src/lib/server/ml/forecasting.ts:23-28 | a list of only that type is returned unchanged |
| Forecasting.OfTypeAppend | src/lib/server/ml/forecasting.ts:23-28 | filtering distributes over concatenation, so the original order is kept |
| Forecasting.RowByType | src/lib/server/ml/forecasting.ts:23-28 | the expense part holds only expenses and the income part only incomes |
| Forecasting.RowByTypeCovers | src/lib/server/ml/forecasting.ts:23-28 | the parts never exceed the input and cover it when every type is 'expense' or 'income' |
| Forecasting.PyRowByType | backend/finance_ml/forecasting.py:31-38 | fails with KeyError exactly when some record has another type, and otherwise gives the two ordered filters |
| Forecasting.Insert | src/lib/server/ml/forecasting.ts:67 | inserting into a sorted list keeps it sorted and adds the element |
| Forecasting.Sort | src/lib/server/ml/forecasting.ts:67 | `[...nums].sort((a, b) => a - b)` is an ascending permutation of the input |
| Forecasting.SortedUnique | backend/finance_ml/forecasting.py:84 | two ascending permutations of the same numbers are equal, so `sorted` and the TS sort agree |
| Forecasting.SortOfPermutation | src/lib/server/ml/forecasting.ts:67 | the sorted copy depends only on the numbers, not on their order |
| Forecasting.SortOfSorted | src/lib/server/ml/forecasting.ts:67 | sorting a sorted list returns it |
| Forecasting.Median | src/lib/server/ml/forecasting.ts:63-70 | 0 for no numbers; otherwise between the smallest and the largest, and an element for odd counts |
| Forecasting.MedianOfSorted | src/lib/server/ml/forecasting.ts:68-69 | the middle element for odd counts, the mean of the two middle elements for even counts |
| Forecasting.MedianOfPermutation | src/lib/server/ml/forecasting.ts:63-70 | the median does not depend on the input order |
| Forecasting.MedianWithin | src/lib/server/ml/forecasting.ts:63-70 | the median of numbers within [lo, hi] lies within [lo, hi] |
| Forecasting.PyMedian | backend/finance_ml/forecasting.py:82-91 | the Python typical amount (`0.5 * (a + b)` for even counts, 0.0 for none) equals the TS median |
| Forecasting.KnownOfType | src/lib/server/ml/forecasting.ts:121-127 | the counted categories are those of the type's records with a known category |
| Forecasting.KnownOfTypeKnown | backend/finance_ml/forecasting.py:129-136 | every counted category is one of the 15 known categories |
| Forecasting.FirstSeenStep | src/lib/server/ml/forecasting.ts:126 | counting one more category keeps the keys in first-seen order |
| Forecasting.TallyStep | src/lib/server/ml/forecasting.ts:120-127 | the counting loop keeps the count map equal to the occurrence counts, with keys in first-seen order |
| Forecasting.MaxByCountFirstSeen | backend/finance_ml/forecasting.py:138-139 | the first key of maximal count in first-seen order is the earliest most common category (what `most_common(1)` and the stable sort of `Object.entries` both return) |
| Forecasting.MainFineCategory | src/lib/server/ml/forecasting.ts:120-129 | none exactly when no known category of the type occurs; otherwise the earliest most common one, a known category |
| Forecasting.TallyEmpty | src/lib/server/ml/forecasting.ts:129 | the count map is empty exactly when nothing was counted |
| Forecasting.TallyMode | src/lib/server/ml/forecasting.ts:129 | the first key of maximal count is the earliest most common category |
| Forecasting.SideTrainable | src/lib/server/ml/forecasting.ts:45-60 | each side's four lists have equal length, and non-empty ones have uniform, non-empty rows |
| Forecasting.TrainClassifier | src/lib/server/ml/forecasting.ts:31-42 | no model exactly when fewer than 10 rows; otherwise a fresh classifier with the defaults (15 trees, depth 10, minimum size 2, sample ratio 1.0) and `nFeatures = floor(sqrt(#features))`, fitted on the rows |
| Forecasting.TrainRegressor | backend/finance_ml/forecasting.py:63-68 | no model exactly when fewer than 10 rows; otherwise a fresh regressor with the defaults (15 trees, depth 10, minimum size 2, sample ratio 1.0) and `nFeatures = floor(sqrt(#features))`, fitted on the rows |
| Forecasting.Amounts | src/lib/server/ml/forecasting.ts:84 | the amounts of the records, in order |
| Forecasting.DefaultFutureFeatures | src/lib/server/ml/forecasting.ts:72-95 | today's calendar features, and the median amount of the records of the type |
| Forecasting.TypicalAmountWithin | src/lib/server/ml/forecasting.ts:84-85 | the typical amount is 0 without records of the type, and otherwise within the range of their amounts |
| Forecasting.MainFineId | src/lib/server/ml/forecasting.ts:131 | 0 when there is no main category; otherwise its index in the category order |
| Forecasting.MainFineNumbered | src/lib/server/ml/forecasting.ts:131 | the main category always has an id, so the `?? 0` fallback never applies |
| Forecasting.Predicted | src/lib/server/ml/forecasting.ts:111-136 | no forecast exactly when a model is missing; otherwise a forecast for the type |
| Forecasting.ForecastNextForType | src/lib/server/ml/forecasting.ts:97-137 | the forecast of the type's models from today's features, the median amount and the main fine category's id |
| Forecasting.CoarseLabelDefined | src/lib/server/ml/forecasting.ts:116-117 | the predicted class of a classifier fitted on a built dataset is a coarse id, so `ID_TO_COARSE` always yields a label |
| Forecasting.AmountWithinTraining | src/lib/server/ml/forecasting.ts:133-134 | the predicted amount lies within the range of the training amounts |
| Forecasting.ForecastNext | src/lib/server/ml/forecasting.ts:147-183 | fewer than 10 records: no success and no forecast; `n_transactions` is the type's count; success exactly with at least 10 records; then a forecast exactly when the type has at least 10 usable records; a forecast has the type, a coarse label, and an amount within the training amounts; on success the models are the 15-tree forests fitted to the type's training sets (none when the set has fewer than 10 rows) and the prediction is theirs on today's default features and the main fine category |
| Forecasting.LowerChar | backend/finance_ml/forecasting.py:105 | an ASCII capital letter becomes its small letter; other characters are unchanged |
| Forecasting.Lower | backend/finance_ml/forecasting.py:105 | `tr_type.lower()` maps every character |
| Forecasting.PyForecastNextForType | backend/finance_ml/forecasting.py:104-195 | lower-cases the type, takes the expense branch only for "expense" and the income branch otherwise, and forecasts from that branch's models |
| Forecasting.PyForecastNext | backend/finance_ml/forecasting.py:197-211 | `n_transactions` is the length of `sep_rows`; no success and no forecast with fewer than 10 records, otherwise success with the type's forecast |
| Util.NatToString | src/lib/utils/util.ts:18-20 | `toString()` of a natural number is its decimal digits, with no leading zero |
| Util.IntToString | src/lib/utils/util.ts:24 | `toString()` of an integer is its digits, preceded by '-' when negative |
| Util.PadStart2 | src/lib/utils/util.ts:18-20 | `padStart(2, '0')` leaves two or more characters alone, pads shorter ones on the left, and keeps a digit string's value |
| Util.Pad2 | src/lib/utils/util.ts:25-26 | a padded number is at least two digits with the same value, exactly two below 100, and with no leading zero when longer |
| Util.UpperChar | src/lib/utils/util.ts:8 | an ASCII small letter becomes its capital; other characters are unchanged |
| Util.CapitalizeFirstLetter | src/lib/utils/util.ts:7-9 | "" stays ""; otherwise only the first character is upper-cased and the rest is unchanged |
| Util.CapitalizeIdempotent | src/lib/utils/util.ts:7-9 | capitalizing twice is capitalizing once, and the first letter is then not a small letter |
| Util.WholeSeconds | src/lib/utils/util.ts:12-14 | a non-finite or sub-second duration (including negative ones) counts as 0 seconds |
| Util.ClockSplit | src/lib/utils/util.ts:14-16 | hours, minutes mod 60 and seconds mod 60 recompose the whole seconds |
| Util.FormatDuration | src/lib/utils/util.ts:11-21 | `HH:MM:SS` with digit fields, minutes and seconds below 60 and two digits, and hours·3600 + minutes·60 + seconds = floor(ms / 1000); below 100 hours the result is exactly 8 characters, and a longer hours field has no leading zero |
| Util.FormatDurationOfNothing | src/lib/utils/util.ts:12 | a negative, non-finite or sub-second duration gives "00:00:00" |
| Util.ToYmd | src/lib/utils/util.ts:23-28 | `yyyy-mm-dd` with the year's digits, the month `getMonth()+1` and the day, each two digits |
| Util.Split | src/lib/utils/util.ts:31 | `split('-')` yields at least one part and no part contains the separator |
| Util.JoinSplit | src/lib/utils/util.ts:31 | joining the parts with the separator gives back the input |
| Util.SplitAround | src/lib/utils/util.ts:31 | splitting around one separator splits each side |
| Util.PartValue | src/lib/utils/util.ts:31 | `Number(part)` is 0 for "", the decimal value of a digit string, and NaN for any other text |
| Util.FormatDateLabel | src/lib/utils/util.ts:30-35 | the input is returned unchanged when fewer than three parts exist or one of them is 0 or NaN; otherwise "<month name> <day>, <year>", the month name empty outside 1..12 |
| Util.LabelOfYmd | src/lib/utils/util.ts:23-35 | the label of `toYmd(y, m, d)` for a positive year is "<MONTH_NAMES[m]> <d>, <y>" |
| Time.IsStartData | src/lib/types/time.ts:42-54 | false for every non-object; an object passes exactly when `success` is `true`, `id` is a finite number and `start_date` a non-empty string |
| Time.OtherFieldsIgnored | src/lib/types/time.ts:31-36 | fields other than `success`, `id` and `start_date` do not affect the result |
| Time.StartResponseAccepted | src/lib/types/time.ts:31-54 | every `StartSuccessData` value, with or without a message, passes |
| Time.MonthName | src/lib/types/time.ts:14-27 | `MONTH_NAMES[mm - 1]` is defined exactly for 1..12, January first and December last |

## Left out

- Database access (`loadRows`, `load_rows`, the sqlite/drizzle tables): records are a parameter. `src/lib/server/db/schema.ts:3-10` gives only the record's shape.
- HTTP routes and the page servers: these are I/O plumbing around the modelled functions.
- `new Date(date)`, `new Date()`, `datetime.today()` and `strptime` are not modelled as parsers. A record carries its parsed date, or `None`.
  - The TS code's `NaN` features for an unparseable date are not modelled: `Features.BuildDatasets` and `Forecasting.ForecastNext` require every known-category record to carry a date.
  - The Python `strptime` failure is modelled as an error.
  - The UTC-versus-local reading of a bare `YYYY-MM-DD` by `new Date` is not modelled.
- The Python modules never define `RandomForestClassifier`/`RandomForestRegressor`, although `backend/finance_ml/forecasting.py:5-11` imports them. So importing `backend/finance_ml/forecasting.py` raises `ImportError`, and `backend/api.py:3`, which imports `forecast_next` from it, fails to load as well: no Python forecast ever runs. `Forecasting.PyRowByType`, `Forecasting.PyMedian`, `Forecasting.PyForecastNextForType` and `Forecasting.PyForecastNext` model that module as if the import resolved; `Forecasting.PyForecastNext` takes the models as a parameter, and the classes are modelled from the TS file.
- The Python `CATEGORY_TO_ID` order comes from a set union and depends on string hashing. It is an injected arrangement of the 15 categories; only its bijectivity is claimed.
- IEEE floating point is not modelled: rounding error, `NaN`, infinities, and the 0/0 of an untrained regressor.
- DecisionTree.BuildTree: requires at least one sampled feature (`nFeatures > 0`). With none, `getSplit` returns empty groups and the leaves would be `undefined`. `fit` never does this for a non-empty feature row.
- Forest.RandomForestClassifier.Fit: requires a non-empty `X` with rows of one non-empty width, and a sample ratio giving at least one row. `X[0].length` throws on an empty `X`, and an empty sample makes `getSplit` read `dataset[0]` of nothing.
- Forest.RandomForestRegressor.Fit: the same requirements as the classifier.
- Forest.RandomForestClassifier.PredictOne: requires trees. An unfitted forest predicts `undefined` in TS.
- Forest.RandomForestRegressor.PredictOne: requires trees, where the source gives `NaN`. Its contract states the mean definitionally; its meaning is stated by `PredictsWithinTrainingRange`.
- Running out of random draws is a model artefact (`Exhausted`). `Math.random` never runs out, but `getSplit` loops forever when more features are asked for than exist (`DecisionTree.SamplingNeedsEnoughFeatures`). Contracts speak of completed runs only.
- Forecasting.ForecastNext: describes a completed run only. When the draws run out it returns `Exhausted`.
- `Math.random` and Python's `random` generator are not modelled; draws are inputs. The Python `shuffle` is an injected permutation of the indices.
- Which tree shape a given set of draws produces is not stated. Only the structural properties of every grown tree are proved.
- Python `tree_predict` raises `IndexError` on a row too short for a split index, where the TS walk goes right (`undefined < v` is false). Both are modelled as going right.
- Python `to_terminal`/`bagging_predict` break ties by set iteration order. Only maximality and membership are claimed for the injected order.
- DecisionTree.GiniIndex: the impurity's independence from the order of the class values is not proved.
- `formatTime`/`formatDate` (`src/lib/utils/util.ts:37-51`) depend on locale APIs.
- `TIME_CATEGORIES` and `src/lib/types/finance.ts` are constants with no operations.
- Util.CapitalizeFirstLetter: upper-cases ASCII letters only; full Unicode case mapping is not modelled.
- Forecasting.Lower: lower-cases ASCII letters only.
- Util.PartValue: `Number()` is modelled for digit runs and the empty string; signs, decimals, exponents, hex and surrounding blanks read as NaN here, and values beyond 2^53 are exact.
- Util.FormatDuration: the duration is a real number; the 2^53 precision limit on huge durations is not modelled.
- Forecasting.MainFineCategory: the count map is a Dafny `map` with the keys' insertion order kept beside it, standing in for JavaScript object key order and `Counter` insertion order.
