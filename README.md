# Gaussian Naive Bayes, modelled in Dafny

This project models `naive_bayes.py`. That file holds a Gaussian Naive Bayes classifier (`NaiveBayes.fit`, `predict`, `_predict`, `_pdf`) and two helpers: `accuracy` and `balance_classes`. Feature values are exact `real`s and labels are `int`s.

- **Fitting.** The fitted classifier keeps three things: its sorted distinct labels, a mean table and a variance table (one row per label, one column per feature), and a prior vector. In Dafny, `NaiveBayes.Classifier` has these as fields, using `array2<real>` and `array<real>` like the preallocated `np.zeros` tables. `Fit` fills them class by class in a loop, as the source does. Its contract says the new state, read back as a `Parameters` value, equals `Train`. `Train` is a pure reference definition of the fitted statistics. The properties are lemmas about `Train`:
  - the labels are sorted and distinct, and are exactly the labels of `y`;
  - every class has at least one training row;
  - the priors are class shares, and they sum to one;
  - the variances are non-negative;
  - every mean lies in its class's range;
  - a feature that is constant in a class gets that value as its mean and a variance of zero.
- **Prediction.** `_pdf` and `np.log` are transcendental, so they enter as function parameters `pdf` and `ln`. `PredictOne` builds the posterior of each class in a loop: summed log-densities plus the log-prior. It then scans for the first maximum, as `np.argmax` does. It is proved equal to the pure `Classify`. The lemmas about `Classify` cover:
  - the result is a fitted label;
  - the prediction is `classes[i]` exactly when `i` is the first index with a maximal score;
  - ties go to the earlier class;
  - in log space the likelihood splits over groups of features (the naive independence assumption).
- **Predict and accuracy.** `Predict` returns one label per row, in row order, and does not change the classifier. `Accuracy` lies in [0, 1]. It is 1 exactly when the predictions are all right, and 0 exactly when they are all wrong.
- **Balancing.** `BalanceClasses` models `balance_classes`, including its two `KeyError` paths, where a diagnosis label is missing from `value_counts`. The random draw of `np.random.choice` is a parameter: any list of distinct rows of the larger class with the right length. The lemmas prove:
  - the threshold rule;
  - that both counts of the result equal the smaller count, which is the source's own assertion;
  - that balancing, applied a second time, changes nothing;
  - that the result is a sub-multiset of the input rows.

Modules: `Dataset` (labels, counting, `np.unique`, boolean-mask selection), `Statistics` (sums, means, population variances, priors), `NaiveBayes` (fitting and prediction), `Metrics` (accuracy) and `Balancing`.

## Model

| member | source | states |
|---|---|---|
| Dataset.Count | naive_bayes.py:13-14 | The count of a label is at most the length, and positive exactly when the label occurs. |
| Dataset.Unique | naive_bayes.py:41 | `np.unique(y)` is strictly increasing (sorted, no duplicates), and a label is in it exactly when it occurs in `y`. |
| Dataset.Indices | naive_bayes.py:50 | The mask `y == c` picks `Count(y, c)` positions. Each is in range and holds `c`. They are strictly increasing. Every position holding `c` is among them. |
| Dataset.Select | naive_bayes.py:50 | `X[y == c]` has one row per occurrence of `c`. It is non-empty exactly when `c` occurs. It lists the rows of `X` at the positions holding `c`, in their original order. |
| Dataset.Pick | naive_bayes.py:27 | `data.loc[ids]` has one element per id, in the order of the ids, and element `k` is `data[ids[k]]`. |
| Dataset.CountInStrictlyIncreasing | naive_bayes.py:41 | A label occurs exactly once in the sorted distinct label list. |
| Dataset.TotalCountCovers | naive_bayes.py:49-53 | Counting each label of a sorted distinct list that covers `y` counts every row exactly once. |
| Dataset.PickDistinctIsSubMultiset | naive_bayes.py:23 | Rows picked at pairwise-different positions (`replace=False`) form a sub-multiset of the data. |
| Statistics.Share | naive_bayes.py:53 | `part / whole` is non-negative. It is positive exactly when `part` is positive, and at most one when `part <= whole`. |
| Statistics.ShareIsOne | naive_bayes.py:9 | A share equals one exactly when the part is the whole. |
| Statistics.Sum | naive_bayes.py:65 | The `np.sum` of line 65, also used inside the mean and the variance. Values that are all non-negative have a non-negative sum. `SumConcat` states that a sum splits over concatenation. |
| Statistics.SumConcat | naive_bayes.py:65 | The sum of a concatenation is the sum of the parts. |
| Statistics.Mean | naive_bayes.py:51 | The mean of a non-empty column is the value whose `n` copies add up to the column's sum. `MeanBounds` and `VarianceOfConstant` state its bounds and its value on a constant column. |
| Statistics.ColumnMeans | naive_bayes.py:51 | `mean(axis=0)` gives one mean per feature, and mean `d` times the row count is the sum of column `d`. |
| Statistics.MeanBounds | naive_bayes.py:51 | The mean of a non-empty column lies between any lower and upper bound of its values. |
| Statistics.SquaredDeviations | naive_bayes.py:52 | The sum of squared deviations is non-negative. |
| Statistics.Variance | naive_bayes.py:52 | The population variance is non-negative. |
| Statistics.VarianceOfConstant | naive_bayes.py:51-52 | A column of equal values has that value as its mean and variance zero. |
| Statistics.ColumnVariances | naive_bayes.py:52 | `var(axis=0)` gives one non-negative variance per feature. |
| Statistics.Prior | naive_bayes.py:53 | A class prior lies in [0, 1] and is positive exactly when the label occurs. |
| Statistics.Priors | naive_bayes.py:47-53 | There is one prior per label, and each label of `y` has a positive prior. |
| Statistics.SumOfPriors | naive_bayes.py:53 | The priors of a list of labels sum to the share of the rows those labels cover. |
| Statistics.PriorsSumToOne | naive_bayes.py:53 | The priors of the distinct labels of a non-empty `y` sum to one. |
| NaiveBayes.Train | naive_bayes.py:39-53 | The fitted tables have one row per class and one column per feature. The classes are strictly increasing and are exactly the labels of `y`. Every class has a non-empty row subset and a positive prior. Every variance is non-negative. |
| NaiveBayes.TrainRow | naive_bayes.py:49-53 | Row `idx` of the tables holds the column means and column variances of `X[y == classes[idx]]`, and the prior is that subset's size divided by `n_samples`. |
| NaiveBayes.FittedPriorsSumToOne | naive_bayes.py:53 | The fitted priors of a non-empty training set sum to one. |
| NaiveBayes.FittedPriorIsShare | naive_bayes.py:53 | Each fitted prior is the count of its label divided by `n_samples`. |
| NaiveBayes.FittedMeanWithinClassRange | naive_bayes.py:50-51 | A fitted mean lies within any bounds that the feature obeys over the rows of its class. |
| NaiveBayes.FittedConstantFeature | naive_bayes.py:50-52 | A feature constant over a class is fitted with that value as its mean and a variance of zero. |
| NaiveBayes.LogDensities | naive_bayes.py:65 | There is one log-density term per feature of `x`. |
| NaiveBayes.LogLikelihoodSplits | naive_bayes.py:65 | The summed log-density over two groups of features is the sum over each group (the naive independence assumption). |
| NaiveBayes.Scores | naive_bayes.py:63-67 | There is one posterior per class, in class order, and posterior `k` is the score of class `k`. |
| NaiveBayes.Score | naive_bayes.py:64-66 | The posterior of one class: summed log-densities plus the log-prior. It has no contract of its own; `Scores`, `LogLikelihoodSplits`, `LargerPriorWins` and `IdenticalClassesPreferEarlier` state its properties. |
| NaiveBayes.LargerPriorWins | naive_bayes.py:63-70 | When two classes share their mean and variance rows and `ln` is increasing, the one with the smaller prior scores strictly lower and is never predicted. |
| NaiveBayes.IdenticalClassesPreferEarlier | naive_bayes.py:63-70 | Two classes with identical means, variances and priors tie on every row, and the later one is never predicted. |
| NaiveBayes.ArgMax | naive_bayes.py:70 | `np.argmax` returns an index holding the maximum, and no earlier index reaches that maximum. |
| NaiveBayes.FirstMaxUnique | naive_bayes.py:70 | The first maximum is unique, so argmax is determined. |
| NaiveBayes.Classify | naive_bayes.py:70 | The predicted label is always one of the fitted classes. |
| NaiveBayes.ClassifyIsFirstMax | naive_bayes.py:63-70 | The prediction is `classes[i]` exactly when `i` is the first index with a maximal posterior. |
| NaiveBayes.TieGoesToEarlierClass | naive_bayes.py:70 | When two classes tie on the posterior, the later one is never predicted. |
| NaiveBayes.FillRow | naive_bayes.py:51-52 | Writing `table[idx, :]` overwrites row `idx` with the given values and leaves every other cell unchanged. |
| NaiveBayes.StoreClass | naive_bayes.py:51-53 | One loop pass stores a mean row, a variance row and a prior at index `idx`, and leaves every other entry unchanged. |
| NaiveBayes.StoreTrainedClass | naive_bayes.py:50-53 | One iteration of the fitting loop leaves row `idx` of each table equal to row `idx` of `Train`, and changes nothing else. |
| NaiveBayes.FillTables | naive_bayes.py:49-53 | After the fitting loop, every cell and every prior equals `Train`'s. |
| NaiveBayes.FitTables | naive_bayes.py:40-53 | The three tables are newly allocated with sizes `n_classes x n_features`, `n_classes x n_features` and `n_classes`, and they hold `Train`'s values. |
| NaiveBayes.FirstMaxIndex | naive_bayes.py:70 | The left-to-right scan returns the first index of the maximum, which is `ArgMax`. |
| NaiveBayes.Classifier.constructor | naive_bayes.py:38 | A new classifier knows no labels and has no features. |
| NaiveBayes.Classifier.Fit | naive_bayes.py:39-53 | After fitting, the fields are fresh tables whose contents, read back as values, are exactly `Train(X, y, n_features)`. |
| NaiveBayes.Classifier.PredictOne | naive_bayes.py:59-70 | `_predict` returns `Classify` of the fitted state, which is a fitted label. |
| NaiveBayes.Classifier.Predict | naive_bayes.py:55-57 | `predict` returns one label per row, in row order, with label `i` equal to `_predict(X[i])`. It modifies nothing, so repeated calls agree. |
| Metrics.Matches | naive_bayes.py:9 | The number of equal positions is at most the length. It equals the length exactly when the sequences are equal, and is zero exactly when they differ at every position. |
| Metrics.Accuracy | naive_bayes.py:8-10 | Accuracy lies in [0, 1]. It is 1 exactly when the predictions equal the truth, and 0 exactly when every prediction is wrong. |
| Metrics.AccuracySymmetric | naive_bayes.py:8-10 | Swapping the true and the predicted labels leaves the accuracy unchanged. |
| Balancing.Diagnoses | naive_bayes.py:13 | The diagnosis column has one label per record. |
| Balancing.NeedsBalancing | naive_bayes.py:17 | The threshold test `abs(b - m) > 0.1 * min(b, m)` over exact reals. It holds only for unequal counts. `NeedsBalancingIff` gives its form on whole numbers. |
| Balancing.Smaller | naive_bayes.py:19 | `idxmin` of the two counts is a diagnosis label whose count is the smaller count. |
| Balancing.Larger | naive_bayes.py:20 | `idxmax` of the two counts is a diagnosis label other than the smaller class, and its count is at least the smaller class's count. |
| Balancing.IsDraw | naive_bayes.py:23 | A possible outcome of `np.random.choice(ids, size, replace=False)` over the rows of class `c`: `size` pairwise-different positions, each holding a record of class `c`. It has no contract of its own; `DrawExists` shows that one always exists, and `BalanceKeepsRecords` relies on its distinctness. |
| Balancing.DrawExists | naive_bayes.py:18-23 | The larger class always holds enough records for a draw of `min(b, m)` without replacement, so the requirement on `draw` can always be met. |
| Balancing.NeedsBalancingIff | naive_bayes.py:17 | The 10% threshold holds exactly when ten times the gap between the counts exceeds the smaller count. |
| Balancing.EqualCountsAreBalanced | naive_bayes.py:17 | Equal counts never trigger balancing. |
| Balancing.BalanceClasses | naive_bayes.py:12-36 | Balancing fails with `KeyError` exactly when a diagnosis is absent, naming the first missing label. Within the threshold, the data come back unchanged. Otherwise the result is every row of the smaller class in order, followed by the drawn rows of the larger class. Both counts then equal the smaller count, and the length is twice that count. |
| Balancing.BalancedCounts | naive_bayes.py:30-31 | The kept rows followed by the drawn rows hold `min(b, m)` benign and `min(b, m)` malignant records, which is the source's assertion. |
| Balancing.SelectedLabels | naive_bayes.py:26 | Every row of `data[data["diagnosis"] == c]` carries the diagnosis `c`. |
| Balancing.BalanceIdempotent | naive_bayes.py:12-36 | A balanced result is still binary, and balancing it again returns it unchanged, whatever is drawn. |
| Balancing.BalanceKeepsRecords | naive_bayes.py:23-28 | Balancing never invents or duplicates a record: the result is a sub-multiset of the input. |

## Left out

- `_pdf` (naive_bayes.py:72-77) and `np.log` (naive_bayes.py:64-65) are transcendental floating-point functions. They are the parameters `pdf` (value, mean, variance) and `ln`, so the model proves how their results are combined and selected, not their values.
- IEEE behaviour is not modelled: there is no NaN or infinity, for example when a variance is zero, and floating-point rounding in means, variances and priors is replaced by exact real arithmetic. For a smaller count below 2^52, the float test `gap > 0.1 * min` decides exactly as the exact rule `10 * gap > min` does, so `Balancing.NeedsBalancing` uses exact reals.
- Balancing.NeedsBalancing: for a smaller count of 2^52 or more, float rounding of `0.1 * min` can make the source's test disagree with the exact rule, and that case is not modelled. For example, with min = 6986891485108709 and gap = 698689148510871, the exact rule rebalances but the float test does not.
- Python's argmax over NaN scores (a NaN wins `np.argmax`) is not modelled, because the scores are exact reals.
- NaiveBayes.Classifier.Predict: requires at least one fitted class when `X` is non-empty. On an empty class list, `np.argmax([])` raises `ValueError`, and that error path is not modelled. On an empty `X`, no row is scored and the result is empty, both here and in Python.
- NaiveBayes.Classifier.PredictOne: requires at least one fitted class, for the same `np.argmax([])` `ValueError`. It also requires `|x|` to equal the fitted width; see the broadcasting line below.
- An unfitted classifier has no attributes in Python. So `predict` before `fit` raises `AttributeError` on a non-empty `X`, and returns an empty array on an empty `X`, because the comprehension never calls `_predict`. The model starts from empty tables instead; its `Predict` on an empty `X` also returns an empty sequence, and the non-empty case is excluded by its requires.
- Metrics.Accuracy: requires non-empty, equal-length inputs. Empty inputs divide 0 by 0 (NaN), and unequal lengths make numpy raise or broadcast.
- Shape mismatches are preconditions: rows of different width, `len(X) != len(y)`, and a predicted row whose width differs from the fitted width. Numpy raises on most of these, and that error is not modelled.
- Broadcasting in `_pdf` (naive_bayes.py:75-76) is not modelled. `x - mean` broadcasts a one-feature `x` against a wider mean row, and any `x` against a one-feature model. `_predict` then returns a label instead of raising. `PredictOne` and `Predict` require `|x|` to equal the fitted width, so they exclude these inputs.
- Balancing.BalanceClasses: requires every diagnosis to be 0 or 1 (`Binary`). With a third label, `idxmin`/`idxmax` could pick it, and that case is not modelled.
- `np.random.choice` is not modelled as a sampler. Its outcome is the parameter `draw`, which is constrained to be any `min(b, m)` distinct rows of the larger class. The order of the drawn rows is the order of `draw`.
- pandas index handling is not modelled: index labels versus positions, and `reset_index`. Records are addressed by position, and the result is a fresh sequence.
- All `print` calls, the sklearn data generation, `train_test_split` and the `__main__` block (naive_bayes.py:81-93) are left out as output and test plumbing.
- The identity "variance = mean of squares minus square of mean" and the converse of `VarianceOfConstant` (a zero variance only for a constant column) are not proved. Both need nonlinear real arithmetic over a whole sum, and the solver does not settle that.
- Class subsets are never empty here, because the classes are taken from `y` itself (`Train` proves this). So no error path exists for an empty class, and none is modelled.
