# rBCM core in Dafny

A Dafny model of the two numerically interesting parts of rBCM, a robust
Bayesian Committee Machine for Gaussian-process regression.

- **Partitioning** (`partitioning.dfy`, after `rBCM/partitioning.py`). The
  training indices 0..n-1 are split into one group per expert, in one of two
  ways:
  - random: consecutive slices of a shuffle of 0..n-1;
  - Birch: one group per cluster label.

  The shuffle and the clusterer's labels are inputs of the model. The
  reference definition `Chunks` fixes what the slicing loop must produce.
  The contracts then show that the groups give the shuffle back when
  concatenated, have points_per_expert elements each with the last one
  holding the remainder, and partition 0..n-1.
- **Combination** (`combination.dfy`, after `_combine` in
  `rBCM/weighting/differential_entropy.py`). This is the robust BCM rule of
  Deisenroth & Ng, "Distributed Gaussian Processes" (ICML 2015), equations 21
  and 22.
  - The looped computation of the source is proved equal to the closed-form
    sums: the fused precision and the weighted mean sum.
  - Properties of the rule are proved about those sums:
    - zero weights give the prior;
    - an expert with zero weight can be dropped;
    - a single expert with weight 1 passes through unchanged.
- **Differential-entropy weighting** (`differential_entropy.dfy`, after
  `differential_entropy_weighting`). This is the pipeline that leads into
  `_combine`:
  - zero standard deviations are floored to 1E-9;
  - the floored values are squared into variances;
  - each weight is beta = 0.5 * (log prior_var - log var).

  The contracts cover:
  - positivity of the floored variances;
  - the sign of each weight relative to the prior;
  - idempotence of the flooring;
  - the collapse of the fused result to the prior where every expert is as
    uncertain as the prior.

Arithmetic is over Dafny's exact `real`s and unbounded `int`s. The natural
logarithm is a function parameter `ln`. Where a property needs the log to be
increasing, a lemma takes that as an explicit hypothesis.

Behaviour of the code worth knowing, all of it modelled:

- The short tail of a random partitioning is a group of its own.
  `range(0, num_samples, points_per_expert)` at `partitioning.py:39` is fixed
  before the loop, and the reassignment at `partitioning.py:40-41` only
  shortens the last slice.
- `sigma[sigma == 0] = 1E-9` at `differential_entropy.py:35` overwrites the
  caller's array. `FloorZerosInPlace` models that, and its contract ties the
  array's new contents to `FloorZeros`. `DifferentialEntropyWeightingInPlace`
  states the side effect and the results of a call together;
  `DifferentialEntropyWeighting` takes sigma as a value.
- The code validates nothing.
  - In `random_partitioning`, a points_per_expert of at least n gives a
    single group when n > 0, and none when n = 0. A negative one gives no
    group. A zero one raises from Python's `range`.
  - In `birch_cluster_partitioning`, a zero points_per_expert raises at the
    division, before the clusterer runs.
  - No error is raised for a non-positive or infinite fused variance.

## Model

| member | source | states |
|---|---|---|
| Partitioning.RandomPartitioning | rBCM/partitioning.py:28-43 | A zero points_per_expert raises, and only a zero one. A negative one gives no group. A positive one gives exactly the reference chunks. These concatenate back to the shuffle, and there are ceil(n / k) of them. All but the last have size k; the last has 1..k elements. For a shuffle of 0..n-1 the groups partition 0..n-1. |
| Partitioning.RangeSlices | rBCM/partitioning.py:39-42 | The range loop, including the slice length reassigned on the last pass, builds exactly the reference chunking. |
| Partitioning.ChunkStep | rBCM/partitioning.py:40-42 | One loop pass appends the first chunk of what is left. The chunks taken so far, followed by the chunks of the remainder, stay equal to all the chunks. |
| Partitioning.ChunkingFacts | rBCM/partitioning.py:39-43 | The chunks are a round trip of the sequence under concatenation. There are ceil(n / k) of them, with sizes k and a last size in 1..k. There are none for n = 0 and a single group when n <= k. On a shuffle they form a partition. |
| Partitioning.ChunksFlatten | rBCM/partitioning.py:39-42 | Concatenating the chunks gives back the chunked sequence. |
| Partitioning.ChunksSizes | rBCM/partitioning.py:39-42 | There are no chunks exactly when the input is empty. Every chunk but the last has size k, the last has 1..k elements, and their number m satisfies (m-1)k < n <= mk. |
| Partitioning.CeilDivCharacterization | rBCM/partitioning.py:39 | ceil(n / k) is the only m with (m-1)k < n <= mk, so it is the number of range steps. |
| Partitioning.ChunkElement | rBCM/partitioning.py:42 | Element i of chunk g is element g*k + i of the shuffle, and i < k. |
| Partitioning.ChunksCoverShuffle | rBCM/partitioning.py:35-42 | On a shuffle of 0..n-1, every index 0..n-1 lands in some chunk and the chunks hold nothing else. |
| Partitioning.ChunkPositionsUnique | rBCM/partitioning.py:37-42 | In the chunks of a sequence without repeats, one value sits at one position only. |
| Partitioning.ChunksDisjointOnShuffle | rBCM/partitioning.py:37-42 | No index of a sequence without repeats lies in two chunks. |
| Partitioning.ChunksWithoutDuplicates | rBCM/partitioning.py:37-42 | No chunk of a sequence without repeats holds an index twice. |
| Partitioning.ChunksPartitionShuffle | rBCM/partitioning.py:35-43 | The chunks of a shuffle of 0..n-1 partition 0..n-1. |
| Partitioning.NumClusters | rBCM/partitioning.py:16-17 | A zero divisor raises, and only a zero one. A positive divisor gives the floor of n / points_per_expert. A negative one gives the quotient truncated toward zero, as `int(float(n) / p)` does. |
| Partitioning.InsertSorted | rBCM/partitioning.py:20 | Inserting into an ascending sequence without repeats keeps it ascending without repeats, and adds exactly the new value. |
| Partitioning.Unique | rBCM/partitioning.py:20 | `np.unique` gives a strictly ascending sequence holding exactly the labels that occur. |
| Partitioning.IndicesWithLabel | rBCM/partitioning.py:24 | The comprehension gives the indices carrying the wanted label, ascending, and no others. |
| Partitioning.GroupsByLabelShape | rBCM/partitioning.py:20-24 | There is one group per distinct label. Each group is nonempty and ascending, and holds only indices carrying its label. The groups come in ascending label order. |
| Partitioning.GroupsByLabelPartition | rBCM/partitioning.py:14-24 | Every index 0..n-1 is in some label group and in no other. |
| Partitioning.BirchClusterPartitioning | rBCM/partitioning.py:8-25 | A zero points_per_expert raises at the division, before the clusterer runs. Otherwise there is one nonempty ascending group per distinct label, an index is in group g exactly when it carries label g, and the groups partition 0..n-1. |
| Partitioning.LabelGroups | rBCM/partitioning.py:20-25 | There is one nonempty ascending group per distinct label, in ascending label order. An index is in group g exactly when it carries label g. The groups partition 0..n-1. |
| Combination.SumAppend | rBCM/weighting/differential_entropy.py:94-96 | The accumulated sum over two runs of terms is the sum of the two runs' sums. |
| Combination.DropZeroTerm | rBCM/weighting/differential_entropy.py:82-83 | Dropping a zero term leaves a sum unchanged. |
| Combination.Reciprocals | rBCM/weighting/differential_entropy.py:71 | `1 / var` has var's shape, and each entry times the variance at its position is 1. |
| Combination.DotReciprocals | rBCM/weighting/differential_entropy.py:82 | `np.dot` of the weights with the reciprocal variances is the precision sum of equation 22. |
| Combination.FusedPrecisions | rBCM/weighting/differential_entropy.py:78-85 | left_term + right_term at each location is the precision of equation 22: the sum of beta/var, plus (1/prior_var)(1 - sum beta). |
| Combination.ExpertSum | rBCM/weighting/differential_entropy.py:94-97 | The innermost loop accumulates the equation 21 sum of beta * (1/var) * prediction over the experts. |
| Combination.WeightedSums | rBCM/weighting/differential_entropy.py:90-97 | Entry [loc][feat] of the triple loop is the equation 21 sum for that location and feature, with one row per location and one entry per feature. |
| Combination.Inverses | rBCM/weighting/differential_entropy.py:88 | Each fused variance times the fused precision it inverts is 1. |
| Combination.ScaleRows | rBCM/weighting/differential_entropy.py:99-100 | Row loc of the result is row loc of the sums multiplied by the fused variance at loc. No other entry changes and the shape is kept. |
| Combination.Combine | rBCM/weighting/differential_entropy.py:49-102 | At each location the fused variance times the equation 22 precision is 1. The fused mean of every feature is the fused variance times the equation 21 weighted sum of the experts' predictions. Each location depends only on its own row. |
| Combination.ZeroWeightsGivePrior | rBCM/weighting/differential_entropy.py:81-100 | With every weight zero, the fused precision is 1/prior_var, so the fused variance is prior_var. The weighted sum, and hence the fused mean, is 0. |
| Combination.ZeroWeightExpertIgnored | rBCM/weighting/differential_entropy.py:81-97 | Removing an expert of zero weight leaves the precision and every weighted mean sum unchanged. |
| Combination.DropExpertPrecisionTerms | rBCM/weighting/differential_entropy.py:82 | Removing an expert of zero weight leaves the precision sum of equation 22 unchanged. |
| Combination.DropExpertMeanTerms | rBCM/weighting/differential_entropy.py:94-96 | Removing an expert of zero weight leaves the weighted sum of equation 21 unchanged. |
| Combination.SingleFullWeightExpert | rBCM/weighting/differential_entropy.py:81-100 | A lone expert with weight 1 has its own precision fused, and its mean comes out unchanged. |
| DifferentialEntropy.FloorZeros | rBCM/weighting/differential_entropy.py:33-35 | Flooring keeps the shape, turns exactly the zeros into 1E-9, keeps every other entry, and leaves no zero. |
| DifferentialEntropy.FloorZerosInPlace | rBCM/weighting/differential_entropy.py:35 | The caller's array is overwritten: each entry ends as its floored old value, so the new contents are `FloorZeros` of the old ones. |
| DifferentialEntropy.FloorZerosIdempotent | rBCM/weighting/differential_entropy.py:35 | Flooring an already floored array changes nothing, so a second call on the mutated array sees the same input. |
| DifferentialEntropy.SquareSign | rBCM/weighting/differential_entropy.py:36 | A variance is never negative, and it is zero exactly for a zero standard deviation. |
| DifferentialEntropy.Variances | rBCM/weighting/differential_entropy.py:36 | `np.power(sigma, 2)` keeps the shape, is non-negative, and is zero exactly where sigma is zero. |
| DifferentialEntropy.FlooredVariances | rBCM/weighting/differential_entropy.py:35-36 | After the floor every variance handed to `np.log` and `_combine` is strictly positive. |
| DifferentialEntropy.Beta | rBCM/weighting/differential_entropy.py:37-42 | The weights have the variances' shape, and an expert whose variance equals the prior's gets weight 0. |
| DifferentialEntropy.BetaSignFollowsConfidence | rBCM/weighting/differential_entropy.py:42 | For an increasing log, a weight is positive exactly when the expert's variance is below the prior's. It is negative exactly when the variance is above. |
| DifferentialEntropy.DifferentialEntropyWeighting | rBCM/weighting/differential_entropy.py:6-46 | The results are those of equations 21 and 22 for the weights of the floored variances against prior_std squared. Where every expert's variance is the prior's, the fused variance is prior_var and every fused mean is 0. |
| DifferentialEntropy.DifferentialEntropyWeightingInPlace | rBCM/weighting/differential_entropy.py:33-46 | The call overwrites the caller's sigma array with its floored contents. Its results are those of equations 21 and 22 for the weights of the floored array, and these equal the variances and weights of the array's old contents. |
| DifferentialEntropy.CollapsesWhereAllAtPrior | rBCM/weighting/differential_entropy.py:35-46 | At every location where all experts are as uncertain as the prior, the fused results collapse to the prior. |
| DifferentialEntropy.FusedAtPrior | rBCM/weighting/differential_entropy.py:85-100 | At such a location the fused variance is prior_var and each fused mean is 0. |
| DifferentialEntropy.PriorLocationCollapses | rBCM/weighting/differential_entropy.py:81-97 | At such a location the precision is 1/prior_var and every weighted mean sum is 0. |
| DifferentialEntropy.PriorExpertsHaveZeroWeight | rBCM/weighting/differential_entropy.py:35-42 | An expert whose standard deviation squares to prior_var keeps that variance through the floor and gets weight 0. |

## Left out

- Randomness: `np.random.shuffle` (line 37 of `partitioning.py`) is not modelled. Its result is the input `shuffled`, and `IsShuffle` states what a shuffle of 0..n-1 is.
- The Birch clusterer (lines 18-19 of `partitioning.py`) is not modelled. sklearn's `Birch` is not part of this model, so its labels are an input. `NumClusters` models only the count handed to it, not how the clusterer uses that count, for example a count of 0.
- BirchClusterPartitioning: returns the label grouping for every nonzero points_per_expert and for n = 0. sklearn's `Birch` (lines 18-19) rejects a cluster count below 1, which arises when points_per_expert > n or < 0, and it rejects an empty sample matrix. Those rejections come from the clusterer, which is not part of this model.
- NumClusters: the model divides exactly. It does not model the rounding of `float(n)` for n beyond 2^53.
- Floating point: IEEE rounding, infinities and NaN are not modelled. Python arithmetic is exact real arithmetic here.
  - The natural logarithm is the parameter `ln`. Only its monotonicity is used, as an explicit hypothesis.
  - `Sum` adds left to right, as the loop at lines 94-96 of `differential_entropy.py` does. `np.dot` and `np.sum` at lines 82-83 add in numpy's own order. Over exact reals the order does not matter, and rounding is not modelled.
- Combine: requires a nonzero precision at every location. For a zero precision the source computes `1 / 0` and numpy yields an infinite variance without raising. The model states nothing about that case.
- DifferentialEntropyWeighting: requires prior_std != 0 and a nonzero precision at every location. For prior_std = 0 the source takes `log(0)` and `1 / 0`, which numpy turns into infinities. Infinities are outside the model.
- DifferentialEntropyWeightingInPlace: has the same two requirements as DifferentialEntropyWeighting, for the same reason.
- Array shapes: numpy arrays are nested sequences. `Conformant` requires the location and expert axes of predictions, variances and weights to agree. Mismatched shapes are outside the model. That excludes inputs the source rejects with an `IndexError`, but also inputs it silently accepts, because `_combine` takes its loop bounds from `predictions` (`differential_entropy.py:73-75`):
  - With fewer locations in `predictions` than rows in sigma, the extra rows are ignored.
  - With fewer experts in `predictions` than columns in sigma, the equation 22 `np.dot` at line 82 still covers every expert, while the equation 21 loop at lines 95-96 sums only the first `predictions.shape[2]` experts.
- Broadcasting: `np.repeat` and the `np.newaxis` broadcast of the prior term (lines 39 and 42) are folded into `Beta`, which uses one prior term for every location.
- `preds_old, var_old` (line 45) only renames the results of `_combine`.
