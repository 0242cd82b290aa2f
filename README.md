# First-last sampling and train/validation index splitting

A Dafny model of the index logic in `hw1/dataloaders.py`, a small helper
module for a machine-learning training pipeline. It covers two parts:

* **First-last sampler** (`FirstLastSampler` class). For a data source of
  `n` elements it yields the indices in the order `0, n-1, 1, n-2, ...`. The
  loop runs `(n+1)//2` rounds. Round `i` appends `i`, then appends `n-1-i`
  unless that is the same index, so the middle index of an odd-length source
  is not emitted twice. `__len__` reports `n`. The data source is used only
  through its length, so the model takes that length as its input.
* **Train/validation index split** (`create_train_validation_loaders`). The
  function rejects a ratio outside the open interval (0, 1) with
  `ValueError(ratio)`. Otherwise it builds `list(range(N))`, computes
  `split = floor(ratio * N)`, shuffles the list in place, and cuts it into
  `indices[split:]` for training and `indices[:split]` for validation.

The files are:

* `results.dfy`: a `Result` type standing for "returns a value or raises".
* `ranges.dfy`: Python's `range` as a sequence and a count of occurrences.
  It also defines `IsPermutationOfRange(s, n)`: `s` has `n` elements and
  holds each of `0..n-1` exactly once.
* `first_last_sampler.dfy`: the sampler's loop as a method (`Iterate`). The
  method is checked against a functional definition of the same rounds
  (`FirstLastPrefix`, `FirstLastOrder`). Lemmas prove that the order is a
  permutation of `range(n)`, the positional pattern, the midpoint behaviour
  and the small cases.
* `train_validation_split.dfy`: the ratio guard and the exact split point.
  The shuffle is an in-place method on an array. It is a Fisher-Yates pass
  whose random choices are left unconstrained, so it promises only that the
  result is a rearrangement of its input. The split method is proved
  correct for every rearrangement the shuffle can produce.

## Model

| member | source | states |
|---|---|---|
| `Ranges.Range` | hw1/dataloaders.py:69 | `range(lo, hi)` has `hi - lo` elements when non-empty and none otherwise |
| `FirstLastSampler.FirstLastPrefix` | hw1/dataloaders.py:30-33 | after `k` rounds the list has two indices per round. The exception is an odd `n` at its last round, where the total is exactly `n` |
| `FirstLastSampler.Iterate` | hw1/dataloaders.py:22-34 | the loop's list equals the functional first-last order, has `n` elements, and is a permutation of `range(n)` |
| `FirstLastSampler.Length` | hw1/dataloaders.py:38-39 | `__len__` equals the number of indices one pass of `__iter__` yields |
| `FirstLastSampler.PrefixOccurrences` | hw1/dataloaders.py:30-33 | after `k` rounds with `2k <= n`, the indices `0..k-1` and `n-k..n-1` each occur exactly once. No other value occurs |
| `FirstLastSampler.FirstLastIsPermutation` | hw1/dataloaders.py:28-34 | the full order has length `n` and contains every index of `[0, n)` exactly once and nothing else |
| `FirstLastSampler.PrefixPositions` | hw1/dataloaders.py:30-33 | after `k` rounds, position `2i` holds `i`, and position `2i+1`, when it exists, holds `n-1-i` |
| `FirstLastSampler.FirstLastPositions` | hw1/dataloaders.py:28-34 | in the full order, position `2i` holds `i` for each `i < (n+1)//2`, and position `2i+1`, when it exists, holds `n-1-i` |
| `FirstLastSampler.MiddleIndex` | hw1/dataloaders.py:32-33 | for either parity the last index emitted is `n//2`. For odd `n` this middle index occurs exactly once |
| `FirstLastSampler.SmallCases` | hw1/dataloaders.py:26 | the orders for `n` = 0, 1, 2, 5, 6 are `[]`, `[0]`, `[0,1]`, `[0,4,1,3,2]`, `[0,5,1,4,2,3]` |
| `FirstLastSampler.TwoPasses` | hw1/dataloaders.py:28-34 | two iterations over the same data source yield the same order |
| `TrainValidationSplit.SplitPoint` | hw1/dataloaders.py:70 | the split point is the floor of `ratio * N`, so `split <= ratio*N < split + 1`. For a valid ratio it is at most `N`, and strictly below `N` when `N > 0` |
| `TrainValidationSplit.Shuffle` | hw1/dataloaders.py:73 | the shuffled array is a rearrangement of its old contents (same multiset) |
| `TrainValidationSplit.CutPermutation` | hw1/dataloaders.py:76 | cutting any rearrangement of `range(n)` at `split` gives parts of sizes `split` and `n - split`. The parts share no index and together hold exactly `[0, n)` |
| `TrainValidationSplit.CreateTrainValidationIndices` | hw1/dataloaders.py:55-76 | fails exactly when the ratio is not strictly between 0 and 1, and the error carries the ratio. On success: validation has `floor(ratio*N)` indices and training has the rest; the parts are disjoint, together hold exactly `[0, N)`, and validation followed by training is a permutation of `range(N)` |

## Left out

- `SubsetRandomSampler`, `DataLoader`, `batch_size` and `num_workers` (hw1/dataloaders.py:79-87) are torch library objects. They do the per-epoch reordering, the batching and the worker processes. The model stops at the two index lists that are handed to them, and returns those lists in place of the two loaders.
- `np.random.shuffle` (hw1/dataloaders.py:73): the distribution and the seeding are not modelled. The shuffle is any rearrangement, chosen nondeterministically.
- `validation_ratio * total_size` and `np.floor` (hw1/dataloaders.py:70) are computed in exact real arithmetic. IEEE rounding is not modelled. A NaN ratio is not modelled either: Python rejects it because every comparison with NaN is false, and Dafny's `real` has no NaN.
- The `Sampler` base constructor and the stored `data_source` (hw1/dataloaders.py:14-20) are represented only by the length of the data source. A data source whose length changes between `__len__` and `__iter__` is not modelled.
- The Python iterator protocol (`iter(indices)`, hw1/dataloaders.py:34): the model returns the list itself as a sequence.
