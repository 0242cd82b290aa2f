/** The index partition behind `create_train_validation_loaders` in
    hw1/dataloaders.py: check the validation ratio, list the indices of the
    dataset, shuffle them, and cut the shuffled list into a validation part
    (the first floor(ratio * N) indices) and a training part (the rest).
    The dataset matters only through its size N. */
module TrainValidationSplit {

  import opened Ranges
  import opened Results

  /** The one error the split raises: `ValueError(validation_ratio)`. */
  datatype SplitError = ValueError(ratio: real)

  /** The training and validation index lists handed to the two loaders. */
  datatype Split = Split(train: seq<int>, validation: seq<int>)

  /** The ratio must lie strictly between 0 and 1. */
  predicate ValidRatio(ratio: real)
  {
    0.0 < ratio < 1.0
  }

  /** `int(floor(validation_ratio * total_size))`, computed exactly. A valid ratio
      never cuts past the end, and leaves at least one training index when there
      is any index at all. */
  function SplitPoint(ratio: real, total: nat): (split: nat)
    requires ValidRatio(ratio)
    ensures split as real <= ratio * total as real < split as real + 1.0
    ensures split <= total
    ensures total > 0 ==> split < total
  {
    var product := ratio * total as real;
    ScaledBelow(ratio, total as real);
    assert product.Floor as real <= product;
    assert total > 0 ==> product.Floor as real < total as real;
    product.Floor
  }

  /** Scaling by a ratio in (0, 1) keeps a non-negative amount between 0 and itself. */
  lemma ScaledBelow(ratio: real, amount: real)
    requires ValidRatio(ratio) && amount >= 0.0
    ensures 0.0 <= ratio * amount <= amount
    ensures amount > 0.0 ==> ratio * amount < amount
  {
  }

  /** `np.random.shuffle`: some rearrangement of the array, chosen by a
      Fisher-Yates pass whose random choices are left open. */
  method Shuffle(a: array<int>)
    modifies a
    ensures multiset(a[..]) == multiset(old(a[..]))
  {
    var i := a.Length;
    while i > 1
      invariant 0 <= i <= a.Length
      invariant multiset(a[..]) == multiset(old(a[..]))
    {
      var j :| 0 <= j < i;
      a[i - 1], a[j] := a[j], a[i - 1];
      i := i - 1;
    }
  }

  /** Cutting any rearrangement of range(n) at any point gives two lists of the
      expected sizes that share no index and together hold every index of [0, n). */
  lemma CutPermutation(s: seq<int>, n: nat, split: nat)
    requires IsPermutationOfRange(s, n) && split <= n
    ensures |s[..split]| == split && |s[split..]| == n - split
    ensures forall v :: v in s[split..] ==> v !in s[..split]
    ensures forall v :: v in s[split..] || v in s[..split] <==> 0 <= v < n
  {
    PermutationOfRangeFacts(s, n);
    var validation, train := s[..split], s[split..];
    assert s == validation + train;
    forall v ensures v in train || v in validation <==> v in s {
      if v in s {
        var p :| 0 <= p < |s| && s[p] == v;
        if p < split {
          assert validation[p] == v;
        } else {
          assert train[p - split] == v;
        }
      }
    }
  }

  /** The index partition of `create_train_validation_loaders`: the ratio guard,
      `list(range(total_size))`, the split point, the in-place shuffle and the
      two slices. */
  method CreateTrainValidationIndices(totalSize: nat, validationRatio: real)
    returns (r: Result<Split, SplitError>)
    ensures r.Failure? <==> !ValidRatio(validationRatio)
    ensures r.Failure? ==> r.error == ValueError(validationRatio)
    ensures r.Success? ==> |r.value.validation| == SplitPoint(validationRatio, totalSize)
    ensures r.Success? ==> |r.value.train| == totalSize - SplitPoint(validationRatio, totalSize)
    ensures r.Success? ==> forall v :: v in r.value.train ==> v !in r.value.validation
    ensures r.Success? ==> forall v :: v in r.value.train || v in r.value.validation <==> 0 <= v < totalSize
    ensures r.Success? ==> IsPermutationOfRange(r.value.validation + r.value.train, totalSize)
  {
    if !(0.0 < validationRatio < 1.0) {
      return Failure(ValueError(validationRatio));
    }
    var indices := new int[totalSize];
    forall k | 0 <= k < totalSize {
      indices[k] := k;
    }
    forall k | 0 <= k < totalSize ensures indices[k] == Range(0, totalSize)[k] {
      RangeAt(0, totalSize, k);
    }
    assert indices[..] == Range(0, totalSize);
    var split := SplitPoint(validationRatio, totalSize);
    Shuffle(indices);
    SameMultisetAsRange(indices[..], totalSize);
    var shuffled := indices[..];
    CutPermutation(shuffled, totalSize, split);
    assert shuffled[..split] + shuffled[split..] == shuffled;
    r := Success(Split(shuffled[split..], shuffled[..split]));
  }
}
