/** The first-last sampler of hw1/dataloaders.py: for a data source of n
    elements it visits the indices in the order 0, n-1, 1, n-2, ...
    The data source matters only through its length, so it is represented
    here by that length n. */
module FirstLastSampler {

  import opened Ranges

  /** The indices appended by the first k rounds of the sampler's loop: round i
      appends i, then n-1-i unless that is the same index. */
  function FirstLastPrefix(n: nat, k: nat): (r: seq<int>)
    requires 2 * k <= n + 1
    ensures |r| == if 2 * k <= n then 2 * k else n
    decreases k
  {
    if k == 0 then []
    else
      var i := k - 1;
      FirstLastPrefix(n, i) + (if i != n - 1 - i then [i, n - 1 - i] else [i])
  }

  /** The whole first-last ordering: all (n+1)/2 rounds of the loop. */
  function FirstLastOrder(n: nat): seq<int>
  {
    FirstLastPrefix(n, (n + 1) / 2)
  }

  /** `__iter__`: builds the index list round by round, as the source's loop does. */
  method Iterate(n: nat) returns (indices: seq<int>)
    ensures indices == FirstLastOrder(n)
    ensures |indices| == n
    ensures IsPermutationOfRange(indices, n)
  {
    indices := [];
    var i := 0;
    while i < (n + 1) / 2
      invariant i <= (n + 1) / 2
      invariant indices == FirstLastPrefix(n, i)
    {
      indices := indices + [i];
      if i != n - 1 - i {
        indices := indices + [n - 1 - i];
      }
      i := i + 1;
    }
    FirstLastIsPermutation(n);
  }

  /** `__len__`: the length of the data source, which is also the number of
      indices one pass of the sampler yields. */
  function Length(n: nat): (r: nat)
    ensures r == |FirstLastOrder(n)|
  {
    n
  }

  /** After k rounds with 2k <= n, each of the low indices 0..k-1 and the high
      indices n-k..n-1 has been emitted exactly once, and nothing else has. */
  lemma {:induction false} PrefixOccurrences(n: nat, k: nat, v: int)
    requires 2 * k <= n
    ensures Occurrences(FirstLastPrefix(n, k), v) == if 0 <= v < k || n - k <= v < n then 1 else 0
    decreases k
  {
    if k > 0 {
      var j := k - 1;
      var prev, hi := FirstLastPrefix(n, j), n - 1 - j;
      PrefixOccurrences(n, j, v);
      assert FirstLastPrefix(n, k) == prev + ([j] + [hi]);
      OccurrencesAppend(prev, [j] + [hi], v);
      OccurrencesAppend([j], [hi], v);
      OccurrencesOne(j, v);
      OccurrencesOne(hi, v);
    }
  }

  /** Every index of [0, n) appears exactly once in the first-last ordering. */
  lemma FirstLastIsPermutation(n: nat)
    ensures IsPermutationOfRange(FirstLastOrder(n), n)
  {
    var k := (n + 1) / 2;
    forall v ensures Occurrences(FirstLastOrder(n), v) == if 0 <= v < n then 1 else 0 {
      if n % 2 == 0 {
        PrefixOccurrences(n, k, v);
      } else {
        var j := k - 1;
        var prev := FirstLastPrefix(n, j);
        assert j == n - 1 - j;
        PrefixOccurrences(n, j, v);
        assert FirstLastPrefix(n, k) == prev + [j];
        OccurrencesAppend(prev, [j], v);
        OccurrencesOne(j, v);
      }
    }
  }

  /** The positional pattern: round i puts i at position 2i and n-1-i at
      position 2i+1, whenever that position exists. */
  lemma {:induction false} PrefixPositions(n: nat, k: nat, i: nat)
    requires 2 * k <= n + 1 && i < k
    ensures 2 * i < |FirstLastPrefix(n, k)| && FirstLastPrefix(n, k)[2 * i] == i
    ensures 2 * i + 1 < |FirstLastPrefix(n, k)| ==> FirstLastPrefix(n, k)[2 * i + 1] == n - 1 - i
    decreases k
  {
    if i < k - 1 {
      PrefixPositions(n, k - 1, i);
    }
  }

  /** The same pattern for the full ordering. */
  lemma FirstLastPositions(n: nat, i: nat)
    requires i < (n + 1) / 2
    ensures 2 * i < n && FirstLastOrder(n)[2 * i] == i
    ensures 2 * i + 1 < n ==> FirstLastOrder(n)[2 * i + 1] == n - 1 - i
  {
    PrefixPositions(n, (n + 1) / 2, i);
  }

  /** The midpoint guard: the last index emitted is n/2 for either parity, and
      for odd n that middle index is emitted only once. */
  lemma MiddleIndex(n: nat)
    requires n > 0
    ensures FirstLastOrder(n)[n - 1] == n / 2
    ensures n % 2 == 1 ==> Occurrences(FirstLastOrder(n), n / 2) == 1
  {
    if n % 2 == 1 {
      FirstLastPositions(n, n / 2);
    } else {
      FirstLastPositions(n, n / 2 - 1);
    }
    FirstLastIsPermutation(n);
  }

  /** The orderings for small data sources. */
  lemma SmallCases()
    ensures FirstLastOrder(0) == []
    ensures FirstLastOrder(1) == [0]
    ensures FirstLastOrder(2) == [0, 1]
    ensures FirstLastOrder(5) == [0, 4, 1, 3, 2]
    ensures FirstLastOrder(6) == [0, 5, 1, 4, 2, 3]
  {
  }

  /** Two passes over the same data source yield the same order. */
  method TwoPasses(n: nat) returns (first: seq<int>, second: seq<int>)
    ensures first == second
  {
    first := Iterate(n);
    second := Iterate(n);
  }
}
