/** Python's `range(lo, hi)` as a sequence of integers, how often a value occurs
    in a sequence, and what it means for a list of indices to be a rearrangement
    of `range(n)`. */
module Ranges {

  /** The values lo, lo+1, ..., hi-1 in increasing order (empty when hi <= lo). */
  function Range(lo: int, hi: int): (r: seq<int>)
    ensures |r| == if hi <= lo then 0 else hi - lo
    decreases hi - lo
  {
    if hi <= lo then [] else Range(lo, hi - 1) + [hi - 1]
  }

  /** Position i of a range holds lo + i. */
  lemma {:induction false} RangeAt(lo: int, hi: int, i: int)
    requires 0 <= i < hi - lo
    ensures Range(lo, hi)[i] == lo + i
    decreases hi - lo
  {
    if i < hi - lo - 1 {
      RangeAt(lo, hi - 1, i);
    }
  }

  /** The number of positions of s that hold v. */
  function Occurrences(s: seq<int>, v: int): nat
  {
    if s == [] then 0 else Occurrences(s[..|s| - 1], v) + (if s[|s| - 1] == v then 1 else 0)
  }

  /** A one-element sequence counts its element once. */
  lemma OccurrencesOne(x: int, v: int)
    ensures Occurrences([x], v) == if x == v then 1 else 0
  {
  }

  /** Counting distributes over concatenation. */
  lemma {:induction false} OccurrencesAppend(a: seq<int>, b: seq<int>, v: int)
    ensures Occurrences(a + b, v) == Occurrences(a, v) + Occurrences(b, v)
    decreases |b|
  {
    if b == [] {
      assert a + b == a;
    } else {
      OccurrencesAppend(a, b[..|b| - 1], v);
      assert (a + b)[..|a + b| - 1] == a + b[..|b| - 1];
    }
  }

  /** Occurrences is the multiplicity of v in the multiset of s. */
  lemma {:induction false} OccurrencesIsMultiplicity(s: seq<int>, v: int)
    ensures Occurrences(s, v) == multiset(s)[v]
    decreases |s|
  {
    if s != [] {
      var front, last := s[..|s| - 1], s[|s| - 1];
      OccurrencesIsMultiplicity(front, v);
      assert s == front + [last];
      assert multiset(s) == multiset(front) + multiset{last};
    }
  }

  /** A value occurs in s exactly when it is counted at least once. */
  lemma {:induction false} OccursIffCounted(s: seq<int>, v: int)
    ensures v in s <==> Occurrences(s, v) > 0
    decreases |s|
  {
    if s != [] {
      var front := s[..|s| - 1];
      OccursIffCounted(front, v);
      assert s == front + [s[|s| - 1]];
    }
  }

  /** Every value of [lo, hi) occurs exactly once in the range, and nothing else occurs. */
  lemma {:induction false} RangeOccurrences(lo: int, hi: int, v: int)
    ensures Occurrences(Range(lo, hi), v) == if lo <= v < hi then 1 else 0
    decreases hi - lo
  {
    if lo < hi {
      RangeOccurrences(lo, hi - 1, v);
      OccurrencesAppend(Range(lo, hi - 1), [hi - 1], v);
      OccurrencesOne(hi - 1, v);
    }
  }

  /** s is a rearrangement of range(n): it has n elements and holds each of
      0, ..., n-1 exactly once and nothing else. */
  ghost predicate IsPermutationOfRange(s: seq<int>, n: nat)
  {
    && |s| == n
    && forall v :: Occurrences(s, v) == if 0 <= v < n then 1 else 0
  }

  /** Having the same multiset as range(n) is being a rearrangement of it. */
  lemma SameMultisetAsRange(s: seq<int>, n: nat)
    requires multiset(s) == multiset(Range(0, n))
    ensures IsPermutationOfRange(s, n)
  {
    calc {
      |s|;
      |multiset(s)|;
      |multiset(Range(0, n))|;
      |Range(0, n)|;
    }
    forall v ensures Occurrences(s, v) == if 0 <= v < n then 1 else 0 {
      OccurrencesIsMultiplicity(s, v);
      OccurrencesIsMultiplicity(Range(0, n), v);
      RangeOccurrences(0, n, v);
    }
  }

  /** A value that sits at two different positions of s is counted at least twice. */
  lemma RepeatedValueCountsTwice(s: seq<int>, p: nat, q: nat)
    requires p < q < |s| && s[p] == s[q]
    ensures Occurrences(s, s[p]) >= 2
  {
    var v := s[p];
    var front, back := s[..q], s[q..];
    assert s == front + back;
    OccurrencesAppend(front, back, v);
    assert front[p] == v;
    OccursIffCounted(front, v);
    assert back == [v] + back[1..];
    OccurrencesAppend([v], back[1..], v);
    OccurrencesOne(v, v);
  }

  /** What "rearrangement of range(n)" gives element by element: every value
      of [0, n) is present, nothing else is, and no value sits at two positions. */
  lemma PermutationOfRangeFacts(s: seq<int>, n: nat)
    requires IsPermutationOfRange(s, n)
    ensures forall v :: v in s <==> 0 <= v < n
    ensures forall p, q :: 0 <= p < q < |s| ==> s[p] != s[q]
  {
    forall v ensures v in s <==> 0 <= v < n {
      OccursIffCounted(s, v);
    }
    forall p, q | 0 <= p < q < |s| ensures s[p] != s[q] {
      if s[p] == s[q] {
        RepeatedValueCountsTwice(s, p, q);
      }
    }
  }
}
