/**
 * Step 4 of decodeSigil: the 16 samples are sorted, the ninth smallest one
 * (sorted[8]) is taken as the threshold, and a cell reads dark (1) exactly
 * when its sample is strictly below that threshold.
 */
module Threshold {
  import opened Layout

  /** A pixel of the 8-bit grey warped image. */
  type Sample = v: int | 0 <= v < 256

  predicate SortedUp(xs: seq<int>)
  {
    forall i, j :: 0 <= i < j < |xs| ==> xs[i] <= xs[j]
  }

  /** The number of entries of xs strictly below v. */
  function CountBelow(xs: seq<int>, v: int): (n: nat)
    ensures n <= |xs|
  {
    if xs == [] then 0 else (if xs[0] < v then 1 else 0) + CountBelow(xs[1..], v)
  }

  lemma {:induction false} CountBelowAppend(a: seq<int>, b: seq<int>, v: int)
    ensures CountBelow(a + b, v) == CountBelow(a, v) + CountBelow(b, v)
  {
    if a == [] {
      assert a + b == b;
    } else {
      assert (a + b)[1..] == a[1..] + b;
      CountBelowAppend(a[1..], b, v);
    }
  }

  lemma {:induction false} CountBelowNone(xs: seq<int>, v: int)
    requires forall i :: 0 <= i < |xs| ==> v <= xs[i]
    ensures CountBelow(xs, v) == 0
  {
    if xs != [] {
      CountBelowNone(xs[1..], v);
    }
  }

  lemma {:induction false} CountBelowAll(xs: seq<int>, v: int)
    requires forall i :: 0 <= i < |xs| ==> xs[i] < v
    ensures CountBelow(xs, v) == |xs|
  {
    if xs != [] {
      CountBelowAll(xs[1..], v);
    }
  }

  /** x put into its place in the ascending sequence xs. */
  function InsertSorted(x: int, xs: seq<int>): (r: seq<int>)
    requires SortedUp(xs)
    ensures SortedUp(r)
    ensures |r| == |xs| + 1 && multiset(r) == multiset(xs) + multiset{x}
    ensures r[0] == x || (xs != [] && r[0] == xs[0])
  {
    if xs == [] || x <= xs[0] then
      [x] + xs
    else
      var rest := InsertSorted(x, xs[1..]);
      assert xs == [xs[0]] + xs[1..];
      [xs[0]] + rest
  }

  /** Putting x in its place adds x to the count of every bound above it. */
  lemma {:induction false} InsertSortedCount(x: int, xs: seq<int>, v: int)
    requires SortedUp(xs)
    ensures CountBelow(InsertSorted(x, xs), v) == CountBelow(xs, v) + (if x < v then 1 else 0)
  {
    var r := InsertSorted(x, xs);
    if xs == [] || x <= xs[0] {
      assert r[1..] == xs;
    } else {
      assert r[1..] == InsertSorted(x, xs[1..]);
      InsertSortedCount(x, xs[1..], v);
    }
  }

  /**
   * The copy of the samples in ascending numeric order ([...samples].sort
   * with the comparator a - b): sorted, and a rearrangement of the input.
   */
  function SortAscending(xs: seq<int>): (r: seq<int>)
    ensures SortedUp(r)
    ensures |r| == |xs| && multiset(r) == multiset(xs)
  {
    if xs == [] then
      []
    else
      assert xs == [xs[0]] + xs[1..];
      InsertSorted(xs[0], SortAscending(xs[1..]))
  }

  /** Sorting keeps the number of entries below every bound. */
  lemma {:induction false} SortAscendingCount(xs: seq<int>, v: int)
    ensures CountBelow(SortAscending(xs), v) == CountBelow(xs, v)
  {
    if xs != [] {
      SortAscendingCount(xs[1..], v);
      InsertSortedCount(xs[0], SortAscending(xs[1..]), v);
    }
  }

  /** The threshold: the ninth smallest of the 16 samples, sorted[8]. */
  function Median(samples: seq<Sample>): int
    requires |samples| == CellCount
  {
    SortAscending(samples)[8]
  }

  /** In an ascending sequence at most k entries lie strictly below the k-th. */
  lemma SortedRankBelow(sorted: seq<int>, k: int)
    requires SortedUp(sorted) && 0 <= k < |sorted|
    ensures CountBelow(sorted, sorted[k]) <= k
  {
    var m := sorted[k];
    var lo, hi := sorted[..k], sorted[k..];
    assert sorted == lo + hi;
    CountBelowAppend(lo, hi, m);
    assert forall i :: 0 <= i < |hi| ==> m <= hi[i];
    CountBelowNone(hi, m);
    assert CountBelow(lo, m) <= |lo|;
  }

  /** In an ascending sequence at least k + 1 entries lie below any bound above the k-th. */
  lemma SortedRankAtOrBelow(sorted: seq<int>, k: int, v: int)
    requires SortedUp(sorted) && 0 <= k < |sorted| && sorted[k] < v
    ensures CountBelow(sorted, v) >= k + 1
  {
    var lo, hi := sorted[..k + 1], sorted[k + 1..];
    assert sorted == lo + hi;
    CountBelowAppend(lo, hi, v);
    assert forall i :: 0 <= i < |lo| ==> lo[i] < v;
    CountBelowAll(lo, v);
    assert CountBelow(lo, v) == k + 1;
    assert CountBelow(sorted, v) == CountBelow(lo, v) + CountBelow(hi, v);
  }

  /**
   * The threshold is one of the samples, at most 8 samples lie strictly below
   * it, and at least 9 lie below any bound above it: it is the ninth smallest.
   */
  lemma MedianRank(samples: seq<Sample>)
    requires |samples| == CellCount
    ensures Median(samples) in samples
    ensures CountBelow(samples, Median(samples)) <= 8
    ensures forall v :: Median(samples) < v ==> CountBelow(samples, v) >= 9
  {
    var sorted := SortAscending(samples);
    assert sorted[8] in multiset(sorted);
    SortAscendingCount(samples, sorted[8]);
    SortedRankBelow(sorted, 8);
    forall v | sorted[8] < v ensures CountBelow(samples, v) >= 9 {
      SortAscendingCount(samples, v);
      SortedRankAtOrBelow(sorted, 8, v);
    }
  }

  predicate Distinct(xs: seq<int>)
  {
    forall i, j :: 0 <= i < j < |xs| ==> xs[i] != xs[j]
  }

  /** In a sequence without repeats every value occurs at most once. */
  lemma {:induction false} DistinctOccursOnce(xs: seq<int>, v: int)
    requires Distinct(xs)
    ensures multiset(xs)[v] <= 1
  {
    if xs != [] {
      assert xs == [xs[0]] + xs[1..];
      assert Distinct(xs[1..]);
      DistinctOccursOnce(xs[1..], v);
      if xs[0] == v {
        assert v !in xs[1..];
      }
    }
  }

  /** A value found at two positions occurs at least twice. */
  lemma RepeatCounted(s: seq<int>, i: int, j: int)
    requires 0 <= i < j < |s| && s[i] == s[j]
    ensures multiset(s)[s[i]] >= 2
  {
    var lo, hi := s[..j], s[j..];
    assert s == lo + hi;
    assert lo[i] == s[i] && hi[0] == s[i];
    assert s[i] in multiset(lo) && s[i] in multiset(hi);
  }

  /** When no two samples are equal, exactly 8 of them lie strictly below the threshold. */
  lemma MedianSplitsDistinct(samples: seq<Sample>)
    requires |samples| == CellCount && Distinct(samples)
    ensures CountBelow(samples, Median(samples)) == 8
  {
    var sorted := SortAscending(samples);
    var m := sorted[8];
    DistinctOccursOnce(samples, m);
    if sorted[7] == m {
      RepeatCounted(sorted, 7, 8);
      assert false;
    }
    SortAscendingCount(samples, m);
    SortedRankBelow(sorted, 8);
    SortedRankAtOrBelow(sorted, 7, m);
  }

  /** One bit per sample: 1 (dark) for a sample strictly below v, 0 (light) otherwise. */
  function Classify(xs: seq<int>, v: int): (bits: seq<int>)
    ensures |bits| == |xs|
    ensures forall i :: 0 <= i < |xs| ==> bits[i] == (if xs[i] < v then 1 else 0)
  {
    if xs == [] then [] else [if xs[0] < v then 1 else 0] + Classify(xs[1..], v)
  }

  /** The number of dark (1) bits. */
  function DarkCount(bits: seq<int>): nat
  {
    if bits == [] then 0 else (if bits[0] == 1 then 1 else 0) + DarkCount(bits[1..])
  }

  /** Classifying against v marks as many cells dark as there are samples below v. */
  lemma {:induction false} DarkCountOfClassify(xs: seq<int>, v: int)
    ensures DarkCount(Classify(xs, v)) == CountBelow(xs, v)
  {
    if xs != [] {
      assert Classify(xs, v)[1..] == Classify(xs[1..], v);
      DarkCountOfClassify(xs[1..], v);
    }
  }

  /** The bits of decodeSigil: each sample compared with the threshold. */
  function BitsOf(samples: seq<Sample>): (bits: seq<int>)
    requires |samples| == CellCount
    ensures |bits| == CellCount
    ensures forall i :: 0 <= i < CellCount ==> bits[i] == 0 || bits[i] == 1
  {
    Classify(samples, Median(samples))
  }

  /** At most 8 cells read dark, and exactly 8 when no two samples are equal. */
  lemma DarkCellsAtMostEight(samples: seq<Sample>)
    requires |samples| == CellCount
    ensures DarkCount(BitsOf(samples)) <= 8
    ensures Distinct(samples) ==> DarkCount(BitsOf(samples)) == 8
  {
    DarkCountOfClassify(samples, Median(samples));
    MedianRank(samples);
    if Distinct(samples) {
      MedianSplitsDistinct(samples);
    }
  }

  /** A cell darker than a dark cell is dark; a cell lighter than a light cell is light. */
  lemma BitsFollowLuminance(samples: seq<Sample>, i: int, j: int)
    requires |samples| == CellCount && 0 <= i < CellCount && 0 <= j < CellCount
    requires samples[i] <= samples[j]
    ensures BitsOf(samples)[j] == 1 ==> BitsOf(samples)[i] == 1
    ensures BitsOf(samples)[i] == 0 ==> BitsOf(samples)[j] == 0
  {
  }

  /** The thresholding loop of decodeSigil. */
  method Binarize(samples: seq<Sample>) returns (bits: seq<int>)
    requires |samples| == CellCount
    ensures bits == BitsOf(samples)
  {
    var sorted := SortAscending(samples);
    var median := sorted[8];
    bits := [];
    for i := 0 to CellCount
      invariant |bits| == i
      invariant forall i' :: 0 <= i' < i ==> bits[i'] == (if samples[i'] < median then 1 else 0)
    {
      var val := if samples[i] < median then 1 else 0;
      bits := bits + [val];
    }
  }
}
