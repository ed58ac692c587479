/** calculate/median.py: the median of a list of numbers, read from a sorted float copy. */
module Median {
  import opened Python
  import opened SeqMath
  import opened Sorting

  /** The middle of the sorted values: sorted[n / 2] for odd n, otherwise the mean of
      sorted[n / 2 - 1] and sorted[n / 2]; on an empty list index -1 is an IndexError. */
  function MedianOf(sorted: seq<real>): (r: Result<real>)
    ensures r.Raise? <==> |sorted| == 0
    ensures r.Raise? ==> r.error == IndexError
  {
    var n := |sorted|;
    if n % 2 == 1 then Ok(sorted[n / 2])
    else if n == 0 then PyIndex(sorted, n / 2 - 1)
    else Ok((sorted[n / 2 - 1] + sorted[n / 2]) / 2.0)
  }

  /** median(data_list): map(float, data_list), sorted in place, then its middle. */
  method Median(data: Arg<Obj>) returns (r: Result<real>)
    ensures FloatList(data).Raise? ==> r == Raise(FloatList(data).error)
    ensures FloatList(data).Ok? ==> r == MedianOf(SortSeq(FloatList(data).value))
  {
    var converted := FloatList(data);
    if converted.Raise? {
      return Raise(converted.error);
    }
    var a := SortedCopy(converted.value);
    r := MedianOf(a[..]);
  }

  /** The median lies between the smallest and the largest value, and at least half
      of the values lie at or below it and at least half at or above it. */
  lemma {:induction false} MedianSplits(xs: seq<real>)
    requires |xs| > 0
    ensures MedianOf(SortSeq(xs)).Ok?
    ensures var m := MedianOf(SortSeq(xs)).value;
            IsMin(SortSeq(xs)[0], xs) && IsMax(SortSeq(xs)[|xs| - 1], xs)
            && SortSeq(xs)[0] <= m <= SortSeq(xs)[|xs| - 1]
    ensures var m := MedianOf(SortSeq(xs)).value;
            2 * CountAtMost(xs, m) >= |xs| && 2 * CountAtLeast(xs, m) >= |xs|
  {
    var s := SortSeq(xs);
    var n := |xs|;
    SortSeqEnds(xs);
    var m := MedianOf(s).value;
    var lo, hi := if n % 2 == 1 then n / 2 else n / 2 - 1, n / 2;
    assert s[lo] <= m <= s[hi];
    assert s[0] <= s[lo] && s[hi] <= s[n - 1];
    CountAtMostSorted(s, lo, m);
    CountAtLeastSorted(s, hi, m);
    CountPermutation(s, xs, AtMost(m));
    CountPermutation(s, xs, AtLeast(m));
  }

  /** The median depends only on the values, not on their order. */
  lemma {:induction false} MedianPermutation(xs: seq<real>, ys: seq<real>)
    requires multiset(xs) == multiset(ys)
    ensures MedianOf(SortSeq(xs)) == MedianOf(SortSeq(ys))
  {
    SortSeqPermutation(xs, ys);
  }

  /** Three values in the order low, high, middle sort to low, middle, high. */
  lemma {:induction false} SortThree(x: real, y: real, z: real)
    requires x <= z <= y
    ensures SortSeq([x, y, z]) == [x, z, y]
  {
    var s := SortSeq([x, y, z]);
    SortedThree(x, z, y);
    assert multiset([x, y, z]) == multiset([x, z, y]);
    SortedUnique(s, [x, z, y]);
  }

  /** median([1, 3, 2]) == 2, on the values float() gives. */
  lemma {:induction false} TestMedianOdd(xs: seq<real>)
    requires xs == [1.0, 3.0, 2.0]
    ensures MedianOf(SortSeq(xs)) == Ok(2.0)
  {
    SortThree(1.0, 3.0, 2.0);
  }

  /** median([1, 2, 3, 4]) == 2.5, on the values float() gives. */
  lemma {:induction false} TestMedianEven(xs: seq<real>)
    requires xs == [1.0, 2.0, 3.0, 4.0]
    ensures MedianOf(SortSeq(xs)) == Ok(2.5)
  {
    SortedFour(1.0, 2.0, 3.0, 4.0);
    SortSeqOfSorted(xs);
    var s := SortSeq(xs);
    assert s == [1.0, 2.0, 3.0, 4.0];
    assert s[1] == 2.0 && s[2] == 3.0;
  }
}
