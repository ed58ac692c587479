/** calculate/margin_of_victory.py: the lead of the first place value over the second. */
module MarginOfVictory {
  import opened Python
  import opened SeqMath
  import opened Sorting

  /** value_list[0] - value_list[1] on the descending order of xs; fewer than two
      values make one of the two reads an IndexError. */
  function MarginOf(xs: seq<real>): (r: Result<real>)
    ensures r.Raise? <==> |xs| < 2
    ensures r.Raise? ==> r.error == IndexError
  {
    Lead(Reverse(SortSeq(xs)))
  }

  /** value_list[0] - value_list[1]. */
  function Lead(desc: seq<real>): Result<real> {
    var first :- PyIndex(desc, 0);
    var second :- PyIndex(desc, 1);
    Ok(first - second)
  }

  /** margin_of_victory(value_list): sorts the caller's list from biggest to smallest in
      place, then subtracts the second value from the first. */
  method MarginOfVictory(values: array<real>) returns (r: Result<real>)
    modifies values
    ensures values[..] == Reverse(SortSeq(old(values[..])))
    ensures r == MarginOf(old(values[..]))
  {
    SortRealsDescending(values);
    assert MarginOf(old(values[..])) == Lead(values[..]);
    if values.Length < 2 {
      return Raise(IndexError);
    }
    return Ok(values[0] - values[1]);
  }

  /** With two or more values the margin is never negative: some position k holds a
      largest value, and that value minus the margin is the largest of the rest once
      position k is taken out. */
  lemma {:induction false} MarginIsLead(xs: seq<real>) returns (k: int)
    requires |xs| >= 2
    ensures MarginOf(xs).Ok? && MarginOf(xs).value >= 0.0
    ensures 0 <= k < |xs| && IsMax(xs[k], xs)
    ensures IsMax(xs[k] - MarginOf(xs).value, xs[..k] + xs[k + 1..])
  {
    var margin := MarginOfSorted(xs, SortSeq(xs));
    k := TopTwo(xs, SortSeq(xs));
  }

  /** In any ascending arrangement of xs the top value is a largest element of xs, and
      the one below it is a largest of what remains once one copy of the top is removed. */
  lemma {:induction false} TopTwo(xs: seq<real>, t: seq<real>) returns (k: int)
    requires |xs| >= 2 && |t| == |xs| && Sorted(t) && multiset(t) == multiset(xs)
    ensures t[|xs| - 2] <= t[|xs| - 1]
    ensures 0 <= k < |xs| && IsMax(xs[k], xs)
    ensures IsMax(xs[k] - (t[|xs| - 1] - t[|xs| - 2]), xs[..k] + xs[k + 1..])
  {
    var n := |xs|;
    SortedEnds(t, xs);
    var top := t[n - 1];
    k :| 0 <= k < n && xs[k] == top;
    SecondLargest(xs, t, k);
    assert xs[k] - (top - t[n - 2]) == t[n - 2];
  }

  /** The margin is the top of the ascending order minus the value just below it. */
  lemma {:induction false} MarginOfSorted(xs: seq<real>, t: seq<real>) returns (margin: real)
    requires |xs| >= 2 && t == SortSeq(xs)
    ensures margin == t[|xs| - 1] - t[|xs| - 2]
    ensures MarginOf(xs) == Ok(margin)
  {
    margin := t[|xs| - 1] - t[|xs| - 2];
    var n := |xs|;
    var desc := Reverse(t);
    assert desc[0] == t[n - 1] && desc[1] == t[n - 2];
    assert PyIndex(desc, 0) == Ok(t[n - 1]) && PyIndex(desc, 1) == Ok(t[n - 2]);
  }

  /** Below the largest element of the sorted order comes the largest of the rest. */
  lemma {:induction false} SecondLargest(xs: seq<real>, t: seq<real>, k: int)
    requires |xs| >= 2 && |t| == |xs| && Sorted(t) && multiset(t) == multiset(xs)
    requires 0 <= k < |xs| && xs[k] == t[|xs| - 1]
    ensures t[|xs| - 2] <= t[|xs| - 1]
    ensures IsMax(t[|xs| - 2], xs[..k] + xs[k + 1..])
  {
    var n := |xs|;
    var m := t[n - 1];
    var rest := xs[..k] + xs[k + 1..];
    var u := t[..n - 1];
    assert t == u + [m];
    MultisetRemove(xs, k);
    assert multiset(t) == multiset(u) + multiset{m};
    assert Sorted(u);
    SortedEnds(u, rest);
  }

  /** margin_of_victory([3285, 2804, 7170]) == 3885. */
  lemma {:induction false} TestThree(xs: seq<real>)
    requires xs == [3285.0, 2804.0, 7170.0]
    ensures MarginOf(xs) == Ok(3885.0)
  {
    var t := [2804.0, 3285.0, 7170.0];
    SortedThree(2804.0, 3285.0, 7170.0);
    assert multiset(t) == multiset(xs);
    SortedUnique(t, SortSeq(xs));
    var margin := MarginOfSorted(xs, t);
  }

  /** margin_of_victory([50708, 20639]) == 30069. */
  lemma {:induction false} TestTwo(xs: seq<real>)
    requires xs == [50708.0, 20639.0]
    ensures MarginOf(xs) == Ok(30069.0)
  {
    var t := [20639.0, 50708.0];
    assert Sorted(t);
    assert multiset(t) == multiset(xs);
    SortedUnique(t, SortSeq(xs));
    var margin := MarginOfSorted(xs, t);
  }
}
