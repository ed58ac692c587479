/** calculate/at_percentile.py: the value found at a given percentile of a list,
    interpolated between the two bordering values when the percentile falls between them. */
module AtPercentile {
  import opened Python
  import opened SeqMath
  import opened Sorting

  /** math.ceil. */
  function Ceil(x: real): (c: int)
    ensures c as real - 1.0 < x <= c as real
  {
    if x.Floor as real == x then x.Floor else x.Floor + 1
  }

  /** The index (n - 1) / 100 * value that percentile `value` asks for in n sorted values. */
  function Position(n: nat, value: real): real {
    (n as real - 1.0) / 100.0 * value
  }

  /** The digits after the point of str(i - int(i)), read back by float(): the
      distance from i to its truncation, zero exactly when i is a whole number. */
  function Remainder(i: real): (f: real)
    ensures 0.0 <= f < 1.0
    ensures f == 0.0 <==> i == i.Floor as real
    ensures i >= 0.0 ==> f == i - i.Floor as real
  {
    var d := i - Trunc(i) as real;
    if d < 0.0 then -d else d
  }

  /** The interpolation kinds the function knows. */
  predicate IsInterpolation(interpolation: string) {
    interpolation == "fraction" || interpolation == "lower" || interpolation == "higher"
  }

  /** The value at percentile `value` of the sorted values: the element at a whole
      index, otherwise the bordering pair l, h read first and then combined by the
      interpolation; an index past either end is an IndexError. */
  function ScoreAt(sorted: seq<real>, value: real, interpolation: string): Result<real> {
    var i := Position(|sorted|, value);
    var f := Remainder(i);
    if f == 0.0 then PyIndex(sorted, Trunc(i))
    else
      var l :- PyIndex(sorted, i.Floor);
      var h :- PyIndex(sorted, Ceil(i));
      Interpolate(l, h, f, interpolation)
  }

  /** Combines the bordering values l and h, a fraction f of the way from l to h. */
  function Interpolate(l: real, h: real, f: real, interpolation: string): Result<real> {
    if interpolation == "fraction" then Ok(l + (h - l) * f)
    else if interpolation == "lower" then Ok(l)
    else if interpolation == "higher" then Ok(h)
    else Raise(ValueError)
  }

  /** at_percentile(data_list, value, interpolation): converts the values to a new
      list of floats, sorts that list in place, converts the percentile with float()
      and reads the score from the sorted list. Either float() error propagates, the
      values' first. */
  method AtPercentile(data: Arg<Obj>, value: Obj, interpolation: string) returns (r: Result<real>)
    ensures FloatList(data).Raise? ==> r == Raise(FloatList(data).error)
    ensures FloatList(data).Ok? && ToFloat(value).Raise? ==> r == Raise(ToFloat(value).error)
    ensures FloatList(data).Ok? && ToFloat(value).Ok? ==>
              r == ScoreAt(SortSeq(FloatList(data).value), ToFloat(value).value, interpolation)
  {
    var converted := FloatList(data);
    if converted.Raise? {
      return Raise(converted.error);
    }
    var a := SortedCopy(converted.value);
    var percentile := ToFloat(value);
    if percentile.Raise? {
      return Raise(percentile.error);
    }
    r := ScoreAt(a[..], percentile.value, interpolation);
  }

  lemma {:induction false} PositionBounds(n: nat, value: real)
    requires n > 0 && 0.0 <= value <= 100.0
    ensures 0.0 <= Position(n, value) <= n as real - 1.0
  {
    var m := n as real - 1.0;
    var c := m / 100.0;
    assert c >= 0.0 by {
      DivMonotone(0.0, m, 100.0);
    }
    assert Position(n, value) == c * value;
    MulNonnegative(c, value);
    MulMonotone(c, value, 100.0);
    assert c * 100.0 == m;
  }

  /** 'lower' and 'higher' pick the bordering values and 'fraction' lies between them. */
  lemma {:induction false} InterpolateOrdered(l: real, h: real, f: real)
    requires l <= h && 0.0 <= f <= 1.0
    ensures Interpolate(l, h, f, "lower") == Ok(l) && Interpolate(l, h, f, "higher") == Ok(h)
    ensures Interpolate(l, h, f, "fraction").Ok?
    ensures l <= Interpolate(l, h, f, "fraction").value <= h
    ensures forall interpolation :: Interpolate(l, h, f, interpolation).Raise? <==> !IsInterpolation(interpolation)
  {
    var d := h - l;
    MulMonotone(d, f, 1.0);
    assert d * 1.0 == d;
    MulNonnegative(d, f);
    assert (h - l) * f == d * f;
    assert l + d * f <= h;
  }

  /** For a percentile in [0, 100] of a non-empty sorted list: every interpolation
      succeeds when the index is whole, and an unknown one raises ValueError exactly
      when it is not; 'lower' and 'higher' are the bordering elements and 'fraction'
      lies between them. */
  lemma {:induction false} InterpolationOrdered(s: seq<real>, value: real)
    requires Sorted(s) && |s| > 0 && 0.0 <= value <= 100.0
    ensures var i := Position(|s|, value);
            forall interpolation :: (ScoreAt(s, value, interpolation).Raise? <==>
              !IsInterpolation(interpolation) && i != i.Floor as real)
    ensures var i := Position(|s|, value);
            forall interpolation :: ScoreAt(s, value, interpolation).Raise? ==>
              ScoreAt(s, value, interpolation).error == ValueError
    ensures var i := Position(|s|, value);
            i != i.Floor as real ==>
              0 <= i.Floor && i.Floor + 1 < |s|
              && ScoreAt(s, value, "lower") == Ok(s[i.Floor])
              && ScoreAt(s, value, "higher") == Ok(s[i.Floor + 1])
    ensures ScoreAt(s, value, "lower").Ok? && ScoreAt(s, value, "fraction").Ok? && ScoreAt(s, value, "higher").Ok?
    ensures ScoreAt(s, value, "lower").value <= ScoreAt(s, value, "fraction").value <= ScoreAt(s, value, "higher").value
  {
    var n := |s|;
    var i := Position(n, value);
    PositionBounds(n, value);
    var f := Remainder(i);
    if f != 0.0 {
      var k := i.Floor;
      assert Ceil(i) == k + 1;
      assert k + 1 < n by {
        assert (k + 1) as real - 1.0 < i <= (n - 1) as real;
      }
      assert s[k] <= s[k + 1];
      assert forall interpolation :: ScoreAt(s, value, interpolation) == Interpolate(s[k], s[k + 1], f, interpolation);
      InterpolateOrdered(s[k], s[k + 1], f);
    }
  }

  /** Percentile 0 is the smallest value and percentile 100 the largest, whatever the interpolation. */
  lemma {:induction false} Extremes(xs: seq<real>, interpolation: string)
    requires |xs| > 0
    ensures var s := SortSeq(xs);
            ScoreAt(s, 0.0, interpolation).Ok? && IsMin(ScoreAt(s, 0.0, interpolation).value, xs)
    ensures var s := SortSeq(xs);
            ScoreAt(s, 100.0, interpolation).Ok? && IsMax(ScoreAt(s, 100.0, interpolation).value, xs)
  {
    var s := SortSeq(xs);
    var n := |xs|;
    SortSeqEnds(xs);
    assert Position(n, 0.0) == 0.0;
    assert Position(n, 100.0) == (n - 1) as real;
    assert Remainder((n - 1) as real) == 0.0;
  }

  /** Percentile 75 of four values lies a quarter of the way from the third to the fourth. */
  lemma {:induction false} FourthQuartileOfFour(s: seq<real>)
    requires |s| == 4
    ensures ScoreAt(s, 75.0, "fraction") == Ok(s[2] + (s[3] - s[2]) * 0.25)
    ensures ScoreAt(s, 75.0, "lower") == Ok(s[2])
    ensures ScoreAt(s, 75.0, "higher") == Ok(s[3])
  {
    assert Position(4, 75.0) == 2.25 && Remainder(2.25) == 0.25;
    assert (2.25).Floor == 2 && Ceil(2.25) == 3;
    assert forall interpolation :: ScoreAt(s, 75.0, interpolation) == Interpolate(s[2], s[3], 0.25, interpolation);
  }

  /** The docstring's examples, at_percentile([1, 2, 3, 4], 75): 3.25, 3.0 with
      'lower' and 4.0 with 'higher', on the values float() gives. */
  lemma {:induction false} DocExamples(xs: seq<real>)
    requires xs == [1.0, 2.0, 3.0, 4.0]
    ensures ScoreAt(SortSeq(xs), 75.0, "fraction") == Ok(3.25)
    ensures ScoreAt(SortSeq(xs), 75.0, "lower") == Ok(3.0)
    ensures ScoreAt(SortSeq(xs), 75.0, "higher") == Ok(4.0)
  {
    SortedFour(1.0, 2.0, 3.0, 4.0);
    SortSeqOfSorted(xs);
    FourthQuartileOfFour(xs);
  }
}
