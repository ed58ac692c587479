/** calculate/mean.py: the arithmetic mean of a list or tuple of numbers. */
module Mean {
  import opened Python
  import opened SeqMath

  /** mean(data_list). Anything but a list or tuple is a TypeError; float() errors
      propagate; an empty list divides sum([]) == 0 by 0. */
  function Mean(data: Arg<Obj>): (r: Result<real>)
    ensures !IsListOrTuple(data) ==> r == Raise(TypeError)
    ensures IsListOrTuple(data) && MapFloat(data.items).Raise? ==> r == Raise(MapFloat(data.items).error)
    ensures IsListOrTuple(data) && MapFloat(data.items) == Ok([]) ==> r == Raise(ZeroDivisionError)
    ensures r.Ok? ==>
              IsListOrTuple(data) && MapFloat(data.items).Ok? && |data.items| > 0
              && r.value * |data.items| as real == Sum(MapFloat(data.items).value)
  {
    if !IsListOrTuple(data) then Raise(TypeError)
    else
      var xs :- MapFloat(data.items);
      if |xs| == 0 then Raise(ZeroDivisionError) else Ok(Sum(xs) / |xs| as real)
  }

  lemma {:induction false} AverageBounds(xs: seq<real>, lo: real, hi: real)
    requires |xs| > 0
    requires forall k :: 0 <= k < |xs| ==> lo <= xs[k] <= hi
    ensures lo <= Sum(xs) / |xs| as real <= hi
  {
    var n := |xs| as real;
    SumBounds(xs, lo, hi);
    DivMonotone(n * lo, Sum(xs), n);
    DivMonotone(Sum(xs), n * hi, n);
    assert (n * lo) / n == lo && (n * hi) / n == hi;
  }

  /** Values all in [lo, hi] have their mean in [lo, hi]. */
  lemma {:induction false} MeanBounds(data: Arg<Obj>, lo: real, hi: real)
    requires IsListOrTuple(data) && MapFloat(data.items).Ok? && |data.items| > 0
    requires forall k :: 0 <= k < |data.items| ==> lo <= MapFloat(data.items).value[k] <= hi
    ensures Mean(data).Ok? && lo <= Mean(data).value <= hi
  {
    AverageBounds(MapFloat(data.items).value, lo, hi);
  }

  /** The mean does not depend on the order of the values. */
  lemma {:induction false} MeanPermutation(a: seq<Obj>, b: seq<Obj>)
    requires multiset(a) == multiset(b) && MapFloat(a).Ok?
    ensures Mean(PyList(a)) == Mean(PyList(b))
  {
    MapFloatPermutation(a, b);
    SumByPermutation(MapFloat(a).value, MapFloat(b).value, Identity);
    assert |MapFloat(a).value| == |multiset(MapFloat(a).value)| == |multiset(MapFloat(b).value)|;
  }

  /** mean([1, 2, 3]) == 2.0 and mean([1, 99]) == 50.0. */
  lemma {:induction false} TestMean(three: Arg<Obj>, two: Arg<Obj>)
    requires three == PyList([Int(1), Int(2), Int(3)]) && two == PyList([Int(1), Int(99)])
    ensures Mean(three) == Ok(2.0)
    ensures Mean(two) == Ok(50.0)
  {
    FloatListOfNumbers(three, [1.0, 2.0, 3.0]);
    FloatListOfNumbers(two, [1.0, 99.0]);
    assert Sum([1.0, 2.0, 3.0]) == 6.0;
    assert Sum([1.0, 99.0]) == 100.0;
  }
}
