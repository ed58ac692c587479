/** calculate/decile.py: the decile group (1 to 10) of a score's percentile rank. */
module Decile {
  import opened Python
  import opened Percentile

  /** The grouping step: a percentile of exactly 100 is group 10, any other p is
      int(p * 0.1) + 1. */
  function Bucket(p: real): (d: int)
    ensures p == 100.0 ==> d == 10
    ensures 0.0 <= p < 100.0 ==> 1 <= d <= 10 && 10.0 * (d - 1) as real <= p < 10.0 * d as real
  {
    if p == 100.0 then 10 else Trunc(p * 0.1) + 1
  }

  /** decile(data_list, score, kind). Anything but a list or tuple is a TypeError;
      the errors of percentile() propagate, and a NaN percentile (the 'rank' kind on
      an empty list) makes int() raise ValueError. */
  function Decile(data: Arg<real>, score: real, kind: string): (r: Result<int>)
    ensures !IsListOrTuple(data) ==> r == Raise(TypeError)
    ensures IsListOrTuple(data) && Percentile.Percentile(data.items, score, kind).Raise? ==>
      r == Raise(Percentile.Percentile(data.items, score, kind).error)
    ensures IsListOrTuple(data) && Percentile.Percentile(data.items, score, kind) == Ok(NaN) ==> r == Raise(ValueError)
    ensures r.Ok? ==>
              IsListOrTuple(data) && Percentile.Percentile(data.items, score, kind).Ok?
              && Percentile.Percentile(data.items, score, kind).value.Finite?
              && r.value == Bucket(Percentile.Percentile(data.items, score, kind).value.value)
  {
    if !IsListOrTuple(data) then Raise(TypeError)
    else
      var p :- Percentile.Percentile(data.items, score, kind);
      match p
      case NaN => Raise(ValueError)
      case Finite(v) => Ok(Bucket(v))
  }

  /** The group never decreases as the percentile grows. */
  lemma {:induction false} BucketMonotone(p: real, q: real)
    requires p <= q
    ensures Bucket(p) <= Bucket(q)
  {
    if p != 100.0 && q != 100.0 {
      assert p * 0.1 <= q * 0.1;
    } else if p == 100.0 && q != 100.0 {
      assert q * 0.1 > 10.0;
    } else if p != 100.0 && q == 100.0 {
      assert p * 0.1 < 10.0;
    }
  }

  /** For a non-empty list or tuple and a known kind the result is a group from 1 to 10. */
  lemma {:induction false} DecileRange(data: Arg<real>, score: real, kind: string)
    requires IsListOrTuple(data) && |data.items| > 0 && IsKind(kind)
    ensures Decile(data, score, kind).Ok?
    ensures 1 <= Decile(data, score, kind).value <= 10
  {
    var a := data.items;
    KindsOrdered(a, score);
    var p := Percentile.Percentile(a, score, kind).value.value;
    assert 0.0 <= p <= 100.0;
  }

  /** A higher score never falls in a lower group under the default 'weak' kind. */
  lemma {:induction false} DecileWeakMonotone(data: Arg<real>, s: real, t: real)
    requires IsListOrTuple(data) && |data.items| > 0 && s <= t
    ensures Decile(data, s, "weak").Ok? && Decile(data, t, "weak").Ok?
    ensures Decile(data, s, "weak").value <= Decile(data, t, "weak").value
  {
    var a := data.items;
    DecileRange(data, s, "weak");
    DecileRange(data, t, "weak");
    SeqMath.CountMonotone(a, SeqMath.AtMost(s), SeqMath.AtMost(t));
    var cs, ct := SeqMath.CountAtMost(a, s), SeqMath.CountAtMost(a, t);
    CountKinds(a, s, SeqMath.CountLess(a, s), cs);
    CountKinds(a, t, SeqMath.CountLess(a, t), ct);
    var n := |a| as real;
    assert cs as real / n <= ct as real / n by {
      SeqMath.DivMonotone(cs as real, ct as real, n);
    }
    BucketMonotone(cs as real / n * 100.0, ct as real / n * 100.0);
  }

  /** decile([1, 2, 3, 4], 3) == 8 by the default kind, 'weak'. */
  lemma {:induction false} TestDecileDefault()
    ensures Decile(PyList([1.0, 2.0, 3.0, 4.0]), 3.0, "weak") == Ok(8)
  {
    var a := [1.0, 2.0, 3.0, 4.0];
    assert SeqMath.CountLess(a, 3.0) == 2 && SeqMath.CountAtMost(a, 3.0) == 3 by {
      assert a[1..] == [2.0, 3.0, 4.0] && a[1..][1..] == [3.0, 4.0] && a[1..][1..][1..] == [4.0];
    }
    CountKinds(a, 3.0, 2, 3);
    assert 3 as real / 4.0 * 100.0 == 75.0;
    assert Bucket(75.0) == 8;
  }

  /** On [1, 2, 3, 3, 4] at 3: group 5 strict, 9 weak and 7 mean. */
  lemma {:induction false} TestDecileKinds()
    ensures Decile(PyList([1.0, 2.0, 3.0, 3.0, 4.0]), 3.0, "strict") == Ok(5)
    ensures Decile(PyList([1.0, 2.0, 3.0, 3.0, 4.0]), 3.0, "weak") == Ok(9)
    ensures Decile(PyList([1.0, 2.0, 3.0, 3.0, 4.0]), 3.0, "mean") == Ok(7)
  {
    DocExampleTiedCounts();
    assert Bucket(40.0) == 5 && Bucket(80.0) == 9 && Bucket(60.0) == 7;
  }
}
