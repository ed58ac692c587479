/** calculate/elfi.py: the Ethnolinguistic Fractionalization Index, 1 minus the sum of
    the squared shares. */
module Elfi {
  import opened Python
  import opened SeqMath

  /** elfi(data_list): list(map(float, data_list)), whose ValueError is raised again as
      a ValueError and whose TypeError escapes as it is, then 1 - sum(x ** 2). */
  function Elfi(dataList: Arg<Obj>): (r: Result<real>)
    ensures r.Raise? <==> FloatList(dataList).Raise?
    ensures r.Raise? ==> r.error == FloatList(dataList).error
    ensures r.Ok? ==> r.value <= 1.0
  {
    var values :- FloatList(dataList);
    SquaresNonnegative(values);
    Ok(1.0 - SumSquares(values))
  }

  lemma {:induction false} SquaresNonnegative(s: seq<real>)
    ensures SumSquares(s) >= 0.0
  {
    if s != [] {
      SquaresNonnegative(s[1..]);
      MulNonnegative(if s[0] >= 0.0 then s[0] else -s[0], if s[0] >= 0.0 then s[0] else -s[0]);
    }
  }

  /** For non-negative terms the sum of squares is at most the square of the sum. */
  lemma {:induction false} SquaresAtMostSquaredSum(s: seq<real>)
    requires forall k :: 0 <= k < |s| ==> s[k] >= 0.0
    ensures SumSquares(s) <= Sum(s) * Sum(s)
  {
    if s != [] {
      var x, rest := s[0], s[1..];
      assert forall k :: 0 <= k < |rest| ==> rest[k] == s[k + 1];
      SquaresAtMostSquaredSum(rest);
      var t := Sum(rest);
      assert Sum(s) == x + t && SumSquares(s) == x * x + SumSquares(rest);
      assert t >= 0.0 by {
        NonnegativeSum(rest);
      }
      MulNonnegative(x, t);
      assert (x + t) * (x + t) == x * x + 2.0 * (x * t) + t * t;
    }
  }

  lemma {:induction false} NonnegativeSum(s: seq<real>)
    requires forall k :: 0 <= k < |s| ==> s[k] >= 0.0
    ensures Sum(s) >= 0.0
  {
    if s != [] {
      assert forall k :: 0 <= k < |s[1..]| ==> s[1..][k] == s[k + 1];
      NonnegativeSum(s[1..]);
    }
  }

  /** Shares that are non-negative and add up to one give an index between 0 and 1. */
  lemma {:induction false} ElfiOfShares(dataList: Arg<Obj>, shares: seq<real>)
    requires FloatList(dataList) == Ok(shares)
    requires Sum(shares) == 1.0 && forall k :: 0 <= k < |shares| ==> shares[k] >= 0.0
    ensures Elfi(dataList).Ok? && 0.0 <= Elfi(dataList).value <= 1.0
  {
    SquaresAtMostSquaredSum(shares);
  }

  /** The index does not depend on the order of the list. */
  lemma {:induction false} OrderFree(a: Arg<Obj>, b: Arg<Obj>)
    requires !a.NotIterable? && !b.NotIterable? && multiset(a.items) == multiset(b.items)
    requires Elfi(a).Ok?
    ensures Elfi(b) == Elfi(a)
  {
    MapFloatPermutation(a.items, b.items);
    SumByPermutation(MapFloat(a.items).value, MapFloat(b.items).value, Square);
  }

  /** An empty list has no shares to square, so its index is 1. */
  lemma {:induction false} EmptyList()
    ensures Elfi(PyList([])) == Ok(1.0)
  {
    assert MapFloat([]) == Ok([]);
  }

  /** elfi([1]) == 0, elfi([0.5, 0.5]) == 0.5 and elfi([0.2, 0.5, 0.05, 0.25]) == 0.645. */
  lemma {:induction false} TestElfi(one: seq<Obj>, halves: seq<Obj>, four: seq<Obj>)
    requires one == [Int(1)] && halves == [Float(0.5), Float(0.5)]
    requires four == [Float(0.2), Float(0.5), Float(0.05), Float(0.25)]
    ensures Elfi(PyList(one)) == Ok(0.0)
    ensures Elfi(PyList(halves)) == Ok(0.5)
    ensures Elfi(PyList(four)) == Ok(0.645)
  {
    FloatListOfNumbers(PyList(one), [1.0]);
    FloatListOfNumbers(PyList(halves), [0.5, 0.5]);
    FloatListOfNumbers(PyList(four), [0.2, 0.5, 0.05, 0.25]);
    SquaresOf([1.0], [0.5, 0.5], [0.2, 0.5, 0.05, 0.25]);
  }

  lemma {:induction false} SquaresOf(one: seq<real>, halves: seq<real>, four: seq<real>)
    requires one == [1.0] && halves == [0.5, 0.5] && four == [0.2, 0.5, 0.05, 0.25]
    ensures SumSquares(one) == 1.0 && SumSquares(halves) == 0.5 && SumSquares(four) == 0.355
  {
    SquaresStep(one);
    SquaresStep(halves);
    SquaresStep(halves[1..]);
    SquaresStep(four);
    SquaresStep(four[1..]);
    SquaresStep(four[2..]);
    SquaresStep(four[3..]);
    assert one[1..] == [] && halves[1..][1..] == [] && four[3..][1..] == [];
    assert four[1..][1..] == four[2..] && four[2..][1..] == four[3..];
  }

  lemma {:induction false} SquaresStep(s: seq<real>)
    requires |s| > 0
    ensures SumSquares(s) == s[0] * s[0] + SumSquares(s[1..])
  {
  }

  /** elfi(['a', 0.2, 3]) raises ValueError: float('a') fails. */
  lemma {:induction false} TestElfiText(xs: seq<Obj>)
    requires xs == [Str("a"), Float(0.2), Int(3)]
    ensures Elfi(PyList(xs)) == Raise(ValueError)
  {
    assert ParseDecimal("a") == None by {
      StripBare("a");
      assert FirstExp("a") == 1;
      assert FirstDot("a") == 1;
      assert !IsDigit("a"[0]);
    }
    assert ToFloat(xs[0]) == Raise(ValueError);
  }
}
