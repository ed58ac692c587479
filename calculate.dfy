/** calculate.py, the library's older single-module edition, and the root get_*.py
    helpers whose bodies are the same code: the checks and the guarded expression of
    decile, elfi, ordinal_rank, per_capita, per_sqmi, percent_change and percentage.
    These catch only ZeroDivisionError, so other errors are raised. */
module Calculate {
  import opened Python
  import opened SeqMath
  import D = Decile
  import E = Elfi
  import O = OrdinalRank
  import P = Percentile
  import PC = PercentageChange
  import Pct = Percentage
  import PCap = PerCapita
  import PSq = PerSqmi

  /** decile(array, score, kind='weak'): a TypeError for anything but a list, then the
      grouping of percentileofscore(array, score, kind) (the percentile model of
      calculate/percentile.py); a NaN percentile makes int() raise ValueError. */
  function Decile(scores: Arg<real>, score: real, kind: string): (r: Result<int>)
    ensures !scores.PyList? ==> r == Raise(TypeError)
    ensures scores.PyList? ==> r == D.Decile(scores, score, kind)
  {
    if !scores.PyList? then Raise(TypeError)
    else
      var p :- P.Percentile(scores.items, score, kind);
      match p
      case NaN => Raise(ValueError)
      case Finite(v) => Ok(D.Bucket(v))
  }

  /** sum(xs) over objects: numbers add up, anything else is a TypeError. */
  function SumOf(xs: seq<Obj>): (r: Result<real>)
    ensures r.Ok? <==> forall k :: 0 <= k < |xs| ==> IsNumber(xs[k])
    ensures r.Raise? ==> r.error == TypeError
    ensures r.Ok? ==> MapFloat(xs).Ok? && r.value == Sum(MapFloat(xs).value)
  {
    if xs == [] then Ok(0.0)
    else if !IsNumber(xs[0]) then Raise(TypeError)
    else
      var rest :- SumOf(xs[1..]);
      assert forall k :: 1 <= k < |xs| ==> xs[k] == xs[1..][k - 1];
      Ok(NumValue(xs[0]) + rest)
  }

  /** elfi(array) and get_elfi(array): a TypeError for anything but a list, a
      ValueError unless sum(array) is exactly 1.0, and then 1 - sum(x ** 2). */
  function Elfi(shares: Arg<Obj>): (r: Result<real>)
    ensures !shares.PyList? ==> r == Raise(TypeError)
    ensures shares.PyList? && SumOf(shares.items).Raise? ==> r == Raise(TypeError)
    ensures shares.PyList? && SumOf(shares.items).Ok? && SumOf(shares.items).value != 1.0 ==> r == Raise(ValueError)
    ensures r.Ok? ==> r.value <= 1.0
  {
    if !shares.PyList? then Raise(TypeError)
    else
      var total :- SumOf(shares.items);
      if total != 1.0 then Raise(ValueError)
      else
        var values := MapFloat(shares.items).value;
        E.SquaresNonnegative(values);
        Ok(1.0 - SumSquares(values))
  }

  /** ordinal_rank(queryset, obj): a TypeError for anything but a QuerySet, then the
      index of obj in list(queryset), plus one. */
  function OrdinalRank<T(==)>(queryset: Arg<T>, obj: T): (r: Result<int>)
    ensures !queryset.QuerySet? ==> r == Raise(TypeError)
    ensures queryset.QuerySet? && obj !in queryset.items ==> r == Raise(ValueError)
    ensures queryset.QuerySet? && obj in queryset.items ==>
              r.Ok? && 1 <= r.value <= |queryset.items| && queryset.items[r.value - 1] == obj
  {
    if !queryset.QuerySet? then Raise(TypeError)
    else
      var index :- O.IndexOf(queryset.items, obj);
      Ok(index + 1)
  }

  /** The default of per_capita's per argument. */
  const DefaultPer: Obj := Int(10000)

  /** per_capita(value, population, per) and get_per_capita: float(value) / population
      * per, or None when the division by population fails with ZeroDivisionError.
      float() of a bad value, a non-number population or per raise. */
  function PerCapita(value: Obj, population: Obj, per: Obj): (r: Result<Option<real>>)
    ensures ToFloat(value).Raise? ==> r == Raise(ToFloat(value).error)
    ensures ToFloat(value).Ok? && !IsNumber(population) ==> r == Raise(TypeError)
    ensures r == Ok(None) <==> ToFloat(value).Ok? && IsNumber(population) && NumValue(population) == 0.0
    ensures r.Ok? && r.value.Some? ==>
              IsNumber(population) && IsNumber(per) && ToFloat(value).Ok?
              && IsRate(r.value.value, ToFloat(value).value, NumValue(population), NumValue(per))
  {
    var v :- ToFloat(value);
    if !IsNumber(population) then Raise(TypeError)
    else if NumValue(population) == 0.0 then Ok(None)
    else if !IsNumber(per) then Raise(TypeError)
    else
      RateOf(v, NumValue(population), NumValue(per));
      Ok(Some(v / NumValue(population) * NumValue(per)))
  }

  /** per_sqmi(value, square_miles) and get_per_sqmi: float(value) / square_miles, or
      None on ZeroDivisionError. */
  function PerSqmi(value: Obj, squareMiles: Obj): (r: Result<Option<real>>)
    ensures ToFloat(value).Raise? ==> r == Raise(ToFloat(value).error)
    ensures ToFloat(value).Ok? && !IsNumber(squareMiles) ==> r == Raise(TypeError)
    ensures r == Ok(None) <==> ToFloat(value).Ok? && IsNumber(squareMiles) && NumValue(squareMiles) == 0.0
    ensures r.Ok? && r.value.Some? ==>
              IsNumber(squareMiles) && ToFloat(value).Ok?
              && IsRate(r.value.value, ToFloat(value).value, NumValue(squareMiles), 1.0)
  {
    var v :- ToFloat(value);
    if !IsNumber(squareMiles) then Raise(TypeError)
    else if NumValue(squareMiles) == 0.0 then Ok(None)
    else
      QuotientOf(v, NumValue(squareMiles));
      Ok(Some(v / NumValue(squareMiles)))
  }

  /** percent_change(old, new) and get_percent_change: new - old, then
      change / float(old) * 100, or None on ZeroDivisionError. */
  function PercentChange(oldValue: Obj, newValue: Obj): (r: Result<Option<real>>)
    ensures !(IsNumber(oldValue) && IsNumber(newValue)) ==> r == Raise(TypeError)
    ensures r == Ok(None) <==> IsNumber(oldValue) && IsNumber(newValue) && NumValue(oldValue) == 0.0
    ensures r.Ok? && r.value.Some? ==>
              IsNumber(oldValue) && IsNumber(newValue)
              && NumValue(oldValue) + r.value.value * NumValue(oldValue) / 100.0 == NumValue(newValue)
  {
    var change :- Sub(newValue, oldValue);
    // old is a number once the subtraction succeeded, so float(old) cannot fail.
    var o := ToFloat(oldValue).value;
    if o == 0.0 then Ok(None)
    else Ok(Some(NumValue(change) / o * 100.0))
  }

  /** percentage(value, total) and get_percentage: value / float(total) * 100, or None
      on ZeroDivisionError; float() of a bad total, then a non-number value, raise. */
  function Percentage(value: Obj, total: Obj): (r: Result<Option<real>>)
    ensures ToFloat(total).Raise? ==> r == Raise(ToFloat(total).error)
    ensures ToFloat(total).Ok? && !IsNumber(value) ==> r == Raise(TypeError)
    ensures r == Ok(None) <==> IsNumber(value) && ToFloat(total) == Ok(0.0)
    ensures r.Ok? && r.value.Some? ==>
              IsNumber(value) && ToFloat(total).Ok?
              && IsRate(r.value.value, NumValue(value), ToFloat(total).value, 100.0)
  {
    var t :- ToFloat(total);
    if !IsNumber(value) then Raise(TypeError)
    else if t == 0.0 then Ok(None)
    else
      RateOf(NumValue(value), t, 100.0);
      Ok(Some(NumValue(value) / t * 100.0))
  }

  /** On a list the older decile is the newer one; a tuple, which the newer one also
      accepts, is a TypeError here. */
  lemma {:induction false} DecileListsOnly(scores: seq<real>, score: real, kind: string)
    requires |scores| > 0 && P.IsKind(kind)
    ensures Decile(PyList(scores), score, kind) == D.Decile(PyList(scores), score, kind)
    ensures Decile(PyList(scores), score, kind).Ok?
    ensures 1 <= Decile(PyList(scores), score, kind).value <= 10
    ensures Decile(PyTuple(scores), score, kind) == Raise(TypeError)
    ensures D.Decile(PyTuple(scores), score, kind).Ok?
  {
    D.DecileRange(PyList(scores), score, kind);
    D.DecileRange(PyTuple(scores), score, kind);
  }

  /** The doc string's get_decile([1, 2, 3, 3, 4], 3) == 9 under the default 'weak'. */
  lemma {:induction false} DecileDocExample()
    ensures Decile(PyList([1.0, 2.0, 3.0, 3.0, 4.0]), 3.0, "weak") == Ok(9)
  {
    D.TestDecileKinds();
  }

  /** A list of numbers adding up to one gets the same index from the older elfi as
      from calculate/elfi.py, which checks no sum. */
  lemma {:induction false} ElfiAgrees(xs: seq<Obj>)
    requires SumOf(xs) == Ok(1.0)
    ensures Elfi(PyList(xs)) == E.Elfi(PyList(xs))
  {
  }

  /** Shares that do not add up to one are refused here but accepted by
      calculate/elfi.py: [0.5] is a ValueError here and 0.75 there. */
  lemma {:induction false} ElfiSumCheck(xs: seq<Obj>)
    requires xs == [Float(0.5)]
    ensures Elfi(PyList(xs)) == Raise(ValueError)
    ensures E.Elfi(PyList(xs)) == Ok(0.75)
  {
    assert xs[1..] == [];
    assert SumOf(xs) == Ok(0.5);
    FloatListOfNumbers(PyList(xs), [0.5]);
    E.SquaresStep([0.5]);
    assert [0.5][1..] == [];
  }

  /** The older elfi does not depend on the order of the list either. */
  lemma {:induction false} ElfiOrderFree(a: seq<Obj>, b: seq<Obj>)
    requires multiset(a) == multiset(b) && Elfi(PyList(a)).Ok?
    ensures Elfi(PyList(b)) == Elfi(PyList(a))
  {
    SumOfPermutation(a, b);
    MapFloatPermutation(a, b);
    SumByPermutation(MapFloat(a).value, MapFloat(b).value, Square);
  }

  /** sum() of a rearranged list of numbers is the same sum. */
  lemma {:induction false} SumOfPermutation(a: seq<Obj>, b: seq<Obj>)
    requires multiset(a) == multiset(b) && SumOf(a).Ok?
    ensures SumOf(b) == SumOf(a)
  {
    forall k | 0 <= k < |b|
      ensures IsNumber(b[k])
    {
      assert b[k] in multiset(a);
      var j :| 0 <= j < |a| && a[j] == b[k];
    }
    MapFloatPermutation(a, b);
    SumByPermutation(MapFloat(a).value, MapFloat(b).value, Identity);
  }

  lemma {:induction false} SumOfStep(xs: seq<Obj>)
    requires |xs| > 0 && IsNumber(xs[0]) && SumOf(xs[1..]).Ok?
    ensures SumOf(xs).Ok? && SumOf(xs).value == NumValue(xs[0]) + SumOf(xs[1..]).value
  {
  }

  /** get_elfi([0.2, 0.5, 0.05, 0.25]) == 0.645, the doc string's example. */
  lemma {:induction false} ElfiDocExample(four: seq<Obj>)
    requires four == [Float(0.2), Float(0.5), Float(0.05), Float(0.25)]
    ensures Elfi(PyList(four)) == Ok(0.645)
  {
    SumOfStep(four);
    SumOfStep(four[1..]);
    SumOfStep(four[2..]);
    SumOfStep(four[3..]);
    assert four[1..][1..] == four[2..] && four[2..][1..] == four[3..] && four[3..][1..] == [];
    assert SumOf(four) == Ok(1.0);
    E.TestElfi([Int(1)], [Float(0.5), Float(0.5)], four);
  }

  /** On a QuerySet the older ordinal_rank is calculate/ordinal_rank.py's; any other
      argument, even a list, is a TypeError. */
  lemma {:induction false} OrdinalRankQuerySetsOnly<T>(items: seq<T>, obj: T)
    ensures OrdinalRank(QuerySet(items), obj) == O.OrdinalRank(QuerySet(items), obj)
    ensures OrdinalRank(PyList(items), obj) == Raise(TypeError)
  {
  }

  /** For numbers the older per_capita gives the rate the newer one gives, and the rate
      is linear in per: doubling per doubles it. */
  lemma {:induction false} PerCapitaAgrees(value: Obj, population: Obj, per: real)
    requires IsNumber(value) && IsNumber(population) && NumValue(population) != 0.0
    ensures PerCapita(value, population, Float(per)).Ok?
    ensures PerCapita(value, population, Float(per)).value.Some?
    ensures PCap.PerCapita(value, population, Float(per)).Ok?
    ensures PCap.PerCapita(value, population, Float(per)).value
              == Number(PerCapita(value, population, Float(per)).value.value)
    ensures PerCapita(value, population, Float(2.0 * per)).value.value
              == 2.0 * PerCapita(value, population, Float(per)).value.value
  {
    PCap.LinearInPer(value, population, per, 2.0);
  }

  /** With the default per of 10000: 12 in 100000 is 1.2, and a zero population is None. */
  lemma {:induction false} PerCapitaDefault()
    ensures PerCapita(Int(12), Int(100000), DefaultPer) == Ok(Some(1.2))
    ensures PerCapita(Int(12), Int(0), DefaultPer) == Ok(None)
  {
  }

  /** float() turns the value into a float first, so two ints divide exactly: 12 over 60
      square miles is 0.2, where Python 2's 12 / 60 is 0. Only ZeroDivisionError is
      caught, so a value float() refuses is raised, where calculate/per_sqmi.py hands
      back a ValueError instance; a numeric string is accepted. */
  lemma {:induction false} PerSqmiFloatFirst()
    ensures PerSqmi(Int(12), Int(60)) == Ok(Some(0.2))
    ensures Py2Div(Int(12), Int(60)) == Ok(Int(0))
    ensures PerSqmi(Int(12), Int(0)) == Ok(None)
    ensures PerSqmi(Str("x"), Int(60)) == Raise(ValueError)
    ensures PSq.PerSqmi(Str("x"), Int(60)) == ErrorInstance(ValueError)
    ensures PerSqmi(Str("12"), Int(60)) == Ok(Some(0.2))
  {
    NotANumber();
    NumericString();
  }

  lemma {:induction false} NotANumber()
    ensures ToFloat(Str("x")) == Raise(ValueError)
  {
    assert ParseDecimal("x") == None by {
      StripBare("x");
      assert FirstExp("x") == 1;
      assert FirstDot("x") == 1;
      assert !IsDigit("x"[0]);
    }
  }

  lemma {:induction false} NumericString()
    ensures ToFloat(Str("12")) == Ok(12.0)
  {
    FloatOfIntString(12);
    assert IntString(12) == "12" by {
      assert NatString(12) == NatString(1) + [DigitChar(2)];
    }
  }

  /** No change is 0 percent, a fall to zero is -100 percent, and from a positive old
      value the change is positive exactly when the value grew. */
  lemma {:induction false} PercentChangeSign(oldValue: Obj, newValue: Obj)
    requires IsNumber(oldValue) && IsNumber(newValue) && NumValue(oldValue) != 0.0
    ensures PercentChange(oldValue, newValue) == Ok(Some(PC.PercentageChange(oldValue, newValue, true).value))
    ensures NumValue(newValue) == NumValue(oldValue) ==> PercentChange(oldValue, newValue) == Ok(Some(0.0))
    ensures NumValue(newValue) == 0.0 ==> PercentChange(oldValue, newValue) == Ok(Some(-100.0))
    ensures NumValue(oldValue) > 0.0 ==>
              (PercentChange(oldValue, newValue).value.value > 0.0 <==> NumValue(newValue) > NumValue(oldValue))
  {
    PC.ChangeSign(oldValue, newValue);
  }

  /** A value equal to a non-zero total is 100 percent, and a part of a positive total
      lies in [0, 100]. */
  lemma {:induction false} PercentageBounds(value: Obj, total: Obj)
    requires IsNumber(value) && IsNumber(total) && NumValue(total) > 0.0
    requires 0.0 <= NumValue(value) <= NumValue(total)
    ensures Percentage(value, total) == Ok(Some(Pct.Percentage(value, total, true).value))
    ensures 0.0 <= Percentage(value, total).value.value <= 100.0
    ensures NumValue(value) == NumValue(total) ==> Percentage(value, total) == Ok(Some(100.0))
  {
    Pct.PercentageBounds(value, total);
  }

  /** The doc string's get_percentage(2, 10) is 20.0, and a zero total gives None. */
  lemma {:induction false} PercentageDocExample()
    ensures Percentage(Int(2), Int(10)) == Ok(Some(20.0))
    ensures Percentage(Int(2), Int(0)) == Ok(None)
  {
  }
}
