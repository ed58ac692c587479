/** calculate/per_sqmi.py: a value per square mile. */
module PerSqmi {
  import opened Python

  /** per_sqmi(value, square_miles): a non-number argument gives back a ValueError
      instance, a zero area gives None, and otherwise float(value) / square_miles. */
  function PerSqmi(value: Obj, squareMiles: Obj): (r: Returned)
    ensures r.ErrorInstance? <==> !IsNumber(value) || !IsNumber(squareMiles)
    ensures r.ErrorInstance? ==> r.error == ValueError
    ensures r.NoneValue? <==> IsNumber(value) && IsNumber(squareMiles) && NumValue(squareMiles) == 0.0
    ensures r.Number? ==> r.value * NumValue(squareMiles) == NumValue(value)
  {
    if !IsNumber(value) then ErrorInstance(ValueError)
    else if !IsNumber(squareMiles) then ErrorInstance(ValueError)
    else if NumValue(squareMiles) == 0.0 then NoneValue
    else Number(NumValue(value) / NumValue(squareMiles))
  }

  /** Spreading the same value over a larger positive area never raises the rate. */
  lemma {:induction false} LargerAreaLowerRate(value: real, a: real, b: real)
    requires value >= 0.0 && 0.0 < a <= b
    ensures PerSqmi(Float(value), Float(a)).Number? && PerSqmi(Float(value), Float(b)).Number?
    ensures PerSqmi(Float(value), Float(b)).value <= PerSqmi(Float(value), Float(a)).value
  {
    var x, y := value / a, value / b;
    assert x * a == value && y * b == value;
    if y > x {
      assert y * b >= x * b >= x * a;
      assert y * b > x * b;
    }
  }

  /** per_sqmi(12, 60) == .20 and per_sqmi(12, 0) is None. */
  lemma {:induction false} TestPerSqmi()
    ensures PerSqmi(Int(12), Int(60)) == Number(0.2)
    ensures PerSqmi(Int(12), Int(0)) == NoneValue
  {
  }
}
