/** calculate/per_capita.py: a value per `per` people (10,000 by default). */
module PerCapita {
  import opened Python

  /** The default of the per argument. */
  const DefaultPer: Obj := Int(10000)

  /** per_capita(value, population, per): a non-number value or population gives back a
      ValueError instance, a zero population gives None, and otherwise
      float(value) / population * per; a per that is not a number cannot be multiplied
      and raises TypeError. */
  function PerCapita(value: Obj, population: Obj, per: Obj): (r: Result<Returned>)
    ensures r.Raise? <==> IsNumber(value) && IsNumber(population) && NumValue(population) != 0.0 && !IsNumber(per)
    ensures r.Raise? ==> r.error == TypeError
    ensures r.Ok? && r.value.ErrorInstance? <==> !IsNumber(value) || !IsNumber(population)
    ensures r.Ok? && r.value.ErrorInstance? ==> r.value.error == ValueError
    ensures r.Ok? && r.value.NoneValue? <==> IsNumber(value) && IsNumber(population) && NumValue(population) == 0.0
    ensures r.Ok? && r.value.Number? ==>
              r.value.value * NumValue(population) == NumValue(value) * NumValue(per)
  {
    if !IsNumber(value) then Ok(ErrorInstance(ValueError))
    else if !IsNumber(population) then Ok(ErrorInstance(ValueError))
    else if NumValue(population) == 0.0 then Ok(NoneValue)
    else if !IsNumber(per) then Raise(TypeError)
    else Ok(Number(NumValue(value) / NumValue(population) * NumValue(per)))
  }

  /** The rate is linear in per: scaling per by c scales the rate by c. */
  lemma {:induction false} LinearInPer(value: Obj, population: Obj, per: real, c: real)
    requires IsNumber(value) && IsNumber(population) && NumValue(population) != 0.0
    ensures PerCapita(value, population, Float(c * per)).Ok?
    ensures PerCapita(value, population, Float(c * per)).value.Number?
    ensures PerCapita(value, population, Float(c * per)).value.value
              == c * PerCapita(value, population, Float(per)).value.value
  {
    var q := NumValue(value) / NumValue(population);
    assert q * (c * per) == c * (q * per);
  }

  /** per_capita(12, 100000) == 1.2 with the default per, and per_capita(12, 0) is None. */
  lemma {:induction false} TestPerCapita()
    ensures PerCapita(Int(12), Int(100000), DefaultPer) == Ok(Number(1.2))
    ensures PerCapita(Int(12), Int(0), DefaultPer) == Ok(NoneValue)
  {
  }
}
