/** calculate/percentage.py: a value as a share of a total, in percent by default. */
module Percentage {
  import opened Python

  /** percentage(value, total, multiply): a non-number argument gives back a ValueError
      instance, a zero total gives None, and otherwise value / float(total), times 100
      when multiply is set. */
  function Percentage(value: Obj, total: Obj, multiply: bool): (r: Returned)
    ensures r.ErrorInstance? <==> !IsNumber(value) || !IsNumber(total)
    ensures r.ErrorInstance? ==> r.error == ValueError
    ensures r.NoneValue? <==> IsNumber(value) && IsNumber(total) && NumValue(total) == 0.0
    ensures r.Number? ==> r.value * NumValue(total) == NumValue(value) * (if multiply then 100.0 else 1.0)
  {
    if !IsNumber(value) then ErrorInstance(ValueError)
    else if !IsNumber(total) then ErrorInstance(ValueError)
    else if NumValue(total) == 0.0 then NoneValue
    else
      var percent := NumValue(value) / NumValue(total);
      Number(if multiply then percent * 100.0 else percent)
  }

  /** The multiply flag only scales the share by 100. */
  lemma {:induction false} MultiplyScales(value: Obj, total: Obj)
    requires Percentage(value, total, false).Number?
    ensures Percentage(value, total, true).Number?
    ensures Percentage(value, total, true).value == 100.0 * Percentage(value, total, false).value
  {
  }

  /** A value equal to a non-zero total is 100 percent, and a part between zero and a
      positive total lies between 0 and 100 percent. */
  lemma {:induction false} PercentageBounds(value: Obj, total: Obj)
    requires IsNumber(value) && IsNumber(total) && NumValue(total) > 0.0
    requires 0.0 <= NumValue(value) <= NumValue(total)
    ensures Percentage(value, total, true).Number?
    ensures 0.0 <= Percentage(value, total, true).value <= 100.0
    ensures NumValue(value) == NumValue(total) ==> Percentage(value, total, true).value == 100.0
  {
    var v, t := NumValue(value), NumValue(total);
    UnitShare(v, t);
    assert Percentage(value, total, true).value == v / t * 100.0;
  }

  lemma {:induction false} UnitShare(v: real, t: real)
    requires t > 0.0 && 0.0 <= v <= t
    ensures 0.0 <= v / t <= 1.0
    ensures v == t ==> v / t == 1.0
  {
    SeqMath.DivMonotone(0.0, v, t);
    SeqMath.DivMonotone(v, t, t);
  }

  /** percentage(12, 60) == 20, percentage(12, 60, multiply=False) == .20,
      percentage(12, 0) is None, and the doc example percentage(2, 10) == 20.0. */
  lemma {:induction false} TestPercentage()
    ensures Percentage(Int(12), Int(60), true) == Number(20.0)
    ensures Percentage(Int(12), Int(60), false) == Number(0.2)
    ensures Percentage(Int(12), Int(0), true) == NoneValue
    ensures Percentage(Int(2), Int(10), true) == Number(20.0)
  {
  }
}
