/** calculate/percentage_change.py: the change from an old to a new value as a share
    of the old one, in percent by default. */
module PercentageChange {
  import opened Python

  /** percentage_change(old_value, new_value, multiply): a non-number argument gives
      back a ValueError instance, a zero old value gives None, and otherwise
      (new_value - old_value) / float(old_value), times 100 when multiply is set. */
  function PercentageChange(oldValue: Obj, newValue: Obj, multiply: bool): (r: Returned)
    ensures r.ErrorInstance? <==> !IsNumber(oldValue) || !IsNumber(newValue)
    ensures r.ErrorInstance? ==> r.error == ValueError
    ensures r.NoneValue? <==> IsNumber(oldValue) && IsNumber(newValue) && NumValue(oldValue) == 0.0
    ensures r.Number? ==>
              NumValue(oldValue) + r.value * NumValue(oldValue) / (if multiply then 100.0 else 1.0)
                == NumValue(newValue)
  {
    if !IsNumber(oldValue) then ErrorInstance(ValueError)
    else if !IsNumber(newValue) then ErrorInstance(ValueError)
    else
      var change := NumValue(newValue) - NumValue(oldValue);
      if NumValue(oldValue) == 0.0 then NoneValue
      else
        var percentageChange := change / NumValue(oldValue);
        Number(if multiply then percentageChange * 100.0 else percentageChange)
  }

  /** From a positive old value the change is positive exactly when the value grew, zero
      exactly when it stayed, and negative exactly when it fell; a fall to zero is -100
      percent from any non-zero old value. */
  lemma {:induction false} ChangeSign(oldValue: Obj, newValue: Obj)
    requires IsNumber(oldValue) && IsNumber(newValue) && NumValue(oldValue) != 0.0
    ensures PercentageChange(oldValue, newValue, true).Number?
    ensures NumValue(oldValue) > 0.0 ==>
              (PercentageChange(oldValue, newValue, true).value > 0.0 <==> NumValue(newValue) > NumValue(oldValue))
    ensures NumValue(oldValue) > 0.0 ==>
              (PercentageChange(oldValue, newValue, true).value < 0.0 <==> NumValue(newValue) < NumValue(oldValue))
    ensures PercentageChange(oldValue, newValue, true).value == 0.0 <==> NumValue(newValue) == NumValue(oldValue)
    ensures NumValue(newValue) == 0.0 ==> PercentageChange(oldValue, newValue, true).value == -100.0
  {
    var o, n := NumValue(oldValue), NumValue(newValue);
    var q := (n - o) / o;
    assert PercentageChange(oldValue, newValue, true).value == q * 100.0;
    QuotientSign(n - o, o);
    if n == 0.0 {
      FallToZero(n - o, o);
    }
  }

  lemma {:induction false} FallToZero(x: real, d: real)
    requires d != 0.0 && x == -d
    ensures x / d == -1.0
  {
    assert x / d * d == x;
  }

  lemma {:induction false} QuotientSign(x: real, d: real)
    requires d != 0.0
    ensures d > 0.0 ==> (x / d > 0.0 <==> x > 0.0) && (x / d < 0.0 <==> x < 0.0)
    ensures x / d == 0.0 <==> x == 0.0
  {
    assert x / d * d == x;
  }

  /** percentage_change(12, 60) == 400, with multiply=False 4.0, (12, 0) == -100 and
      (0, 12) is None; (2, 10) is 400.0, not the 200.0 the doc string shows. */
  lemma {:induction false} TestPercentageChange()
    ensures PercentageChange(Int(12), Int(60), true) == Number(400.0)
    ensures PercentageChange(Int(12), Int(60), false) == Number(4.0)
    ensures PercentageChange(Int(12), Int(0), true) == Number(-100.0)
    ensures PercentageChange(Int(0), Int(12), true) == NoneValue
    ensures PercentageChange(Int(2), Int(10), true) == Number(400.0)
  {
  }
}
