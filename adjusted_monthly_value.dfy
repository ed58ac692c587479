/** calculate/adjusted_monthly_value.py: a monthly figure prorated to a 30-day month. */
module AdjustedMonthlyValue {
  import opened Calendar
  import opened Python
  import opened SeqMath

  /** adjusted_monthly_value(value, dt): value must be an int or long (a float is
      refused too) and dt a date or datetime, each else a TypeError; the result is
      value * (30.0 / days in dt's month). */
  function AdjustedMonthlyValue(value: Obj, dt: Obj): (r: Result<real>)
    ensures r.Ok? <==> value.Int? && IsDateLike(dt)
    ensures r.Raise? ==> r.error == TypeError
    ensures r.Ok? ==> IsRate(r.value, value.i as real, DaysInMonth(DateOf(dt).year, DateOf(dt).month) as real, 30.0)
  {
    if !value.Int? then Raise(TypeError)
    else if !IsDateLike(dt) then Raise(TypeError)
    else
      var lengthOfMonth := DaysInMonth(DateOf(dt).year, DateOf(dt).month);
      var adjustment := 30.0 / lengthOfMonth as real;
      Prorated(value.i as real, lengthOfMonth as real);
      Ok(value.i as real * adjustment)
  }

  lemma {:induction false} Prorated(v: real, days: real)
    requires days != 0.0
    ensures IsRate(v * (30.0 / days), v, days, 30.0)
  {
    assert 30.0 / days * days == 30.0;
    assert v * (30.0 / days) * days == v * (30.0 / days * days);
  }

  /** Only the year and the month of dt matter: not the day, nor the time of day. */
  lemma {:induction false} MonthOnly(value: int, a: Obj, b: Obj)
    requires IsDateLike(a) && IsDateLike(b)
    requires DateOf(a).year == DateOf(b).year && DateOf(a).month == DateOf(b).month
    ensures AdjustedMonthlyValue(Int(value), a) == AdjustedMonthlyValue(Int(value), b)
  {
  }

  /** A 30-day month leaves the value as it is; for a positive value a 31-day month
      lowers it and February raises it. */
  lemma {:induction false} MonthLength(value: int, dt: Obj)
    requires IsDateLike(dt)
    ensures var days := DaysInMonth(DateOf(dt).year, DateOf(dt).month);
            var r := AdjustedMonthlyValue(Int(value), dt).value;
            (days == 30 ==> r == value as real)
            && (value > 0 && days == 31 ==> r < value as real)
            && (value > 0 && DateOf(dt).month == 2 ==> r > value as real)
  {
    var days := DaysInMonth(DateOf(dt).year, DateOf(dt).month);
    var v := value as real;
    var r := AdjustedMonthlyValue(Int(value), dt).value;
    assert r * days as real == v * 30.0;
    if value > 0 {
      Compare(r, v, days as real);
    }
  }

  lemma {:induction false} Compare(r: real, v: real, days: real)
    requires v > 0.0 && days > 0.0 && r * days == v * 30.0
    ensures days == 30.0 ==> r == v
    ensures days > 30.0 ==> r < v
    ensures days < 30.0 ==> r > v
  {
    assert (r - v) * days == v * (30.0 - days);
    if r - v >= 0.0 {
      MulNonnegative(r - v, days);
    }
    if v - r >= 0.0 {
      MulNonnegative(v - r, days);
    }
    if days > 30.0 {
      MulPositive(v, days - 30.0);
    }
    if days < 30.0 {
      MulPositive(v, 30.0 - days);
    }
  }

  /** The tests: 10 in April 2009 stays 10, in February 2009 (28 days) becomes 300 / 28
      and in December 2009 300 / 31; a string value, a string date and an int date are
      TypeErrors. */
  lemma {:induction false} TestAdjustedMonthlyValue(april: ValidDate, february: ValidDate, december: ValidDate)
    requires april == Date(2009, 4, 1) && february == Date(2009, 2, 17) && december == Date(2009, 12, 31)
    ensures AdjustedMonthlyValue(Int(10), DateTimeObj(april, 10 * 60 + 10)) == Ok(10.0)
    ensures AdjustedMonthlyValue(Int(10), DateTimeObj(february, 0)) == Ok(300.0 / 28.0)
    ensures AdjustedMonthlyValue(Int(10), DateObj(december)) == Ok(300.0 / 31.0)
    ensures AdjustedMonthlyValue(Str("a"), DateObj(december)) == Raise(TypeError)
    ensures AdjustedMonthlyValue(Int(10), Str("2010-01-01")) == Raise(TypeError)
    ensures AdjustedMonthlyValue(Int(10), Int(2)) == Raise(TypeError)
  {
    assert !IsLeapYear(2009);
  }
}
