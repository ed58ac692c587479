/** calculate/date_range.py: every day from a start date to an end date, inclusive. */
module DateRange {
  import opened Calendar
  import opened Python

  /** The generator object _make(start_date, end_date), not yet run. */
  datatype Generator = Make(start: ValidDate, end: ValidDate)

  /** date_range(start_date, end_date): datetimes are cut to their dates, and a start
      after the end raises ValueError when date_range is called, before anything is
      iterated. Arguments that are not dates raise TypeError here, at the call. */
  function DateRange(startDate: Obj, endDate: Obj): (r: Result<Generator>)
    ensures r.Ok? <==> IsDateLike(startDate) && IsDateLike(endDate) && NotAfter(DateOf(startDate), DateOf(endDate))
    ensures r.Raise? ==> r.error == (if IsDateLike(startDate) && IsDateLike(endDate) then ValueError else TypeError)
    ensures r.Ok? ==> r.value.start == DateOf(startDate) && r.value.end == DateOf(endDate)
  {
    if !IsDateLike(startDate) || !IsDateLike(endDate) then Raise(TypeError)
    else
      var s, e := DateOf(startDate), DateOf(endDate);
      if Before(e, s) then Raise(ValueError) else Ok(Make(s, e))
  }

  /** What list() of the generator collects from day d on: d is yielded, then
      d + timedelta(days=1), which overflows past MaxDate, and the loop stops once
      that day is after end. */
  function Yielded(d: ValidDate, end: ValidDate): Result<seq<ValidDate>>
    decreases DayNumber(MaxDate) - DayNumber(d)
  {
    if d == MaxDate then Raise(OverflowError)
    else
      var next := NextDay(d);
      if Before(end, next) then Ok([d])
      else
        NextDayNumber(d);
        BeforeIffDayNumber(next, MaxDate);
        var rest :- Yielded(next, end);
        Ok([d] + rest)
  }

  /** out followed by what r collects, or r's exception. */
  function After(out: seq<ValidDate>, r: Result<seq<ValidDate>>): Result<seq<ValidDate>> {
    if r.Ok? then Ok(out + r.value) else r
  }

  /** list(generator): the while True loop that yields and steps one day at a time. */
  method Drain(g: Generator) returns (r: Result<seq<ValidDate>>)
    ensures r == Yielded(g.start, g.end)
  {
    var out: seq<ValidDate> := [];
    var d := g.start;
    AfterAfter([], [], Yielded(d, g.end));
    while true
      invariant Yielded(g.start, g.end) == After(out, Yielded(d, g.end))
      decreases DayNumber(MaxDate) - DayNumber(d)
    {
      ghost var before := out;
      out := out + [d];
      if d == MaxDate {
        return Raise(OverflowError);
      }
      var next := NextDay(d);
      if Before(g.end, next) {
        return Ok(out);
      }
      NextDayNumber(d);
      BeforeIffDayNumber(next, MaxDate);
      assert Yielded(d, g.end) == After([d], Yielded(next, g.end));
      AfterAfter(before, [d], Yielded(next, g.end));
      d := next;
    }
  }

  lemma {:induction false} AfterAfter(a: seq<ValidDate>, b: seq<ValidDate>, r: Result<seq<ValidDate>>)
    ensures After(a, After(b, r)) == After(a + b, r)
    ensures After([], r) == r
  {
    if r.Ok? {
      assert a + (b + r.value) == (a + b) + r.value;
      assert [] + r.value == r.value;
    }
  }

  /** The inclusive run of consecutive days from start to end, as the caller means it. */
  function Days(start: ValidDate, end: ValidDate): seq<ValidDate>
    requires NotAfter(start, end)
    decreases DayNumber(end) - DayNumber(start)
  {
    if start == end then [start]
    else
      Step(start, end);
      var next := NextDay(start);
      [start] + Days(next, end)
  }

  /** The run starts at start, ends at end, has one more entry than the days between
      them, and each entry is the day after the one before. */
  lemma {:induction false} DaysShape(start: ValidDate, end: ValidDate)
    requires NotAfter(start, end)
    ensures var s := Days(start, end);
            |s| == DayNumber(end) - DayNumber(start) + 1 && s[0] == start && s[|s| - 1] == end
    ensures var s := Days(start, end);
            forall i :: 0 <= i < |s| ==> DayNumber(s[i]) == DayNumber(start) + i
    ensures var s := Days(start, end);
            forall i :: 0 <= i < |s| - 1 ==> s[i] != MaxDate && s[i + 1] == NextDay(s[i])
  {
    var s := Days(start, end);
    DaysNumbered(start, end);
    DaysEnd(start, end);
    forall i | 0 <= i < |s| - 1 ensures s[i] != MaxDate && s[i + 1] == NextDay(s[i]) {
      BeforeIffDayNumber(s[i], s[i + 1]);
      BeforeIffDayNumber(s[i], MaxDate);
      NextDayNumber(s[i]);
      DayNumberInjective(s[i + 1], NextDay(s[i]));
    }
  }

  /** Before end, start has a next day, no later than end and one day number on. */
  lemma {:induction false} Step(start: ValidDate, end: ValidDate)
    requires NotAfter(start, end) && start != end
    ensures start != MaxDate && NotAfter(NextDay(start), end)
    ensures DayNumber(NextDay(start)) == DayNumber(start) + 1 <= DayNumber(end)
  {
    BeforeIffDayNumber(start, end);
    BeforeIffDayNumber(start, MaxDate);
    NextDayNumber(start);
    BeforeIffDayNumber(NextDay(start), end);
    DayNumberInjective(NextDay(start), end);
  }

  /** Entry i of the run is i days after start. */
  lemma {:induction false} DaysNumbered(start: ValidDate, end: ValidDate)
    requires NotAfter(start, end)
    ensures var s := Days(start, end);
            |s| > 0 && s[0] == start && forall i :: 0 <= i < |s| ==> DayNumber(s[i]) == DayNumber(start) + i
    decreases DayNumber(end) - DayNumber(start)
  {
    if start != end {
      Step(start, end);
      var next := NextDay(start);
      DaysNumbered(next, end);
      var s, t := Days(start, end), Days(next, end);
      assert s == [start] + t;
      forall i | 0 <= i < |s| ensures DayNumber(s[i]) == DayNumber(start) + i {
        if i > 0 {
          assert s[i] == t[i - 1];
        }
      }
    }
  }

  /** The run ends at end, so it is DayNumber(end) - DayNumber(start) + 1 long. */
  lemma {:induction false} DaysEnd(start: ValidDate, end: ValidDate)
    requires NotAfter(start, end)
    ensures var s := Days(start, end);
            |s| > 0 && s[|s| - 1] == end && |s| == DayNumber(end) - DayNumber(start) + 1
  {
    var s := Days(start, end);
    DaysNumbered(start, end);
    DaysLast(start, end);
    DayNumberInjective(s[|s| - 1], end);
  }

  lemma {:induction false} DaysLast(start: ValidDate, end: ValidDate)
    requires NotAfter(start, end)
    ensures var s := Days(start, end);
            |s| > 0 && s[|s| - 1] == end
    decreases DayNumber(end) - DayNumber(start)
  {
    if start != end {
      Step(start, end);
      var next := NextDay(start);
      DaysLast(next, end);
    }
  }

  /** Before the last representable date, list() of the generator is the inclusive run
      of days; with end at MaxDate the step after it overflows and list() raises. */
  lemma {:induction false} YieldedDays(start: ValidDate, end: ValidDate)
    requires NotAfter(start, end)
    ensures end != MaxDate ==> Yielded(start, end) == Ok(Days(start, end))
    ensures end == MaxDate ==> Yielded(start, end) == Raise(OverflowError)
    decreases DayNumber(end) - DayNumber(start)
  {
    if start != end {
      Step(start, end);
      var next := NextDay(start);
      BeforeIffDayNumber(end, next);
      YieldedDays(next, end);
    }
  }

  /** The test: 2009-01-01 12:31 to 2009-01-03 gives the three days, and a start after
      the end raises ValueError. */
  lemma {:induction false} TestDateRange(a: ValidDate, b: ValidDate, c: ValidDate)
    requires a == Date(2009, 1, 1) && b == Date(2009, 1, 2) && c == Date(2009, 1, 3)
    ensures DateRange(DateTimeObj(a, 12 * 3600 + 31 * 60), DateObj(c)) == Ok(Make(a, c))
    ensures Yielded(a, c) == Ok([a, b, c])
    ensures DateRange(DateObj(Date(2011, 1, 1)), DateObj(Date(2010, 12, 31))) == Raise(ValueError)
  {
    assert NextDay(a) == b && NextDay(b) == c && NextDay(c) == Date(2009, 1, 4);
    assert Yielded(c, c) == Ok([c]);
    assert !Before(c, c) && [b] + [c] == [b, c];
    assert Yielded(b, c) == Ok([b, c]);
    assert !Before(c, b) && [a] + [b, c] == [a, b, c];
  }
}
