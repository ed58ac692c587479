/** calculate/age.py: a person's age in whole years on a given date. */
module Age {
  import opened Calendar
  import opened Python

  /** d.replace(year=year, day=day): the same month, or ValueError when that date does
      not exist. */
  function Replace(d: ValidDate, year: int, day: int): (r: Result<ValidDate>)
    requires MinYear <= year <= MaxYear
    ensures r.Ok? <==> Valid(Date(year, d.month, day))
    ensures r.Ok? ==> r.value == Date(year, d.month, day)
    ensures r.Raise? ==> r.error == ValueError
  {
    var e := Date(year, d.month, day);
    if Valid(e) then Ok(e) else Raise(ValueError)
  }

  /** The birthday in a year: born.replace(year=year), and when that raises ValueError
      the day before, so a February 29 birthday falls on February 28 outside leap years. */
  function Anniversary(born: ValidDate, year: int): (a: ValidDate)
    requires MinYear <= year <= MaxYear
    ensures a.year == year && a.month == born.month
    ensures a.day == (if born.month == 2 && born.day == 29 && !IsLeapYear(year) then 28 else born.day)
  {
    match Replace(born, year, born.day)
    case Ok(tmp) => tmp
    case Raise(_) =>
      // Only February 29 can be missing from another year, and February 28 never is.
      Replace(born, year, born.day - 1).value
  }

  /** The comparison after the anniversary is built: as_of.year - born.year, one less
      while the anniversary in as_of's year is still ahead. */
  function AgeOn(born: ValidDate, asOf: ValidDate): int {
    if Before(asOf, Anniversary(born, asOf.year)) then asOf.year - born.year - 1
    else asOf.year - born.year
  }

  /** age(born, as_of): a false as_of (None by default) means today, which is a
      parameter here; datetimes are cut to their dates. born.replace(year=as_of.year)
      looks up born.replace first, so a number or None raises AttributeError there; then
      as_of.year, which raises AttributeError for anything but a date; and a string's
      replace takes no keyword arguments, so a string born then raises TypeError, which
      the except ValueError does not catch. */
  function Age(born: Obj, asOf: Obj, today: ValidDate): (r: Result<int>)
    ensures r.Raise? <==> !IsDateLike(born) || (!Falsy(asOf) && !IsDateLike(asOf))
    ensures r.Raise? && born.Str? && (Falsy(asOf) || IsDateLike(asOf)) ==> r.error == TypeError
    ensures r.Raise? && !(born.Str? && (Falsy(asOf) || IsDateLike(asOf))) ==> r.error == AttributeError
    ensures r.Ok? && Falsy(asOf) ==> r.value == AgeOn(DateOf(born), today)
    ensures r.Ok? && !Falsy(asOf) ==> r.value == AgeOn(DateOf(born), DateOf(asOf))
  {
    var when := if Falsy(asOf) then DateObj(today) else asOf;
    if !IsDateLike(born) && !born.Str? then Raise(AttributeError)
    else if !IsDateLike(when) then Raise(AttributeError)
    else if born.Str? then Raise(TypeError)
    else Ok(AgeOn(DateOf(born), DateOf(when)))
  }

  /** On or after the birth date, the age n is the number of anniversaries passed: the
      n-th one is not after as_of and the next one is. */
  lemma {:induction false} WholeYears(born: ValidDate, asOf: ValidDate)
    requires NotAfter(born, asOf)
    ensures var n := AgeOn(born, asOf);
            0 <= n && born.year + n <= asOf.year
            && NotAfter(Anniversary(born, born.year + n), asOf)
            && (born.year + n + 1 <= MaxYear ==> Before(asOf, Anniversary(born, born.year + n + 1)))
  {
    var y := asOf.year;
    var a := Anniversary(born, y);
    if Before(asOf, a) {
      var prior := Anniversary(born, y - 1);
      assert Before(prior, asOf);
    } else if y < MaxYear {
      var next := Anniversary(born, y + 1);
      assert Before(asOf, next);
    }
  }

  /** A later as_of never gives a smaller age. */
  lemma {:induction false} AgeMonotone(born: ValidDate, a: ValidDate, b: ValidDate)
    requires NotAfter(a, b)
    ensures AgeOn(born, a) <= AgeOn(born, b)
  {
    if a.year == b.year {
      var t := Anniversary(born, a.year);
      if Before(b, t) {
        assert Before(a, t);
      }
    }
  }

  /** On the birthday itself the age has already gone up. */
  lemma {:induction false} Birthday(born: ValidDate, year: int)
    requires MinYear <= year <= MaxYear
    ensures AgeOn(born, Anniversary(born, year)) == year - born.year
    ensures year > MinYear ==> AgeOn(born, DayBefore(Anniversary(born, year))) == year - born.year - 1
  {
    var t := Anniversary(born, year);
    if year > MinYear {
      var e := DayBefore(t);
      assert Before(e, t);
    }
  }

  /** The day before d; the first day of year 1 has none, so year 1 is excluded. */
  function DayBefore(d: ValidDate): (e: ValidDate)
    requires d.year > MinYear
    ensures Before(e, d) && e.year >= d.year - 1
    ensures d.day > 1 ==> e == Date(d.year, d.month, d.day - 1)
  {
    if d.day > 1 then Date(d.year, d.month, d.day - 1)
    else if d.month > 1 then Date(d.year, d.month - 1, DaysInMonth(d.year, d.month - 1))
    else Date(d.year - 1, 12, 31)
  }

  /** Born on February 29: outside a leap year the age goes up on February 28, in a
      leap year not before February 29. */
  lemma {:induction false} LeapDay(born: ValidDate, year: int)
    requires born.month == 2 && born.day == 29 && MinYear <= year <= MaxYear
    ensures !IsLeapYear(year) ==> AgeOn(born, Date(year, 2, 28)) == year - born.year
    ensures !IsLeapYear(year) ==> AgeOn(born, Date(year, 2, 27)) == year - born.year - 1
    ensures IsLeapYear(year) ==> AgeOn(born, Date(year, 2, 28)) == year - born.year - 1
    ensures IsLeapYear(year) ==> AgeOn(born, Date(year, 2, 29)) == year - born.year
  {
  }

  /** The tests: born 1982-07-22, 29 on 2011-12-03 whether either date is a date or a
      datetime; born on 1984-02-29, 27; born 2010-12-04, 0 on the day before. */
  lemma {:induction false} TestAge(today: ValidDate, born: ValidDate, leap: ValidDate, baby: ValidDate, asOf: ValidDate)
    requires born == Date(1982, 7, 22) && leap == Date(1984, 2, 29)
    requires baby == Date(2010, 12, 4) && asOf == Date(2011, 12, 3)
    ensures Age(DateTimeObj(born, 0), DateObj(asOf), today) == Ok(29)
    ensures Age(DateObj(born), DateObj(asOf), today) == Ok(29)
    ensures Age(DateTimeObj(born, 0), DateTimeObj(asOf, 0), today) == Ok(29)
    ensures Age(DateObj(born), DateTimeObj(asOf, 0), today) == Ok(29)
    ensures Age(DateObj(leap), DateObj(asOf), today) == Ok(27)
    ensures Age(DateObj(baby), DateObj(asOf), today) == Ok(0)
  {
    assert AgeOn(born, asOf) == 29;
    assert Anniversary(leap, 2011) == Date(2011, 2, 28);
    assert AgeOn(leap, asOf) == 27;
    assert Before(asOf, Anniversary(baby, 2011));
  }

  /** No date to compare: a missing as_of is today; a string as_of raises
      AttributeError at .year; a string born raises TypeError at the keyword call when
      as_of is a date and AttributeError when as_of is a string too; a number born has no
      .replace at all. */
  lemma {:induction false} TestAgeDefaults(today: ValidDate, born: ValidDate)
    ensures Age(DateObj(born), NoneObj, today) == Ok(AgeOn(born, today))
    ensures Age(DateObj(born), Str("2011-12-03"), today) == Raise(AttributeError)
    ensures Age(Str("1982-07-22"), DateObj(today), today) == Raise(TypeError)
    ensures Age(Str("1982-07-22"), NoneObj, today) == Raise(TypeError)
    ensures Age(Str("1982-07-22"), Str("2011-12-03"), today) == Raise(AttributeError)
    ensures Age(Int(1982), DateObj(today), today) == Raise(AttributeError)
  {
  }
}
