/** calculate/benfords_law.py: the digit tabulation behind the Benford's law test. Each
    number enters as the text str(number) gives for it; the log10 of the first-digit
    table is a parameter. */
module BenfordsLaw {
  import opened Python
  import opened SeqMath

  /** The two retrieval methods benfords_law accepts. */
  predicate Supported(methodName: string) {
    methodName == "last_digit" || methodName == "first_digit"
  }

  /** int(c) for a one-character string: its digit, or ValueError for anything else. */
  function IntOfChar(c: char): (r: Result<int>)
    ensures r.Ok? <==> IsDigit(c)
    ensures r.Ok? ==> 0 <= r.value <= 9 && DigitChar(r.value) == c
    ensures r.Raise? ==> r.error == ValueError
  {
    if IsDigit(c) then DigitOf(c); Ok(DigitValue(c)) else Raise(ValueError)
  }

  lemma {:induction false} DigitOf(c: char)
    requires IsDigit(c)
    ensures DigitValue(c) <= 9 && DigitChar(DigitValue(c)) == c
  {
    var d := DigitValue(c);
    assert d == 0 || d == 1 || d == 2 || d == 3 || d == 4 || d == 5 || d == 6 || d == 7 || d == 8 || d == 9;
  }

  /** _get_first_digit: int(str(number)[0]); an empty text has no first character. */
  function FirstDigit(text: string): (r: Result<int>)
    ensures text == [] ==> r == Raise(IndexError)
    ensures text != [] ==> r == IntOfChar(text[0])
  {
    var c :- PyIndex(text, 0);
    IntOfChar(c)
  }

  /** _get_last_digit: int(str(number)[-1]). */
  function LastDigit(text: string): (r: Result<int>)
    ensures text == [] ==> r == Raise(IndexError)
    ensures text != [] ==> r == IntOfChar(text[|text| - 1])
  {
    var c :- PyIndex(text, -1);
    IntOfChar(c)
  }

  /** method_obj, the helper '_get_%s' % method names among the locals. */
  function Digit(methodName: string, text: string): Result<int>
    requires Supported(methodName)
  {
    if methodName == "first_digit" then FirstDigit(text) else LastDigit(text)
  }

  /** The leading decimal digit of n. */
  function Leading(n: nat): (d: nat)
    ensures d <= 9 && (n > 0 ==> d > 0)
  {
    if n < 10 then n else Leading(n / 10)
  }

  /** For an int: the last digit of str(i) is |i| % 10, the first is the leading digit,
      and a negative number fails on its '-' with ValueError. */
  lemma {:induction false} DigitsOfInt(i: int)
    ensures LastDigit(IntString(i)) == Ok(if i < 0 then -i % 10 else i % 10)
    ensures i < 0 ==> FirstDigit(IntString(i)) == Raise(ValueError)
    ensures i >= 0 ==> FirstDigit(IntString(i)) == Ok(Leading(i))
  {
    var n: nat := if i < 0 then -i else i;
    var s := NatString(n);
    if n < 10 {
      assert s == [DigitChar(n)];
    } else {
      assert s == NatString(n / 10) + [DigitChar(n % 10)];
    }
    assert s[|s| - 1] == DigitChar(n % 10);
    assert IntString(i)[|IntString(i)| - 1] == s[|s| - 1];
    DigitOf(DigitChar(n % 10));
    if i >= 0 {
      LeadingChar(n);
    } else {
      assert IntString(i)[0] == '-';
    }
  }

  lemma {:induction false} LeadingChar(n: nat)
    ensures NatString(n)[0] == DigitChar(Leading(n))
  {
    if n >= 10 {
      LeadingChar(n / 10);
      assert NatString(n)[0] == NatString(n / 10)[0];
    }
  }

  /** The digits of the texts in input order; the first text without one raises. */
  function DigitsOf(methodName: string, texts: seq<string>): Result<seq<int>>
    requires Supported(methodName)
  {
    if texts == [] then Ok([])
    else
      var init :- DigitsOf(methodName, texts[..|texts| - 1]);
      var digit :- Digit(methodName, texts[|texts| - 1]);
      Ok(init + [digit])
  }

  /** Once a prefix of the input raises, the whole input raises the same way. */
  lemma {:induction false} PrefixFailure(methodName: string, texts: seq<string>, k: nat)
    requires Supported(methodName) && k <= |texts|
    requires DigitsOf(methodName, texts[..k]).Raise?
    ensures DigitsOf(methodName, texts) == DigitsOf(methodName, texts[..k])
    decreases |texts|
  {
    if k < |texts| {
      var init := texts[..|texts| - 1];
      assert init[..k] == texts[..k];
      PrefixFailure(methodName, init, k);
    } else {
      assert texts[..k] == texts;
    }
  }

  /** The digit_list loop of lines 128-131. */
  method CollectDigits(methodName: string, texts: seq<string>) returns (r: Result<seq<int>>)
    requires Supported(methodName)
    ensures r == DigitsOf(methodName, texts)
  {
    var digitList: seq<int> := [];
    for i := 0 to |texts|
      invariant DigitsOf(methodName, texts[..i]) == Ok(digitList)
    {
      assert texts[..i + 1][..i] == texts[..i];
      var digit := Digit(methodName, texts[i]);
      if digit.Raise? {
        PrefixFailure(methodName, texts, i + 1);
        return Raise(digit.error);
      }
      digitList := digitList + [digit.value];
    }
    assert texts[..|texts|] == texts;
    r := Ok(digitList);
  }

  /** The input yields digits exactly when every text does; they are, position by
      position, those texts' digits; otherwise the first failing text's error is raised. */
  lemma {:induction false} DigitsOfShape(methodName: string, texts: seq<string>) returns (k: int)
    requires Supported(methodName)
    ensures var r := DigitsOf(methodName, texts);
            r.Ok? <==> forall i :: 0 <= i < |texts| ==> Digit(methodName, texts[i]).Ok?
    ensures var r := DigitsOf(methodName, texts);
            r.Ok? ==> |r.value| == |texts| && forall i :: 0 <= i < |texts| ==> r.value[i] == Digit(methodName, texts[i]).value
    ensures var r := DigitsOf(methodName, texts);
            r.Raise? ==> 0 <= k < |texts| && Digit(methodName, texts[k]).Raise? && r.error == Digit(methodName, texts[k]).error
                         && forall i :: 0 <= i < k ==> Digit(methodName, texts[i]).Ok?
    decreases |texts|
  {
    k := 0;
    if texts != [] {
      var n := |texts| - 1;
      var init := texts[..n];
      var j := DigitsOfShape(methodName, init);
      assert forall i :: 0 <= i < n ==> init[i] == texts[i];
      if DigitsOf(methodName, init).Raise? {
        k := j;
      } else {
        k := n;
      }
    }
  }

  /** A row of the results table: [number, count, expected_percentage, actual_percentage]. */
  datatype Row = Row(number: int, count: nat, expected: real, actual: real)

  /** What benfords_law hands to pearson: the expected-percentage column (list_one) and
      the expected table, which pearson's float() conversion iterates as its digit keys in
      ascending order (list_two). */
  datatype Analysis = Analysis(results: seq<Row>, listOne: seq<real>, listTwo: seq<int>)

  /** The expected share of first digit d: log10(1 + 1/d) * 100. */
  function Expectation(log10: real -> real, d: int): real
    requires d > 0
  {
    log10(1.0 + 1.0 / d as real) * 100.0
  }

  /** typical_distributions['first_digit']: the expected share of d for d in 1..9. */
  function FirstDigitTable(log10: real -> real): map<int, real> {
    map d: int | 1 <= d <= 9 :: Expectation(log10, d)
  }

  /** typical_distributions['last_digit']: 10.0 for each of the digits 0..9. */
  function LastDigitTable(): map<int, real> {
    map d: int | d in Digits :: 10.0
  }

  /** The decimal digits. */
  const Digits: set<int> := set d: int | 0 <= d <= 9

  function Expected(methodName: string, log10: real -> real): map<int, real> {
    if methodName == "first_digit" then FirstDigitTable(log10) else LastDigitTable()
  }

  /** The loop of lines 118-120 and the update of lines 122-125. */
  method TypicalDistributions(log10: real -> real) returns (first: map<int, real>, last: map<int, real>)
    ensures first == FirstDigitTable(log10) && last == LastDigitTable()
  {
    first := map[];
    for number := 1 to 10
      invariant first == map d: int | 1 <= d < number :: Expectation(log10, d)
    {
      var logValue := log10(1.0 + 1.0 / number as real) * 100.0;
      first := first[number := logValue];
    }
    last := map[0 := 10.0, 1 := 10.0, 2 := 10.0, 3 := 10.0, 4 := 10.0,
                5 := 10.0, 6 := 10.0, 7 := 10.0, 8 := 10.0, 9 := 10.0];
  }

  /** The keys of table below n, ascending. */
  function KeysBelow(table: map<int, real>, n: nat): (keys: seq<int>)
    ensures forall j :: 0 <= j < |keys| ==> keys[j] in table && 0 <= keys[j] < n
  {
    if n == 0 then [] else KeysBelow(table, n - 1) + (if n - 1 in table then [n - 1] else [])
  }

  /** Every key below n is listed, and the list ascends. */
  lemma {:induction false} KeysBelowShape(table: map<int, real>, n: nat)
    ensures var keys := KeysBelow(table, n);
            (forall k :: 0 <= k < n && k in table ==> k in keys)
            && forall i, j :: 0 <= i < j < |keys| ==> keys[i] < keys[j]
  {
    KeysListed(table, n);
    KeysAscending(table, n);
  }

  lemma {:induction false} KeysListed(table: map<int, real>, n: nat)
    ensures forall k :: 0 <= k < n && k in table ==> k in KeysBelow(table, n)
  {
    if n > 0 {
      KeysListed(table, n - 1);
      var init, keys := KeysBelow(table, n - 1), KeysBelow(table, n);
      if n - 1 in table {
        assert keys == init + [n - 1];
        assert keys[|init|] == n - 1;
      } else {
        assert keys == init;
      }
    }
  }

  lemma {:induction false} KeysAscending(table: map<int, real>, n: nat)
    ensures forall i, j :: 0 <= i < j < |KeysBelow(table, n)| ==> KeysBelow(table, n)[i] < KeysBelow(table, n)[j]
  {
    if n > 0 {
      KeysAscending(table, n - 1);
      var init, keys := KeysBelow(table, n - 1), KeysBelow(table, n);
      if n - 1 in table {
        assert keys == init + [n - 1];
        forall i, j | 0 <= i < j < |keys|
          ensures keys[i] < keys[j]
        {
          assert keys[i] == init[i] && init[i] < n - 1;
          if j < |init| {
            assert keys[j] == init[j];
          } else {
            assert keys[j] == n - 1;
          }
        }
      } else {
        assert keys == init;
      }
    }
  }

  /** Below n the keys of a table are exactly the numbers lo..n-1: they come out in
      order. */
  lemma {:induction false} KeysRange(table: map<int, real>, lo: nat, n: nat)
    requires lo <= n
    requires forall k :: 0 <= k < n ==> (k in table <==> lo <= k)
    ensures |KeysBelow(table, n)| == n - lo
    ensures forall j :: 0 <= j < n - lo ==> KeysBelow(table, n)[j] == lo + j
  {
    if n > lo {
      KeysRange(table, lo, n - 1);
    } else if n > 0 {
      KeysNone(table, n);
    }
  }

  lemma {:induction false} KeysNone(table: map<int, real>, n: nat)
    requires forall k :: 0 <= k < n ==> k !in table
    ensures KeysBelow(table, n) == []
  {
    if n > 0 {
      KeysNone(table, n - 1);
    }
  }

  /** count / float(len(digit_list)) * 100.0. */
  function Percent(count: nat, total: nat): real
    requires total != 0
  {
    count as real / total as real * 100.0
  }

  /** The results loop of lines 135-142 over the numbers below n: a number missing from
      the table is skipped, and with no digits at all the first division raises. */
  function Tabulated(digits: seq<int>, table: map<int, real>, n: nat): (r: Result<seq<Row>>)
    requires n <= 10
    ensures |digits| > 0 ==> r.Ok?
    ensures r.Raise? ==> r.error == ZeroDivisionError
    ensures r.Ok? ==> Numbers(r.value) == KeysBelow(table, n) && AllTally(digits, table, r.value)
  {
    if n == 0 then Ok([])
    else
      var init :- Tabulated(digits, table, n - 1);
      var number := n - 1;
      var count := multiset(digits)[number];
      if number !in table then Ok(init)
      else if |digits| == 0 then Raise(ZeroDivisionError)
      else
        var row := Row(number, count, table[number], Percent(count, |digits|));
        RateOf(count as real, |digits| as real, 100.0);
        AppendRow(digits, table, init, row);
        Ok(init + [row])
  }

  /** The numbers of the rows, in order. */
  function Numbers(rows: seq<Row>): (numbers: seq<int>)
    ensures |numbers| == |rows| && forall j :: 0 <= j < |rows| ==> numbers[j] == rows[j].number
  {
    seq(|rows|, j requires 0 <= j < |rows| => rows[j].number)
  }

  predicate AllTally(digits: seq<int>, table: map<int, real>, rows: seq<Row>) {
    forall j :: 0 <= j < |rows| ==> Tallies(digits, table, rows[j])
  }

  lemma {:induction false} AppendRow(digits: seq<int>, table: map<int, real>, rows: seq<Row>, row: Row)
    requires AllTally(digits, table, rows) && Tallies(digits, table, row)
    ensures AllTally(digits, table, rows + [row])
    ensures Numbers(rows + [row]) == Numbers(rows) + [row.number]
  {
  }

  /** Once the loop has raised, it stays raised. */
  lemma {:induction false} FailureStays(digits: seq<int>, table: map<int, real>, n: nat)
    requires n <= 10 && Tabulated(digits, table, n).Raise?
    ensures Tabulated(digits, table, 10) == Tabulated(digits, table, n)
    decreases 10 - n
  {
    if n < 10 {
      FailureStays(digits, table, n + 1);
    }
  }

  method Tabulate(digits: seq<int>, table: map<int, real>) returns (r: Result<seq<Row>>)
    ensures r == Tabulated(digits, table, 10)
  {
    var results: seq<Row> := [];
    for number := 0 to 10
      invariant Tabulated(digits, table, number) == Ok(results)
    {
      var count := multiset(digits)[number];
      if number !in table {
        continue;
      }
      var expected := table[number];
      if |digits| == 0 {
        FailureStays(digits, table, number + 1);
        return Raise(ZeroDivisionError);
      }
      var actual := Percent(count, |digits|);
      results := results + [Row(number, count, expected, actual)];
    }
    r := Ok(results);
  }

  /** A row tells the truth about the digits: its count is how often its number occurs,
      its expected figure is the table's, and its actual figure is the count as a
      percentage of all the digits. */
  predicate Tallies(digits: seq<int>, table: map<int, real>, row: Row) {
    row.number in table && row.count == multiset(digits)[row.number] && row.expected == table[row.number]
    && IsRate(row.actual, row.count as real, |digits| as real, 100.0)
  }

  /** With no digits at all the loop raises as soon as a number is in the table. */
  lemma {:induction false} TabulatedEmpty(table: map<int, real>, n: nat)
    requires n <= 10
    ensures Tabulated([], table, n).Ok? <==> KeysBelow(table, n) == []
  {
    if n > 0 {
      TabulatedEmpty(table, n - 1);
    }
  }

  /** The whole of benfords_law up to the call to pearson: the method check comes before
      the input is read, list() of a non-iterable is a TypeError, then the digits and the
      table. */
  function Analyzed(numberList: Arg<string>, methodName: string, log10: real -> real): (r: Result<Analysis>)
    ensures !Supported(methodName) ==> r == Raise(ValueError)
    ensures Supported(methodName) && numberList.NotIterable? ==> r == Raise(TypeError)
    ensures Supported(methodName) && !numberList.NotIterable? && DigitsOf(methodName, numberList.items).Raise? ==>
              r.Raise? && r.error == DigitsOf(methodName, numberList.items).error
    ensures r.Ok? ==> Supported(methodName) && !numberList.NotIterable? && DigitsOf(methodName, numberList.items).Ok?
    ensures r.Ok? ==> Describes(DigitsOf(methodName, numberList.items).value, Expected(methodName, log10), r.value)
  {
    if !Supported(methodName) then Raise(ValueError)
    else
      var table := Expected(methodName, log10);
      var texts :- ListOf(numberList);
      var digits :- DigitsOf(methodName, texts);
      var results :- Tabulated(digits, table, 10);
      Ok(Analysis(results, ExpectedColumn(results), KeysBelow(table, 10)))
  }

  /** An analysis of the digits under the table: one row per table key in ascending
      order, each telling the truth, list_one the rows' expected figures and list_two
      the keys. */
  predicate Describes(digits: seq<int>, table: map<int, real>, a: Analysis) {
    a.listTwo == KeysBelow(table, 10) && Numbers(a.results) == a.listTwo && AllTally(digits, table, a.results)
    && |a.listOne| == |a.results| && forall j :: 0 <= j < |a.results| ==> a.listOne[j] == a.results[j].expected
  }

  /** list_one = [i[2] for i in results]. */
  function ExpectedColumn(results: seq<Row>): (column: seq<real>)
    ensures |column| == |results| && forall j :: 0 <= j < |results| ==> column[j] == results[j].expected
  {
    seq(|results|, j requires 0 <= j < |results| => results[j].expected)
  }

  /** benfords_law(number_list, method) as the source runs it. */
  method BenfordsLaw(numberList: Arg<string>, methodName: string, log10: real -> real) returns (r: Result<Analysis>)
    ensures r == Analyzed(numberList, methodName, log10)
  {
    if !Supported(methodName) {
      return Raise(ValueError);
    }
    var first, last := TypicalDistributions(log10);
    var table := if methodName == "first_digit" then first else last;
    if numberList.NotIterable? {
      return Raise(TypeError);
    }
    var digitList := CollectDigits(methodName, numberList.items);
    if digitList.Raise? {
      return Raise(digitList.error);
    }
    var results := Tabulate(digitList.value, table);
    if results.Raise? {
      return Raise(results.error);
    }
    var listOne := ExpectedColumn(results.value);
    r := Ok(Analysis(results.value, listOne, KeysBelow(table, 10)));
  }

  /** The digit keys of the two tables: 1..9 for first_digit (0 is skipped by the
      KeyError), 0..9 for last_digit. */
  lemma {:induction false} TableKeys(methodName: string, log10: real -> real)
    requires Supported(methodName)
    ensures var keys := KeysBelow(Expected(methodName, log10), 10);
            var lo := if methodName == "first_digit" then 1 else 0;
            |keys| == 10 - lo && forall j :: 0 <= j < |keys| ==> keys[j] == lo + j
  {
    var lo := if methodName == "first_digit" then 1 else 0;
    KeysRange(Expected(methodName, log10), lo, 10);
  }

  /** Given digits to count, the result has a row per table digit in ascending order:
      1..9 under first_digit, 0..9 under last_digit; list_two is the same digits. */
  lemma {:induction false} AnalyzedRows(numberList: Arg<string>, methodName: string, log10: real -> real)
    requires Supported(methodName) && !numberList.NotIterable?
    requires DigitsOf(methodName, numberList.items).Ok? && |numberList.items| > 0
    ensures var r := Analyzed(numberList, methodName, log10);
            var lo := if methodName == "first_digit" then 1 else 0;
            r.Ok? && |r.value.results| == 10 - lo && |r.value.listTwo| == 10 - lo
            && forall j :: 0 <= j < 10 - lo ==> r.value.results[j].number == lo + j && r.value.listTwo[j] == lo + j
  {
    var k := DigitsOfShape(methodName, numberList.items);
    TableKeys(methodName, log10);
    var r := Analyzed(numberList, methodName, log10).value;
    assert Numbers(r.results) == r.listTwo;
  }

  /** An empty number_list raises ZeroDivisionError at the first percentage. */
  lemma {:induction false} EmptyList(numberList: Arg<string>, methodName: string, log10: real -> real)
    requires Supported(methodName) && !numberList.NotIterable? && numberList.items == []
    ensures Analyzed(numberList, methodName, log10) == Raise(ZeroDivisionError)
  {
    TabulatedEmpty(Expected(methodName, log10), 10);
    TableKeys(methodName, log10);
  }

  /** The counts do not reach what pearson is given: whenever two inputs both succeed
      under the same method, list_one and list_two are the same. */
  lemma {:induction false} PearsonIgnoresCounts(a: Arg<string>, b: Arg<string>, methodName: string, log10: real -> real)
    requires Analyzed(a, methodName, log10).Ok? && Analyzed(b, methodName, log10).Ok?
    ensures Analyzed(a, methodName, log10).value.listOne == Analyzed(b, methodName, log10).value.listOne
    ensures Analyzed(a, methodName, log10).value.listTwo == Analyzed(b, methodName, log10).value.listTwo
  {
    var ra, rb := Analyzed(a, methodName, log10).value, Analyzed(b, methodName, log10).value;
    assert ra.listOne == rb.listOne by {
      forall j | 0 <= j < |ra.listOne| ensures ra.listOne[j] == rb.listOne[j] {
        assert ra.listTwo[j] == rb.listTwo[j];
      }
    }
  }

  /** [i[3] for i in results]: the actual-percentage column. */
  function ActualColumn(results: seq<Row>): (column: seq<real>)
    ensures |column| == |results| && forall j :: 0 <= j < |results| ==> column[j] == results[j].actual
  {
    seq(|results|, j requires 0 <= j < |results| => results[j].actual)
  }

  /** The comparison the comment before the pearson call describes: the expected
      percentages against the actual ones, row by row. */
  function ComparedColumns(a: Analysis): (columns: (seq<real>, seq<real>)) {
    (ExpectedColumn(a.results), ActualColumn(a.results))
  }

  /** The corrected comparison sees the data: for two digit lists of one length whose
      counts differ at some row's number, the actual column differs at that row, while
      the expected column is the same. */
  lemma {:induction false} ComparedSeesCounts(da: seq<int>, db: seq<int>, table: map<int, real>, x: Analysis, y: Analysis, j: int)
    requires Describes(da, table, x) && Describes(db, table, y) && |da| == |db| > 0
    requires 0 <= j < |x.results| && multiset(da)[x.results[j].number] != multiset(db)[x.results[j].number]
    ensures |ComparedColumns(y).1| == |x.results| && ComparedColumns(x).0 == ComparedColumns(y).0
    ensures ComparedColumns(x).1[j] != ComparedColumns(y).1[j]
  {
    assert Numbers(x.results) == Numbers(y.results);
    var n := |da| as real;
    var rx, ry := x.results[j], y.results[j];
    assert rx.number == ry.number;
    assert Tallies(da, table, rx) && Tallies(db, table, ry);
    assert rx.actual * n == rx.count as real * 100.0;
    assert ry.actual * n == ry.count as real * 100.0;
    assert ComparedColumns(x).0 == ComparedColumns(y).0 by {
      forall k | 0 <= k < |x.results| ensures ComparedColumns(x).0[k] == ComparedColumns(y).0[k] {
        assert Tallies(da, table, x.results[k]) && Tallies(db, table, y.results[k]);
        assert x.results[k].number == y.results[k].number;
      }
    }
  }

  /** How many of the digits are below n. */
  function CountsBelow(digits: seq<int>, n: nat): nat {
    if n == 0 then 0 else CountsBelow(digits, n - 1) + multiset(digits)[n - 1]
  }

  function CountColumn(results: seq<Row>): nat {
    if results == [] then 0 else CountColumn(results[..|results| - 1]) + results[|results| - 1].count
  }

  lemma {:induction false} CountsBelowSnoc(digits: seq<int>, x: int, n: nat)
    ensures CountsBelow(digits + [x], n) == CountsBelow(digits, n) + (if 0 <= x < n then 1 else 0)
  {
    if n > 0 {
      CountsBelowSnoc(digits, x, n - 1);
      assert multiset(digits + [x]) == multiset(digits) + multiset{x};
    }
  }

  /** Digits all below n are all counted below n. */
  lemma {:induction false} CountsBelowAll(digits: seq<int>, n: nat)
    requires forall i :: 0 <= i < |digits| ==> 0 <= digits[i] < n
    ensures CountsBelow(digits, n) == |digits|
  {
    if digits != [] {
      var init := digits[..|digits| - 1];
      assert digits == init + [digits[|digits| - 1]];
      CountsBelowAll(init, n);
      CountsBelowSnoc(init, digits[|digits| - 1], n);
    } else {
      CountsNone(n);
    }
  }

  lemma {:induction false} CountsNone(n: nat)
    ensures CountsBelow([], n) == 0
  {
    if n > 0 {
      CountsNone(n - 1);
    }
  }

  /** With every number below n in the table, the count column adds up the counts of
      all digits below n. */
  lemma {:induction false} CountColumnSum(digits: seq<int>, table: map<int, real>, n: nat)
    requires n <= 10 && forall k :: 0 <= k < n ==> k in table
    requires Tabulated(digits, table, n).Ok?
    ensures CountColumn(Tabulated(digits, table, n).value) == CountsBelow(digits, n)
  {
    if n > 0 {
      CountColumnSum(digits, table, n - 1);
      var init := Tabulated(digits, table, n - 1).value;
      var rows := Tabulated(digits, table, n).value;
      assert rows[..|rows| - 1] == init;
    }
  }

  /** The rows of a successful analysis are the results loop's. */
  lemma {:induction false} ResultsOf(numberList: Arg<string>, methodName: string, log10: real -> real)
    requires Analyzed(numberList, methodName, log10).Ok?
    ensures Tabulated(DigitsOf(methodName, numberList.items).value, Expected(methodName, log10), 10).Ok?
    ensures Analyzed(numberList, methodName, log10).value.results
            == Tabulated(DigitsOf(methodName, numberList.items).value, Expected(methodName, log10), 10).value
  {
  }

  /** Last digits are 0..9. */
  lemma {:induction false} LastDigitsBelowTen(texts: seq<string>)
    requires DigitsOf("last_digit", texts).Ok?
    ensures var digits := DigitsOf("last_digit", texts).value;
            forall i :: 0 <= i < |digits| ==> 0 <= digits[i] < 10
  {
    var digits := DigitsOf("last_digit", texts).value;
    var k := DigitsOfShape("last_digit", texts);
    forall i | 0 <= i < |digits| ensures 0 <= digits[i] < 10 {
      assert digits[i] == LastDigit(texts[i]).value;
    }
  }

  /** Under last_digit every digit has its row, so the counts add up to the length of
      number_list. */
  lemma {:induction false} LastDigitCounts(numberList: Arg<string>, log10: real -> real)
    requires Analyzed(numberList, "last_digit", log10).Ok?
    ensures CountColumn(Analyzed(numberList, "last_digit", log10).value.results) == |numberList.items|
  {
    var texts := numberList.items;
    var digits := DigitsOf("last_digit", texts).value;
    var k := DigitsOfShape("last_digit", texts);
    LastDigitsBelowTen(texts);
    ResultsOf(numberList, "last_digit", log10);
    LastDigitSum(digits, Analyzed(numberList, "last_digit", log10).value.results);
  }

  /** Digits all in 0..9 are all counted by the rows of the last-digit table. */
  lemma {:induction false} LastDigitSum(digits: seq<int>, rows: seq<Row>)
    requires forall i :: 0 <= i < |digits| ==> 0 <= digits[i] < 10
    requires Tabulated(digits, LastDigitTable(), 10) == Ok(rows)
    ensures CountColumn(rows) == |digits|
  {
    CountsBelowAll(digits, 10);
    CountColumnSum(digits, LastDigitTable(), 10);
  }

  /** The tests' inputs 1..10. */
  predicate OneToTen(texts: seq<string>) {
    texts == ["1", "2", "3", "4", "5", "6", "7", "8", "9", "10"]
  }

  /** The digits of 1..10: the first digits are 1..9 then 1, the last 1..9 then 0. */
  lemma {:induction false} TestDigits(texts: seq<string>)
    requires OneToTen(texts)
    ensures DigitsOf("first_digit", texts) == Ok([1, 2, 3, 4, 5, 6, 7, 8, 9, 1])
    ensures DigitsOf("last_digit", texts) == Ok([1, 2, 3, 4, 5, 6, 7, 8, 9, 0])
  {
    DigitsOfTen("first_digit", texts);
    DigitsOfTen("last_digit", texts);
  }

  lemma {:induction false} DigitsOfTen(methodName: string, texts: seq<string>)
    requires Supported(methodName) && OneToTen(texts)
    ensures DigitsOf(methodName, texts)
            == Ok([1, 2, 3, 4, 5, 6, 7, 8, 9, if methodName == "first_digit" then 1 else 0])
  {
    var k := DigitsOfShape(methodName, texts);
    var digits := DigitsOf(methodName, texts).value;
    assert digits == [1, 2, 3, 4, 5, 6, 7, 8, 9, if methodName == "first_digit" then 1 else 0];
  }

  lemma {:induction false} OnceEach(digits: seq<int>)
    requires digits == [1, 2, 3, 4, 5, 6, 7, 8, 9, 0]
    ensures forall j :: 0 <= j < 10 ==> multiset(digits)[j] == 1
  {
    var m := multiset(digits);
    assert m[0] == 1 && m[1] == 1 && m[2] == 1 && m[3] == 1 && m[4] == 1;
    assert m[5] == 1 && m[6] == 1 && m[7] == 1 && m[8] == 1 && m[9] == 1;
    forall j | 0 <= j < 10 ensures m[j] == 1 {
      assert j == 0 || j == 1 || j == 2 || j == 3 || j == 4 || j == 5 || j == 6 || j == 7 || j == 8 || j == 9;
    }
  }

  lemma {:induction false} OneTwice(digits: seq<int>)
    requires digits == [1, 2, 3, 4, 5, 6, 7, 8, 9, 1]
    ensures multiset(digits)[1] == 2
  {
  }

  /** The test under last_digit: every digit of 1..10 occurs once, so each row reads 10%
      against 10% expected and list_one is ten equal figures, for which pearson gives 0. */
  lemma {:induction false} TestLastDigit(numberList: Arg<string>, log10: real -> real)
    requires numberList.PyList? && OneToTen(numberList.items)
    ensures var r := Analyzed(numberList, "last_digit", log10);
            r.Ok? && |r.value.results| == 10
            && forall j :: 0 <= j < 10 ==> r.value.results[j] == Row(j, 1, 10.0, 10.0) && r.value.listOne[j] == 10.0
  {
    TestDigits(numberList.items);
    var digits := DigitsOf("last_digit", numberList.items).value;
    OnceEach(digits);
    AnalyzedRows(numberList, "last_digit", log10);
    var r := Analyzed(numberList, "last_digit", log10).value;
    forall j | 0 <= j < 10 ensures r.results[j] == Row(j, 1, 10.0, 10.0) && r.listOne[j] == 10.0 {
      var row := r.results[j];
      assert Tallies(digits, LastDigitTable(), row);
      assert row.actual * 10.0 == 100.0;
    }
  }

  /** The test under first_digit: 1 leads both 1 and 10, so its row counts 2, or 20%. */
  lemma {:induction false} TestFirstDigit(numberList: Arg<string>, log10: real -> real)
    requires numberList.PyList? && OneToTen(numberList.items)
    ensures var r := Analyzed(numberList, "first_digit", log10);
            r.Ok? && |r.value.results| == 9 && r.value.results[0].number == 1
            && r.value.results[0].count == 2 && r.value.results[0].actual == 20.0
  {
    TestDigits(numberList.items);
    var digits := DigitsOf("first_digit", numberList.items).value;
    OneTwice(digits);
    AnalyzedRows(numberList, "first_digit", log10);
    var row := Analyzed(numberList, "first_digit", log10).value.results[0];
    assert Tallies(digits, FirstDigitTable(log10), row);
    TalliesTen(digits, FirstDigitTable(log10), row);
  }

  /** Of ten digits, a row whose number occurs twice reads 20%. */
  lemma {:induction false} TalliesTen(digits: seq<int>, table: map<int, real>, row: Row)
    requires |digits| == 10 && Tallies(digits, table, row) && row.number == 1 && multiset(digits)[1] == 2
    ensures row.count == 2 && row.actual == 20.0
  {
    assert row.actual * 10.0 == 200.0;
  }

  /** The tests' failures: an unknown method is a ValueError before the input is looked
      at, even one that cannot be iterated, and the float 10.0 cannot be iterated. */
  lemma {:induction false} TestBenfordsErrors(numberList: Arg<string>, log10: real -> real)
    requires numberList.PyList? && OneToTen(numberList.items)
    ensures Analyzed(numberList, "magic", log10) == Raise(ValueError)
    ensures Analyzed(NotIterable, "magic", log10) == Raise(ValueError)
    ensures Analyzed(NotIterable, "first_digit", log10) == Raise(TypeError)
  {
  }
}
