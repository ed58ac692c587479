/** The slice of Python 2 value semantics the library relies on: the objects its
    functions receive, the exceptions they raise, float(), int(), str() of an int,
    the `/` and `-` operators and negative list indexing. */
module Python {
  import opened Calendar
  import SeqMath

  /** The exceptions the library raises or lets escape. */
  datatype Error =
    | TypeError
    | ValueError
    | IndexError
    | KeyError
    | AttributeError
    | ZeroDivisionError
    | OverflowError

  /** The outcome of a call: a returned value or a raised exception. */
  datatype Result<+T> = Ok(value: T) | Raise(error: Error) {
    predicate IsFailure() {
      Raise?
    }

    function PropagateFailure<U>(): Result<U>
      requires Raise?
    {
      Raise(error)
    }

    function Extract(): T
      requires Ok?
    {
      value
    }
  }

  datatype Option<+T> = None | Some(value: T)

  /** What the newer ratio helpers give back: a number, None, or an exception
      instance that is returned to the caller instead of being raised. */
  datatype Returned = Number(value: real) | NoneValue | ErrorInstance(error: Error)

  /** A Python object as the library sees it. None stands for every object that
      is neither a number, a string nor a date (float() refuses it with TypeError). */
  datatype Obj =
    | Int(i: int)
    | Float(f: real)
    | Str(s: string)
    | NoneObj
    | DateObj(date: ValidDate)
    | DateTimeObj(date: ValidDate, secondOfDay: nat)

  /** isinstance(o, (int, long, float)). */
  predicate IsNumber(o: Obj) {
    o.Int? || o.Float?
  }

  /** isinstance(o, (datetime.date, datetime.datetime)). */
  predicate IsDateLike(o: Obj) {
    o.DateObj? || o.DateTimeObj?
  }

  /** d.date() for a datetime, which drops the time of day; a date is itself. */
  function DateOf(o: Obj): ValidDate
    requires IsDateLike(o)
  {
    o.date
  }

  /** `not o`: None, numeric zero and the empty string are false; dates are true. */
  predicate Falsy(o: Obj) {
    o.NoneObj? || o == Int(0) || o == Float(0.0) || o == Str("")
  }

  function NumValue(o: Obj): real
    requires IsNumber(o)
  {
    if o.Int? then o.i as real else o.f
  }

  /** The {'name': ..., 'value': ...} dicts (and the objects built from them) that
      the library's tests rank. */
  datatype Record = Record(name: string, value: real)

  /** The 'value' they are ordered by. */
  function Value(e: Record): real {
    e.value
  }

  /** The argument a function receives where it expects a collection: its Python
      type decides the isinstance checks, and its items are what list() yields. An
      OtherIterable is an iterator (a generator, iter(...)): its items can be read once,
      and a second pass finds none. */
  datatype Arg<T> =
    | PyList(items: seq<T>)
    | PyTuple(items: seq<T>)
    | QuerySet(items: seq<T>)
    | OtherIterable(items: seq<T>)
    | NotIterable

  /** isinstance(a, (list, tuple)). */
  predicate IsListOrTuple<T>(a: Arg<T>) {
    a.PyList? || a.PyTuple?
  }

  /** list(a): the items, or TypeError for an object that cannot be iterated. */
  function ListOf<T>(a: Arg<T>): (r: Result<seq<T>>)
    ensures r.Raise? <==> a.NotIterable?
    ensures r.Raise? ==> r.error == TypeError
    ensures r.Ok? ==> r.value == a.items
  {
    if a.NotIterable? then Raise(TypeError) else Ok(a.items)
  }

  predicate IsDigit(c: char) {
    '0' <= c <= '9'
  }

  function DigitValue(c: char): nat
    requires IsDigit(c)
  {
    c as int - '0' as int
  }

  predicate AllDigits(s: string) {
    forall k :: 0 <= k < |s| ==> IsDigit(s[k])
  }

  /** The number a string of decimal digits denotes. */
  function DigitsValue(s: string): nat
    requires AllDigits(s)
  {
    if s == [] then 0 else DigitsValue(s[..|s| - 1]) * 10 + DigitValue(s[|s| - 1])
  }

  function Pow10(k: nat): (p: nat)
    ensures p >= 1
  {
    if k == 0 then 1 else 10 * Pow10(k - 1)
  }

  function FirstDot(s: string): (k: nat)
    ensures k <= |s|
    ensures k < |s| ==> s[k] == '.'
    ensures forall j :: 0 <= j < k ==> s[j] != '.'
  {
    if s == [] then 0 else if s[0] == '.' then 0 else 1 + FirstDot(s[1..])
  }

  /** An unsigned decimal literal: digits with at most one point, at least one digit. */
  function ParseUnsigned(s: string): Option<real> {
    var k := FirstDot(s);
    var whole := s[..k];
    var frac := if k < |s| then s[k + 1..] else [];
    if AllDigits(whole) && AllDigits(frac) && |whole| + |frac| > 0 then
      Some(DigitsValue(whole) as real + DigitsValue(frac) as real / Pow10(|frac|) as real)
    else
      None
  }

  /** The characters float() strips from both ends of a string: space, tab, line
      feed, vertical tab, form feed and carriage return. */
  predicate IsWhitespace(c: char) {
    c == ' ' || c == '\t' || c == '\n' || c == '\U{B}' || c == '\U{C}' || c == '\r'
  }

  /** The string without its leading whitespace. */
  function TrimLeft(s: string): string {
    if s != [] && IsWhitespace(s[0]) then TrimLeft(s[1..]) else s
  }

  /** The string without its trailing whitespace. */
  function TrimRight(s: string): string {
    if s != [] && IsWhitespace(s[|s| - 1]) then TrimRight(s[..|s| - 1]) else s
  }

  /** s.strip() for the whitespace float() skips. */
  function Strip(s: string): string {
    TrimRight(TrimLeft(s))
  }

  /** TrimLeft cuts a run of whitespace off the front and stops at the first other
      character. */
  lemma {:induction false} TrimLeftShape(s: string)
    ensures var r := TrimLeft(s);
            |r| <= |s| && r == s[|s| - |r|..]
            && (forall k :: 0 <= k < |s| - |r| ==> IsWhitespace(s[k]))
            && (r != [] ==> !IsWhitespace(r[0]))
    decreases |s|
  {
    if s != [] && IsWhitespace(s[0]) {
      TrimLeftShape(s[1..]);
    }
  }

  /** TrimRight cuts a run of whitespace off the back and stops at the last other
      character. */
  lemma {:induction false} TrimRightShape(s: string)
    ensures var r := TrimRight(s);
            |r| <= |s| && r == s[..|r|]
            && (forall k :: |r| <= k < |s| ==> IsWhitespace(s[k]))
            && (r != [] ==> !IsWhitespace(r[|r| - 1]))
    decreases |s|
  {
    if s != [] && IsWhitespace(s[|s| - 1]) {
      TrimRightShape(s[..|s| - 1]);
    }
  }

  /** strip() keeps a middle slice s[i..j] of the string: everything cut off is
      whitespace, and the slice neither starts nor ends with whitespace. */
  lemma {:induction false} StripShape(s: string)
    ensures exists i, j ::
              (0 <= i <= j <= |s| && Strip(s) == s[i..j]
               && (forall k :: 0 <= k < i || j <= k < |s| ==> IsWhitespace(s[k])))
    ensures Strip(s) != [] ==> !IsWhitespace(Strip(s)[0]) && !IsWhitespace(Strip(s)[|Strip(s)| - 1])
  {
    var l := TrimLeft(s);
    TrimLeftShape(s);
    TrimRightShape(l);
    var i := |s| - |l|;
    var j := i + |Strip(s)|;
    assert Strip(s) == s[i..j];
    assert forall k :: j <= k < |s| ==> s[k] == l[k - i];
  }

  /** The index of the first exponent mark 'e' or 'E', or the length when there is none. */
  function FirstExp(s: string): (k: nat)
    ensures k <= |s|
    ensures k < |s| ==> s[k] == 'e' || s[k] == 'E'
    ensures forall j :: 0 <= j < k ==> s[j] != 'e' && s[j] != 'E'
  {
    if s == [] then 0 else if s[0] == 'e' || s[0] == 'E' then 0 else 1 + FirstExp(s[1..])
  }

  /** An exponent: an optional sign and at least one digit. */
  function ParseExponent(s: string): Option<int> {
    if |s| > 0 && (s[0] == '-' || s[0] == '+') then
      var digits := s[1..];
      if |digits| > 0 && AllDigits(digits) then
        Some(if s[0] == '-' then -(DigitsValue(digits) as int) else DigitsValue(digits) as int)
      else None
    else if |s| > 0 && AllDigits(s) then Some(DigitsValue(s) as int)
    else None
  }

  /** v * 10**e, exactly. */
  function Scale(v: real, e: int): real {
    if e >= 0 then v * Pow10(e) as real else v / Pow10(-e) as real
  }

  /** An unsigned literal: a decimal literal, then optionally an exponent mark and an
      exponent. */
  function ParseScientific(s: string): Option<real> {
    var k := FirstExp(s);
    if k == |s| then ParseUnsigned(s)
    else
      match ParseUnsigned(s[..k])
      case None => None
      case Some(v) =>
        match ParseExponent(s[k + 1..])
        case None => None
        case Some(e) => Some(Scale(v, e))
  }

  /** An optionally signed literal with an optional exponent. */
  function ParseSigned(t: string): Option<real> {
    if |t| > 0 && (t[0] == '-' || t[0] == '+') then
      match ParseScientific(t[1..])
      case Some(v) => Some(if t[0] == '-' then -v else v)
      case None => None
    else
      ParseScientific(t)
  }

  /** float(s) for a string: surrounding whitespace is skipped, and what is left is an
      optionally signed decimal literal with an optional exponent. */
  function ParseDecimal(s: string): Option<real> {
    ParseSigned(Strip(s))
  }

  /** Whitespace added at either end of a string leaves what strip() gives unchanged. */
  lemma {:induction false} StripPadded(s: string, c: char)
    requires IsWhitespace(c)
    ensures Strip([c] + s) == Strip(s)
    ensures Strip(s + [c]) == Strip(s)
  {
    assert ([c] + s)[1..] == s;
    TrimLeftSnoc(s, c);
  }

  lemma {:induction false} TrimLeftSnoc(s: string, c: char)
    requires IsWhitespace(c)
    ensures TrimRight(TrimLeft(s + [c])) == TrimRight(TrimLeft(s))
    decreases |s|
  {
    if s == [] {
      assert TrimLeft([c]) == TrimLeft([c][1..]);
    } else if IsWhitespace(s[0]) {
      assert (s + [c])[1..] == s[1..] + [c];
      TrimLeftSnoc(s[1..], c);
    } else {
      assert TrimLeft(s + [c]) == s + [c];
      assert (s + [c])[..|s|] == s;
    }
  }

  /** A string that neither starts nor ends with whitespace is its own strip(). */
  lemma {:induction false} StripBare(s: string)
    requires s != [] ==> !IsWhitespace(s[0]) && !IsWhitespace(s[|s| - 1])
    ensures Strip(s) == s
  {
  }

  /** Whitespace added at either end of a string does not change what float() reads. */
  lemma {:induction false} ParsePadded(s: string, c: char)
    requires IsWhitespace(c)
    ensures ParseDecimal([c] + s) == ParseDecimal(s)
    ensures ParseDecimal(s + [c]) == ParseDecimal(s)
  {
    StripPadded(s, c);
  }

  /** The first exponent mark of m + [mark] + e is the one after the digits m. */
  lemma {:induction false} MarkAfterDigits(m: string, mark: char, e: string)
    requires AllDigits(m) && (mark == 'e' || mark == 'E')
    ensures FirstExp(m + [mark] + e) == |m|
  {
    var s := m + [mark] + e;
    assert s[|m|] == mark;
    assert forall j :: 0 <= j < |m| ==> s[j] == m[j] && IsDigit(s[j]);
  }

  /** A string that starts and ends with a digit is read without stripping anything. */
  lemma {:induction false} DigitEnds(s: string)
    requires |s| > 0 && IsDigit(s[0]) && IsDigit(s[|s| - 1])
    ensures ParseDecimal(s) == ParseScientific(s)
  {
    StripBare(s);
  }

  /** After a run of digits and a mark, the rest is read as the exponent. */
  lemma {:induction false} MarkSplit(m: string, mark: char, x: string)
    requires |m| > 0 && AllDigits(m) && (mark == 'e' || mark == 'E')
    ensures ParseScientific(m + [mark] + x)
            == match ParseExponent(x) case None => None case Some(n) => Some(Scale(DigitsValue(m) as real, n))
  {
    var s := m + [mark] + x;
    MarkAfterDigits(m, mark, x);
    assert s[..|m|] == m && s[|m| + 1..] == x;
    ParseDigits(m);
  }

  /** Digits, a mark and a rest ending in a digit: float() reads the rest as the exponent. */
  lemma {:induction false} MarkForm(m: string, mark: char, x: string)
    requires |m| > 0 && AllDigits(m) && (mark == 'e' || mark == 'E') && |x| > 0 && IsDigit(x[|x| - 1])
    ensures ParseDecimal(m + [mark] + x)
            == match ParseExponent(x) case None => None case Some(n) => Some(Scale(DigitsValue(m) as real, n))
  {
    var s := m + [mark] + x;
    assert s[0] == m[0] && s[|s| - 1] == x[|x| - 1];
    DigitEnds(s);
    MarkSplit(m, mark, x);
  }

  /** A run of digits, a mark, and digits e: float() scales the digits by 10**e. */
  lemma {:induction false} ExponentForm(m: string, mark: char, e: string)
    requires |m| > 0 && AllDigits(m) && |e| > 0 && AllDigits(e) && (mark == 'e' || mark == 'E')
    ensures ParseDecimal(m + [mark] + e) == Some(Scale(DigitsValue(m) as real, DigitsValue(e)))
  {
    assert ParseExponent(e) == Some(DigitsValue(e) as int) by { assert IsDigit(e[0]); }
    MarkForm(m, mark, e);
  }

  /** A run of digits, a mark, '-' and digits e: float() divides the digits by 10**e. */
  lemma {:induction false} NegativeExponentForm(m: string, mark: char, e: string)
    requires |m| > 0 && AllDigits(m) && |e| > 0 && AllDigits(e) && (mark == 'e' || mark == 'E')
    ensures ParseDecimal(m + [mark] + ['-'] + e) == Some(Scale(DigitsValue(m) as real, -(DigitsValue(e) as int)))
  {
    var x := ['-'] + e;
    assert x[1..] == e && x[|x| - 1] == e[|e| - 1];
    NegativeExponent(x, e);
    MarkFormSome(m, mark, x, -(DigitsValue(e) as int));
    assert m + [mark] + ['-'] + e == m + [mark] + x;
  }

  /** MarkForm for an exponent that reads. */
  lemma {:induction false} MarkFormSome(m: string, mark: char, x: string, n: int)
    requires |m| > 0 && AllDigits(m) && (mark == 'e' || mark == 'E') && |x| > 0 && IsDigit(x[|x| - 1])
    requires ParseExponent(x) == Some(n)
    ensures ParseDecimal(m + [mark] + x) == Some(Scale(DigitsValue(m) as real, n))
  {
    MarkForm(m, mark, x);
  }

  lemma {:induction false} NegativeExponent(x: string, e: string)
    requires |e| > 0 && AllDigits(e) && x == ['-'] + e
    ensures ParseExponent(x) == Some(-(DigitsValue(e) as int))
  {
    assert x[1..] == e;
  }

  /** A mark with nothing after it is refused. */
  lemma {:induction false} BareMark(m: string, mark: char)
    requires |m| > 0 && AllDigits(m) && (mark == 'e' || mark == 'E')
    ensures ParseDecimal(m + [mark]) == None
  {
    var s := m + [mark];
    assert s == m + [mark] + [];
    assert IsDigit(s[0]) by { assert s[0] == m[0]; }
    StripBare(s);
    MarkSplit(m, mark, []);
  }

  /** Python's float(o). */
  function ToFloat(o: Obj): (r: Result<real>)
    ensures IsNumber(o) ==> r == Ok(NumValue(o))
    ensures o.Str? ==> (r.Ok? <==> ParseDecimal(o.s).Some?)
    ensures r.Raise? ==> r.error == (if o.Str? then ValueError else TypeError)
  {
    match o
    case Int(i) => Ok(i as real)
    case Float(f) => Ok(f)
    case Str(s) => (match ParseDecimal(s) case Some(v) => Ok(v) case None => Raise(ValueError))
    case _ => Raise(TypeError)
  }

  /** map(float, xs) in Python 2: a list of floats, or the first element's exception. */
  function MapFloat(xs: seq<Obj>): (r: Result<seq<real>>)
    ensures r.Ok? ==> |r.value| == |xs| && forall k :: 0 <= k < |xs| ==> ToFloat(xs[k]) == Ok(r.value[k])
    ensures r.Ok? <==> forall k :: 0 <= k < |xs| ==> ToFloat(xs[k]).Ok?
    ensures r.Raise? ==> exists k :: 0 <= k < |xs| && ToFloat(xs[k]) == Raise(r.error)
  {
    if xs == [] then Ok([])
    else
      match ToFloat(xs[0])
      case Raise(e) => Raise(e)
      case Ok(v) =>
        match MapFloat(xs[1..])
        case Raise(e) => Raise(e)
        case Ok(vs) => Ok([v] + vs)
  }

  /** map stops at the first element float() refuses: the error raised is that element's,
      and every element before it converts. */
  lemma {:induction false} MapFloatFirstError(xs: seq<Obj>) returns (k: nat)
    requires MapFloat(xs).Raise?
    ensures k < |xs| && ToFloat(xs[k]) == Raise(MapFloat(xs).error)
    ensures forall j :: 0 <= j < k ==> ToFloat(xs[j]).Ok?
  {
    if ToFloat(xs[0]).Raise? {
      k := 0;
    } else {
      var rest := MapFloatFirstError(xs[1..]);
      k := rest + 1;
      forall j | 0 < j < k ensures ToFloat(xs[j]).Ok? {
        assert xs[j] == xs[1..][j - 1];
      }
    }
  }

  /** list(map(float, data)): the items of an iterable, each converted by float(). */
  function FloatList(data: Arg<Obj>): (r: Result<seq<real>>)
    ensures data.NotIterable? ==> r == Raise(TypeError)
    ensures !data.NotIterable? ==> r == MapFloat(data.items)
  {
    var items :- ListOf(data);
    MapFloat(items)
  }

  /** A lone digit character as Python writes it. */
  function DigitChar(d: nat): (c: char)
    requires d < 10
    ensures IsDigit(c) && DigitValue(c) == d
  {
    ['0', '1', '2', '3', '4', '5', '6', '7', '8', '9'][d]
  }

  function NatString(n: nat): (s: string)
    ensures |s| > 0 && AllDigits(s)
  {
    if n < 10 then [DigitChar(n)] else NatString(n / 10) + [DigitChar(n % 10)]
  }

  /** str(i) for an int: its decimal digits, after a '-' when negative. */
  function IntString(i: int): string {
    if i < 0 then "-" + NatString(-i) else NatString(i)
  }

  lemma {:induction false} NatStringValue(n: nat)
    ensures DigitsValue(NatString(n)) == n
  {
    if n >= 10 {
      var s := NatString(n);
      assert s[..|s| - 1] == NatString(n / 10);
      NatStringValue(n / 10);
    }
  }

  lemma {:induction false} NoDotInDigits(s: string)
    requires AllDigits(s)
    ensures FirstDot(s) == |s|
  {
    assert forall j :: 0 <= j < |s| ==> s[j] != '.' by {
      forall j | 0 <= j < |s| ensures s[j] != '.' {
        assert IsDigit(s[j]);
      }
    }
  }

  lemma {:induction false} NoExpInDigits(s: string)
    requires AllDigits(s)
    ensures FirstExp(s) == |s|
  {
    assert forall j :: 0 <= j < |s| ==> s[j] != 'e' && s[j] != 'E' by {
      forall j | 0 <= j < |s| ensures s[j] != 'e' && s[j] != 'E' {
        assert IsDigit(s[j]);
      }
    }
  }

  lemma {:induction false} ParseDigits(s: string)
    requires |s| > 0 && AllDigits(s)
    ensures ParseUnsigned(s) == Some(DigitsValue(s) as real)
  {
    NoDotInDigits(s);
    assert s[..FirstDot(s)] == s;
    var frac: string := [];
    assert AllDigits(frac) && DigitsValue(frac) == 0 && Pow10(|frac|) == 1;
    assert ParseUnsigned(s) == Some(DigitsValue(s) as real + DigitsValue(frac) as real / Pow10(|frac|) as real);
  }

  /** Round trip: float(str(i)) == i for every int. */
  lemma {:induction false} FloatOfIntString(i: int)
    ensures ToFloat(Str(IntString(i))) == Ok(i as real)
  {
    if i < 0 {
      NegativeIntString(-i);
    } else {
      NatStringValue(i);
      DigitsRead(NatString(i), i);
    }
  }

  lemma {:induction false} DigitsRead(d: string, n: nat)
    requires |d| > 0 && AllDigits(d) && DigitsValue(d) == n
    ensures ParseDecimal(d) == Some(n as real)
  {
    ScientificDigits(d);
    DigitEnds(d);
  }

  lemma {:induction false} NegativeIntString(n: nat)
    requires n > 0
    ensures ParseDecimal("-" + NatString(n)) == Some(-(n as real))
  {
    NatStringValue(n);
    NegativeValue(NatString(n), n);
  }

  lemma {:induction false} NegativeValue(d: string, n: nat)
    requires |d| > 0 && AllDigits(d) && DigitsValue(d) == n
    ensures ParseDecimal("-" + d) == Some(-(n as real))
  {
    NegativeDigits(d);
  }

  /** '-' and a run of digits is read as minus the number they spell. */
  lemma {:induction false} NegativeDigits(d: string)
    requires |d| > 0 && AllDigits(d)
    ensures ParseDecimal("-" + d) == Some(-(DigitsValue(d) as real))
  {
    var s := "-" + d;
    assert s[1..] == d && s[|s| - 1] == d[|d| - 1];
    assert !IsWhitespace(s[|s| - 1]) by { assert IsDigit(d[|d| - 1]); }
    StripBare(s);
    ScientificDigits(d);
  }

  /** A run of digits is read as the number it spells. */
  lemma {:induction false} ScientificDigits(s: string)
    requires |s| > 0 && AllDigits(s)
    ensures ParseScientific(s) == Some(DigitsValue(s) as real)
  {
    ParseDigits(s);
    NoExpInDigits(s);
  }

  /** int(x) for a float: truncation toward zero. */
  function Trunc(x: real): (r: int)
    ensures x >= 0.0 ==> r == x.Floor
    ensures x >= 0.0 ==> r as real <= x < r as real + 1.0
    ensures x < 0.0 ==> r as real - 1.0 < x <= r as real
  {
    if x >= 0.0 then x.Floor else -((-x).Floor)
  }

  /** The Python 2 `/` operator: floor division on two ints, true division otherwise. */
  function Py2Div(a: Obj, b: Obj): (r: Result<Obj>)
    ensures r.Ok? <==> IsNumber(a) && IsNumber(b) && NumValue(b) != 0.0
    ensures !(IsNumber(a) && IsNumber(b)) ==> r == Raise(TypeError)
    ensures IsNumber(a) && IsNumber(b) && NumValue(b) == 0.0 ==> r == Raise(ZeroDivisionError)
    ensures r.Ok? && !(a.Int? && b.Int?) ==> r.value.Float? && r.value.f * NumValue(b) == NumValue(a)
    ensures r.Ok? && a.Int? && b.Int? ==>
      r.value.Int? && r.value.i as real <= a.i as real / b.i as real < r.value.i as real + 1.0
  {
    if !IsNumber(a) || !IsNumber(b) then Raise(TypeError)
    else if NumValue(b) == 0.0 then Raise(ZeroDivisionError)
    else if a.Int? && b.Int? then Ok(Int((a.i as real / b.i as real).Floor))
    else Ok(Float(NumValue(a) / NumValue(b)))
  }

  /** The `-` operator on numbers (int - int stays an int); anything else is a TypeError. */
  function Sub(a: Obj, b: Obj): (r: Result<Obj>)
    ensures r.Ok? <==> IsNumber(a) && IsNumber(b)
    ensures r.Ok? ==> IsNumber(r.value) && NumValue(r.value) == NumValue(a) - NumValue(b)
    ensures r.Ok? ==> (r.value.Int? <==> a.Int? && b.Int?)
    ensures r.Raise? ==> r.error == TypeError
  {
    if !IsNumber(a) || !IsNumber(b) then Raise(TypeError)
    else if a.Int? && b.Int? then Ok(Int(a.i - b.i))
    else Ok(Float(NumValue(a) - NumValue(b)))
  }

  /** s[k] with Python's negative indexing. */
  function PyIndex<T>(s: seq<T>, k: int): (r: Result<T>)
    ensures r.Ok? <==> -|s| <= k < |s|
    ensures 0 <= k < |s| ==> r == Ok(s[k])
    ensures -|s| <= k < 0 ==> r == Ok(s[|s| + k])
    ensures r.Raise? ==> r.error == IndexError
  {
    if 0 <= k < |s| then Ok(s[k])
    else if -|s| <= k < 0 then Ok(s[|s| + k])
    else Raise(IndexError)
  }

  lemma {:induction false} MultisetSplice<T>(p: seq<T>, v: T, q: seq<T>)
    ensures multiset(p + ([v] + q)) == multiset(p) + multiset{v} + multiset(q)
  {
  }

  lemma {:induction false} MapFloatAppend(a: seq<Obj>, b: seq<Obj>)
    ensures MapFloat(a + b).Ok? <==> MapFloat(a).Ok? && MapFloat(b).Ok?
    ensures MapFloat(a + b).Ok? ==> MapFloat(a + b).value == MapFloat(a).value + MapFloat(b).value
  {
    var ab := a + b;
    assert forall k :: 0 <= k < |a| ==> ab[k] == a[k];
    assert forall k :: 0 <= k < |b| ==> ab[|a| + k] == b[k];
    if MapFloat(a).Ok? && MapFloat(b).Ok? {
      assert MapFloat(ab).Ok?;
      ConvertedAppend(a, b, MapFloat(a).value, MapFloat(b).value, MapFloat(ab).value);
    }
  }

  /** Element by element, the conversion of a + b is the conversions of a and b. */
  lemma {:induction false} ConvertedAppend(a: seq<Obj>, b: seq<Obj>, va: seq<real>, vb: seq<real>, v: seq<real>)
    requires |va| == |a| && |vb| == |b| && |v| == |a| + |b|
    requires forall k :: 0 <= k < |a| ==> ToFloat(a[k]) == Ok(va[k])
    requires forall k :: 0 <= k < |b| ==> ToFloat(b[k]) == Ok(vb[k])
    requires forall k :: 0 <= k < |a| + |b| ==> ToFloat((a + b)[k]) == Ok(v[k])
    ensures v == va + vb
  {
    forall k | 0 <= k < |v|
      ensures v[k] == (va + vb)[k]
    {
      if k < |a| {
        assert (a + b)[k] == a[k];
        assert Ok(v[k]) == ToFloat(a[k]) == Ok(va[k]);
      } else {
        assert (a + b)[k] == b[k - |a|];
        assert Ok(v[k]) == ToFloat(b[k - |a|]) == Ok(vb[k - |a|]);
      }
    }
  }

  /** Converting a rearranged list gives the same values, rearranged. */
  lemma {:induction false} MapFloatPermutation(a: seq<Obj>, b: seq<Obj>)
    requires multiset(a) == multiset(b) && MapFloat(a).Ok?
    ensures MapFloat(b).Ok?
    ensures multiset(MapFloat(a).value) == multiset(MapFloat(b).value)
    decreases |a|
  {
    if a == [] {
      assert |b| == |multiset(b)| == 0;
    } else {
      var x := a[0];
      var k := MatchHead(a, b);
      var rest := b[..k] + b[k + 1..];
      MapFloatPermutation(a[1..], rest);
      var v := ToFloat(x).value;
      assert MapFloat(a).value == [v] + MapFloat(a[1..]).value;
      MapFloatSplice(b[..k], x, b[k + 1..]);
    }
  }

  /** Where b, a rearrangement of a, holds a[0]; the rest of b rearranges a[1..]. */
  lemma {:induction false} MatchHead<T>(a: seq<T>, b: seq<T>) returns (k: int)
    requires multiset(a) == multiset(b) && |a| > 0
    ensures 0 <= k < |b| && b[k] == a[0]
    ensures b == b[..k] + ([a[0]] + b[k + 1..])
    ensures multiset(a[1..]) == multiset(b[..k] + b[k + 1..])
  {
    assert a[0] in multiset(b) by {
      assert a[0] in a;
    }
    k :| 0 <= k < |b| && b[k] == a[0];
    SeqMath.MultisetTail(a);
    SeqMath.MultisetRemove(b, k);
    SeqMath.SplitAt(b, k);
  }

  /** Converting p + [x] + q adds the value of x to the values of p + q. */
  lemma {:induction false} MapFloatSplice(p: seq<Obj>, x: Obj, q: seq<Obj>)
    requires MapFloat(p + q).Ok? && ToFloat(x).Ok?
    ensures MapFloat(p + ([x] + q)).Ok?
    ensures multiset(MapFloat(p + ([x] + q)).value) == multiset(MapFloat(p + q).value) + multiset{ToFloat(x).value}
  {
    var v := ToFloat(x).value;
    MapFloatAppend(p, q);
    var b1, b2 := MapFloat(p).value, MapFloat(q).value;
    assert MapFloat([x]) == Ok([v]) by {
      assert [x][1..] == [];
      assert [v] + [] == [v];
    }
    MapFloatAppend([x], q);
    MapFloatAppend(p, [x] + q);
    assert MapFloat(p + ([x] + q)).value == b1 + ([v] + b2);
    MultisetSplice(b1, v, b2);
  }

  /** float() over an iterable of numbers gives their values. */
  lemma {:induction false} FloatListOfNumbers(data: Arg<Obj>, ys: seq<real>)
    requires !data.NotIterable? && |data.items| == |ys|
    requires forall k :: 0 <= k < |ys| ==> IsNumber(data.items[k]) && NumValue(data.items[k]) == ys[k]
    ensures FloatList(data) == Ok(ys)
  {
    var r := MapFloat(data.items);
    assert r.Ok?;
    assert r.value == ys by {
      assert forall k :: 0 <= k < |ys| ==> ToFloat(data.items[k]) == Ok(r.value[k]);
    }
  }
}
