/** calculate/equal_sized_breakpoints.py: the cut points that split a sorted list into
    classes of equal size, interpolated between neighbouring values. */
module EqualSizedBreakpoints {
  import opened Python
  import opened SeqMath
  import opened Sorting

  /** a = (i / float(classes)) * n, the fractional position of cut i among n values. */
  function Position(n: nat, classes: int, i: int): real
    requires classes > 0
  {
    (i as real / classes as real) * n as real
  }

  /** Cut i of the sorted values s: with aa = int(a) and r = a - aa, the value
      (1 - r) * s[aa] + r * s[aa + 1]; an index past the end is an IndexError. */
  function Cut(s: seq<real>, classes: int, i: int): (r: Result<real>)
    requires 0 <= i < classes
    ensures r.Raise? ==> r.error == IndexError
  {
    var a := Position(|s|, classes, i);
    var aa := Trunc(a);
    var lo :- PyIndex(s, aa);
    var hi :- PyIndex(s, aa + 1);
    Ok(Interpolate(lo, hi, a - aa as real))
  }

  /** (1 - r) * lo + r * hi: the point a fraction r of the way from lo to hi. */
  function Interpolate(lo: real, hi: real, r: real): real {
    (1.0 - r) * lo + r * hi
  }

  /** The first k cuts in order, or the first cut's error. */
  function Cuts(s: seq<real>, classes: int, k: nat): (r: Result<seq<real>>)
    requires k <= Classes(classes)
    ensures r.Raise? ==> r.error == IndexError
    ensures r.Ok? ==> |r.value| == k
  {
    if k == 0 then Ok([])
    else
      var earlier :- Cuts(s, classes, k - 1);
      var c :- Cut(s, classes, k - 1);
      Ok(earlier + [c])
  }

  /** range(classes) is empty when classes is not positive. */
  function Classes(classes: int): nat {
    if classes > 0 then classes else 0
  }

  /** The list returned: every cut, then float(data_list[n - 1]). */
  function Breaks(s: seq<real>, classes: int): Result<seq<real>> {
    var cuts :- Cuts(s, classes, Classes(classes));
    var last :- PyIndex(s, |s| - 1);
    Ok(cuts + [last])
  }

  /** equal_sized_breakpoints(data_list, classes): sorts the caller's list in place and
      appends one cut per class, then the last value. */
  method EqualSizedBreakpoints(data: array<real>, classes: int) returns (r: Result<seq<real>>)
    modifies data
    ensures data[..] == SortSeq(old(data[..]))
    ensures r == Breaks(data[..], classes)
  {
    SortReals(data);
    r := CutSorted(data, classes);
  }

  /** The loop over the classes on the sorted list, then the final value. */
  method CutSorted(data: array<real>, classes: int) returns (r: Result<seq<real>>)
    ensures r == Breaks(data[..], classes)
  {
    ghost var s := data[..];
    var n := data.Length;
    var breaks: seq<real> := [];
    for i := 0 to Classes(classes)
      invariant Cuts(s, classes, i) == Ok(breaks)
    {
      var q := i as real / classes as real;
      var a := q * n as real;
      var aa := Trunc(q * n as real);
      var rem := a - aa as real;
      PositionOf(q, n, classes, i);
      if !(0 <= aa + 1 < n) {
        CutsFail(s, classes, i, Classes(classes));
        return Raise(IndexError);
      }
      var point := Interpolate(data[aa], data[aa + 1], rem);
      CutStep(s, classes, i, breaks);
      breaks := breaks + [point];
    }
    var last := PyIndex(data[..], n - 1);
    if last.Raise? {
      return Raise(last.error);
    }
    return Ok(breaks + [last.value]);
  }

  /** q * n, the source's own arrangement of the expression, is the position of cut i. */
  lemma {:induction false} PositionOf(q: real, n: nat, classes: int, i: int)
    requires classes > 0 && q == i as real / classes as real
    ensures q * n as real == Position(n, classes, i)
  {
  }

  /** A cut whose two indexes are in range extends the run of cuts by its value. */
  lemma {:induction false} CutStep(s: seq<real>, classes: int, i: int, earlier: seq<real>)
    requires 0 <= i < Classes(classes) && Cuts(s, classes, i) == Ok(earlier)
    requires 0 <= Trunc(Position(|s|, classes, i)) + 1 < |s|
    ensures var a := Position(|s|, classes, i);
            var aa := Trunc(a);
            Cuts(s, classes, i + 1) == Ok(earlier + [Interpolate(s[aa], s[aa + 1], a - aa as real)])
  {
    var a := Position(|s|, classes, i);
    PositionStep(|s|, classes, i);
    var aa := Trunc(a);
    assert PyIndex(s, aa) == Ok(s[aa]) && PyIndex(s, aa + 1) == Ok(s[aa + 1]);
    assert Cut(s, classes, i) == Ok(Interpolate(s[aa], s[aa + 1], a - aa as real));
  }

  /** A failing cut makes every longer run of cuts fail with IndexError. */
  lemma {:induction false} CutsFail(s: seq<real>, classes: int, i: int, k: nat)
    requires 0 <= i < k <= Classes(classes) && Cuts(s, classes, i).Ok?
    requires !(0 <= Trunc(Position(|s|, classes, i)) + 1 < |s|)
    ensures Cuts(s, classes, k) == Raise(IndexError)
    decreases k
  {
    if k - 1 > i {
      CutsFail(s, classes, i, k - 1);
    } else {
      assert Cut(s, classes, i) == Raise(IndexError);
    }
  }

  /** The position arithmetic: a grows by n / classes per class, from 0 to n. */
  lemma {:induction false} PositionStep(n: nat, classes: int, i: int)
    requires classes > 0
    ensures Position(n, classes, i + 1) == Position(n, classes, i) + n as real / classes as real
    ensures Position(n, classes, 0) == 0.0 && Position(n, classes, classes) == n as real
    ensures i >= 0 ==> Position(n, classes, i) >= 0.0
  {
    var c, m := classes as real, n as real;
    assert (i + 1) as real / c == i as real / c + 1.0 / c;
    assert (i as real / c + 1.0 / c) * m == i as real / c * m + 1.0 / c * m;
    assert 1.0 / c * m == m / c;
    if i >= 0 {
      MulNonnegative(i as real / c, m);
    }
  }

  /** For fewer classes than values, cut i reads s[aa] and s[aa + 1] with aa + 1 < n, and
      the next cut reads from a strictly later aa. */
  lemma {:induction false} IndexInRange(n: nat, classes: int, i: int)
    requires 0 < classes < n && 0 <= i < classes
    ensures 0 <= Trunc(Position(n, classes, i)) && Trunc(Position(n, classes, i)) + 1 < n
    ensures i + 1 < classes ==> Trunc(Position(n, classes, i)) < Trunc(Position(n, classes, i + 1))
  {
    var d := n as real / classes as real;
    assert d > 1.0 by {
      DivMonotone(classes as real, n as real, classes as real);
      assert classes as real / classes as real == 1.0;
      assert d != 1.0;
    }
    PositionStep(n, classes, i);
    PositionStep(n, classes, i + 1);
    assert Position(n, classes, i + 1) <= n as real by {
      PositionBelow(n, classes, i + 1);
    }
    if i + 1 < classes {
      PositionStep(n, classes, i + 1);
    }
  }

  /** a never passes n while i stays within the classes. */
  lemma {:induction false} PositionBelow(n: nat, classes: int, i: int)
    requires classes > 0 && 0 <= i <= classes
    ensures Position(n, classes, i) <= n as real
  {
    var c := classes as real;
    DivMonotone(i as real, c, c);
    assert c / c == 1.0;
    MulMonotone(n as real, i as real / c, 1.0);
    assert Position(n, classes, i) == n as real * (i as real / c);
  }

  /** For as many classes as values or more, the last cut's position is at least n - 1,
      so it reads one past the end. */
  lemma {:induction false} LastIndexPastEnd(n: nat, classes: int)
    requires 0 < n <= classes
    ensures Trunc(Position(n, classes, classes - 1)) + 1 >= n
  {
    var d := n as real / classes as real;
    assert d <= 1.0 by {
      DivMonotone(n as real, classes as real, classes as real);
      assert classes as real / classes as real == 1.0;
    }
    PositionStep(n, classes, classes - 1);
  }

  /** Every cut up to k succeeds when there are fewer classes than values. */
  lemma {:induction false} CutsSucceed(s: seq<real>, classes: int, k: nat)
    requires 0 < classes < |s| && k <= classes
    ensures Cuts(s, classes, k).Ok?
    ensures forall j :: 0 <= j < k ==> Cut(s, classes, j).Ok? && Cuts(s, classes, k).value[j] == Cut(s, classes, j).value
  {
    if k > 0 {
      CutsSucceed(s, classes, k - 1);
      IndexInRange(|s|, classes, k - 1);
    }
  }

  /** The list comes back exactly when there is at least one value and fewer classes than
      values; otherwise an index past the end raises IndexError. */
  lemma {:induction false} BreaksSucceed(s: seq<real>, classes: int)
    ensures Breaks(s, classes).Ok? <==> 0 < |s| && classes < |s|
    ensures Breaks(s, classes).Raise? ==> Breaks(s, classes).error == IndexError
  {
    var n := |s|;
    if classes <= 0 {
      assert Cuts(s, classes, Classes(classes)) == Ok([]);
    } else if classes < n {
      CutsSucceed(s, classes, classes);
    } else {
      TooManyClasses(s, classes);
    }
  }

  /** With no fewer classes than values, one cut reads past the end: the last one, or
      the first one of an empty list. */
  lemma {:induction false} TooManyClasses(s: seq<real>, classes: int)
    requires 0 < classes && |s| <= classes
    ensures Cuts(s, classes, classes).Raise?
  {
    var n := |s|;
    var i := if n > 0 then classes - 1 else 0;
    if n > 0 {
      LastIndexPastEnd(n, classes);
    } else {
      PositionStep(0, classes, 0);
    }
    CutsPrefix(s, classes, i, classes);
    if Cuts(s, classes, i).Ok? {
      CutsFail(s, classes, i, classes);
    }
  }

  /** An error among the first i cuts is the error of every longer run. */
  lemma {:induction false} CutsPrefix(s: seq<real>, classes: int, i: nat, k: nat)
    requires i <= k <= Classes(classes)
    ensures Cuts(s, classes, i).Raise? ==> Cuts(s, classes, k) == Raise(Cuts(s, classes, i).error)
    decreases k
  {
    if k > i {
      CutsPrefix(s, classes, i, k - 1);
    }
  }

  /** (1 - r) * lo + r * hi lies between lo and hi for r in [0, 1). */
  lemma {:induction false} Lerp(lo: real, hi: real, r: real)
    requires lo <= hi && 0.0 <= r < 1.0
    ensures lo <= Interpolate(lo, hi, r) <= hi
    ensures r == 0.0 ==> Interpolate(lo, hi, r) == lo
  {
    assert Interpolate(lo, hi, r) == lo + r * (hi - lo);
    MulNonnegative(r, hi - lo);
    MulMonotone(hi - lo, r, 1.0);
  }

  /** On sorted values with fewer classes than values: there are classes + 1 breakpoints,
      the first is the minimum s[0] and the last the maximum s[n - 1], each cut lies
      between the two values it interpolates, and the breakpoints never decrease. */
  lemma {:induction false} BreaksShape(s: seq<real>, classes: int)
    requires Sorted(s) && 0 < classes < |s|
    ensures Breaks(s, classes).Ok?
    ensures var b := Breaks(s, classes).value;
            |b| == classes + 1 && b[0] == s[0] && b[classes] == s[|s| - 1]
    ensures var b := Breaks(s, classes).value;
            forall i :: 0 <= i < classes ==>
              var aa := Trunc(Position(|s|, classes, i));
              0 <= aa && aa + 1 < |s| && s[aa] <= b[i] <= s[aa + 1]
    ensures Sorted(Breaks(s, classes).value)
  {
    var b := BreaksBracketed(s, classes);
    forall i, j | 0 <= i < j < |b| ensures b[i] <= b[j] {
      BreaksOrdered(s, classes, b, i, j);
    }
  }

  /** The breakpoints of sorted values, each cut between the two values it interpolates,
      the first equal to s[0] and the last to s[n - 1]. */
  lemma {:induction false} BreaksBracketed(s: seq<real>, classes: int) returns (b: seq<real>)
    requires Sorted(s) && 0 < classes < |s|
    ensures Breaks(s, classes) == Ok(b)
    ensures |b| == classes + 1 && b[0] == s[0] && b[classes] == s[|s| - 1]
    ensures forall i :: 0 <= i < classes ==>
              var aa := Trunc(Position(|s|, classes, i));
              0 <= aa && aa + 1 < |s| && s[aa] <= b[i] <= s[aa + 1]
  {
    CutsSucceed(s, classes, classes);
    b := Breaks(s, classes).value;
    forall i | 0 <= i < classes
      ensures var aa := Trunc(Position(|s|, classes, i));
              0 <= aa && aa + 1 < |s| && s[aa] <= b[i] <= s[aa + 1]
    {
      CutBetween(s, classes, i);
    }
    PositionStep(|s|, classes, 0);
    CutBetween(s, classes, 0);
    assert b[0] == s[0] by {
      Lerp(s[0], s[1], 0.0);
    }
  }

  /** Cut i lies between s[aa] and s[aa + 1], and is s[aa] when a is whole. */
  lemma {:induction false} CutBetween(s: seq<real>, classes: int, i: int)
    requires Sorted(s) && 0 < classes < |s| && 0 <= i < classes
    ensures var a := Position(|s|, classes, i);
            var aa := Trunc(a);
            0 <= aa && aa + 1 < |s| && Cut(s, classes, i).Ok?
            && s[aa] <= Cut(s, classes, i).value <= s[aa + 1]
            && (a == aa as real ==> Cut(s, classes, i).value == s[aa])
  {
    IndexInRange(|s|, classes, i);
    PositionStep(|s|, classes, i);
    var a := Position(|s|, classes, i);
    var aa := Trunc(a);
    Lerp(s[aa], s[aa + 1], a - aa as real);
  }

  /** Cuts come in order: cut i is at most s[aa_i + 1], which is at most s[aa_j] <= cut j. */
  lemma {:induction false} BreaksOrdered(s: seq<real>, classes: int, b: seq<real>, i: int, j: int)
    requires Sorted(s) && 0 < classes < |s| && 0 <= i < j <= classes
    requires |b| == classes + 1 && b[classes] == s[|s| - 1]
    requires forall k :: 0 <= k < classes ==>
               var aa := Trunc(Position(|s|, classes, k));
               0 <= aa && aa + 1 < |s| && s[aa] <= b[k] <= s[aa + 1]
    ensures b[i] <= b[j]
  {
    var n := |s|;
    var ai := Trunc(Position(n, classes, i));
    if j == classes {
      assert b[i] <= s[ai + 1] <= s[n - 1];
    } else {
      var aj := Trunc(Position(n, classes, j));
      IndexesIncrease(n, classes, i, j);
      assert b[i] <= s[ai + 1] <= s[aj] <= b[j];
    }
  }

  lemma {:induction false} IndexesIncrease(n: nat, classes: int, i: int, j: int)
    requires 0 < classes < n && 0 <= i < j < classes
    ensures Trunc(Position(n, classes, i)) < Trunc(Position(n, classes, j))
    decreases j - i
  {
    IndexInRange(n, classes, i);
    if j > i + 1 {
      IndexesIncrease(n, classes, i + 1, j);
    }
  }

  /** The docstring's example: the values 1 to 100 in 5 classes break at 1, 21, 41, 61,
      81 and 100. */
  lemma {:induction false} DocExample(s: seq<real>)
    requires |s| == 100 && forall k :: 0 <= k < 100 ==> s[k] == (k + 1) as real
    ensures Breaks(s, 5) == Ok([1.0, 21.0, 41.0, 61.0, 81.0, 100.0])
  {
    CutsSucceed(s, 5, 5);
    forall i | 0 <= i < 5 ensures Cut(s, 5, i) == Ok((20 * i + 1) as real) {
      WholeCut(s, i);
    }
    var c := Cuts(s, 5, 5).value;
    assert c[0] == 1.0 && c[1] == 21.0 && c[2] == 41.0 && c[3] == 61.0 && c[4] == 81.0;
    assert c == [1.0, 21.0, 41.0, 61.0, 81.0];
    assert PyIndex(s, |s| - 1) == Ok(100.0);
    assert Cuts(s, 5, Classes(5)) == Ok(c);
    assert c + [100.0] == [1.0, 21.0, 41.0, 61.0, 81.0, 100.0];
  }

  lemma {:induction false} WholeCut(s: seq<real>, i: int)
    requires |s| == 100 && forall k :: 0 <= k < 100 ==> s[k] == (k + 1) as real
    requires 0 <= i < 5
    ensures Cut(s, 5, i) == Ok((20 * i + 1) as real)
  {
    var x := i as real;
    assert x / 5.0 * 100.0 == 20.0 * x;
    assert Position(100, 5, i) == (20 * i) as real;
    assert Trunc((20 * i) as real) == 20 * i;
    assert Interpolate(s[20 * i], s[20 * i + 1], 0.0) == s[20 * i];
  }
}
