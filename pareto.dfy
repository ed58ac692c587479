/** calculate/pareto.py: the median of grouped data (census-style [count, base, width]
    rows), found by a cumulative scan for the group that holds the middle and then
    interpolated inside that group. */
module Pareto {
  import opened Python
  import opened SeqMath

  /** [float(i[j]) for i in rows]: row by row, the first row whose j-th cell is missing
      (IndexError) or not a number float() accepts stops the comprehension. */
  function Column(rows: seq<seq<Obj>>, j: nat): (r: Result<seq<real>>)
    ensures r.Ok? <==> forall k :: 0 <= k < |rows| ==> j < |rows[k]| && ToFloat(rows[k][j]).Ok?
    ensures r.Ok? ==> |r.value| == |rows|
    ensures r.Ok? ==> forall k :: 0 <= k < |rows| ==> ToFloat(rows[k][j]) == Ok(r.value[k])
    ensures r.Raise? ==> r.error in {IndexError, TypeError, ValueError}
  {
    if rows == [] then Ok([])
    else
      var cell :- PyIndex(rows[0], j);
      var v :- ToFloat(cell);
      var rest :- Column(rows[1..], j);
      assert forall k :: 1 <= k < |rows| ==> rows[k] == rows[1..][k - 1];
      Ok([v] + rest)
  }

  /** Where `while cumulative_counts <= target` stops when it is entered with index k:
      the first k' >= k whose prefix sum exceeds target, or IndexError when the scan
      runs off the end. */
  function Crossing(counts: seq<real>, target: real, k: nat): (r: Result<nat>)
    requires k <= |counts|
    ensures r.Ok? ==> k <= r.value <= |counts| && Sum(counts[..r.value]) > target
    ensures r.Ok? ==> forall j :: k <= j < r.value ==> Sum(counts[..j]) <= target
    ensures r.Raise? ==> r.error == IndexError
    decreases |counts| - k
  {
    if Sum(counts[..k]) > target then Ok(k)
    else if k == |counts| then Raise(IndexError)
    else Crossing(counts, target, k + 1)
  }

  /** The computation after the three columns are built. */
  function MedianOfGroups(counts: seq<real>, bases: seq<real>, widths: seq<real>): Result<real> {
    if |counts| == 0 || Sum(counts) == 0.0 then Ok(0.0)
    else
      var total := Sum(counts);
      var stop :- Crossing(counts, total / 2.0, 0);
      var index := stop as int - 1;
      var count :- PyIndex(counts, index);
      var base :- PyIndex(bases, index);
      var width :- PyIndex(widths, index);
      var previous := Sum(counts[..stop]) - count;
      if count == 0.0 then Raise(ZeroDivisionError)
      else Ok(Interpolate(total / 2.0, previous, count, base, width))
  }

  /** base + ((half - previous) / count) * width: how far into the group the halfway
      point falls, scaled to the group's width. */
  function Interpolate(half: real, previous: real, count: real, base: real, width: real): real
    requires count != 0.0
  {
    base + ((half - previous) / count) * width
  }

  /** What the second and third comprehensions walk over: the rows again, except for an
      iterator, which the first comprehension has used up. */
  function Reread(dataList: Arg<seq<Obj>>, rows: seq<seq<Obj>>): seq<seq<Obj>> {
    if dataList.OtherIterable? then [] else rows
  }

  /** pareto(data_list) as a function of its argument: each column is a pass of its own
      over data_list. */
  function GroupedMedian(dataList: Arg<seq<Obj>>): Result<real> {
    var rows :- ListOf(dataList);
    var counts :- Column(rows, 0);
    var bases :- Column(Reread(dataList, rows), 1);
    var widths :- Column(Reread(dataList, rows), 2);
    MedianOfGroups(counts, bases, widths)
  }

  /** pareto(data_list): the three float columns, then the median of the groups. */
  method GroupedMedianScan(dataList: Arg<seq<Obj>>) returns (r: Result<real>)
    ensures r == GroupedMedian(dataList)
  {
    var rows :- ListOf(dataList);
    var counts :- Column(rows, 0);
    var bases :- Column(Reread(dataList, rows), 1);
    var widths :- Column(Reread(dataList, rows), 2);
    r := MedianScan(counts, bases, widths);
  }

  /** The early 0 for no data, the running scan for the median group and the
      interpolation inside it. */
  method MedianScan(counts: seq<real>, bases: seq<real>, widths: seq<real>) returns (r: Result<real>)
    ensures r == MedianOfGroups(counts, bases, widths)
  {
    if |counts| == 0 || Sum(counts) == 0.0 {
      return Ok(0.0);
    }
    var stop, cumulative :- ScanGroups(counts, Sum(counts) / 2.0);
    var index := stop as int - 1;
    // The scan stops within 0..|counts|, so counts[index] is always a valid read.
    var count := PyIndex(counts, index).value;
    var base :- PyIndex(bases, index);
    var width :- PyIndex(widths, index);
    var previous := cumulative - count;
    assert previous == Sum(counts[..stop]) - count;
    if count == 0.0 {
      return Raise(ZeroDivisionError);
    }
    r := Ok(Interpolate(Sum(counts) / 2.0, previous, count, base, width));
    assert Crossing(counts, Sum(counts) / 2.0, 0) == Ok(stop);
    assert PyIndex(counts, stop as int - 1) == Ok(count);
    assert PyIndex(bases, stop as int - 1) == Ok(base);
    assert PyIndex(widths, stop as int - 1) == Ok(width);
    assert MedianOfGroups(counts, bases, widths).value == r.value;
  }

  /** The `while cumulative_counts <= target` loop: it ends one past the median group,
      with the running total of the groups it passed. */
  method ScanGroups(counts: seq<real>, target: real) returns (r: Result<nat>, cumulative: real)
    ensures r == Crossing(counts, target, 0)
    ensures r.Ok? ==> cumulative == Sum(counts[..r.value])
  {
    cumulative := 0.0;
    var index := 0;
    while cumulative <= target
      invariant index <= |counts| && cumulative == Sum(counts[..index])
      invariant Crossing(counts, target, index) == Crossing(counts, target, 0)
      decreases |counts| - index
    {
      if index == |counts| {
        return Raise(IndexError), cumulative;
      }
      var count := counts[index];
      SumSnoc(counts, index);
      cumulative := cumulative + count;
      index := index + 1;
    }
    return Ok(index), cumulative;
  }

  /** The scan never runs off the end once some prefix has passed the target. */
  lemma {:induction false} CrossingFound(counts: seq<real>, target: real, k: nat)
    requires k <= |counts| && Sum(counts) > target
    ensures Crossing(counts, target, k).Ok?
    decreases |counts| - k
  {
    if Sum(counts[..k]) <= target {
      assert k != |counts| by {
        assert counts[..|counts|] == counts;
      }
      CrossingFound(counts, target, k + 1);
    }
  }

  /** With a positive total the scan stops one past group k, the first group whose running
      total passes half of all counts: the groups before it hold at most half, with it more
      than half, so its count is positive and the division is safe. The estimate is that
      group's base plus the share of its width that the missing part of the half takes
      from its count, a share in [0, 1). */
  lemma {:induction false} MedianGroup(counts: seq<real>, bases: seq<real>, widths: seq<real>)
    returns (k: nat)
    requires |bases| == |counts| && |widths| == |counts| && Sum(counts) > 0.0
    ensures k < |counts|
    ensures forall j :: 0 <= j <= k ==> Sum(counts[..j]) <= Sum(counts) / 2.0
    ensures Sum(counts) / 2.0 < Sum(counts[..k]) + counts[k]
    ensures counts[k] > 0.0
    ensures 0.0 <= GroupShare(counts, k) < 1.0
    ensures MedianOfGroups(counts, bases, widths).Ok?
    ensures MedianOfGroups(counts, bases, widths).value == bases[k] + GroupShare(counts, k) * widths[k]
  {
    var target := Sum(counts) / 2.0;
    CrossingFound(counts, target, 0);
    var stop := Crossing(counts, target, 0).value;
    assert counts[..0] == [];
    k := stop - 1;
    SumSnoc(counts, k);
    assert counts[..k + 1] == counts[..stop];
    var count := counts[k];
    var share := GroupShare(counts, k);
    Share(target - Sum(counts[..k]), count);
    assert PyIndex(counts, stop as int - 1) == Ok(count);
    assert Sum(counts[..stop]) - count == Sum(counts[..k]);
    assert MedianOfGroups(counts, bases, widths).Ok?;
    var r := MedianOfGroups(counts, bases, widths);
    assert r.value == bases[k] + share * widths[k];
  }

  /** How far into group k the half of all counts falls, as a fraction of its count. */
  function GroupShare(counts: seq<real>, k: nat): real
    requires k < |counts| && counts[k] != 0.0
  {
    (Sum(counts) / 2.0 - Sum(counts[..k])) / counts[k]
  }

  lemma {:induction false} Share(part: real, whole: real)
    requires 0.0 <= part < whole
    ensures 0.0 <= part / whole < 1.0
  {
  }

  /** With a positive total and a non-negative width the estimate lies inside the median
      group, [base, base + width], and strictly below its top when the width is positive. */
  lemma {:induction false} MedianInGroup(counts: seq<real>, bases: seq<real>, widths: seq<real>)
    returns (k: nat)
    requires |bases| == |counts| && |widths| == |counts| && Sum(counts) > 0.0
    ensures k < |counts| && MedianOfGroups(counts, bases, widths).Ok?
    ensures widths[k] >= 0.0 ==>
              bases[k] <= MedianOfGroups(counts, bases, widths).value <= bases[k] + widths[k]
    ensures widths[k] > 0.0 ==> MedianOfGroups(counts, bases, widths).value < bases[k] + widths[k]
  {
    k := MedianGroup(counts, bases, widths);
    var share, width := GroupShare(counts, k), widths[k];
    var m := MedianOfGroups(counts, bases, widths).value;
    assert m == bases[k] + share * width;
    if width >= 0.0 {
      ScaledShare(share, width);
    }
  }

  lemma {:induction false} ScaledShare(share: real, width: real)
    requires 0.0 <= share < 1.0 && width >= 0.0
    ensures 0.0 <= share * width <= width
    ensures width > 0.0 ==> share * width < width
  {
    MulMonotone(width, share, 1.0);
    MulNonnegative(share, width);
  }

  /** A negative total leaves cumulative_counts = 0 above the (negative) target, so the
      loop never runs and index - 1 = -1 reads the last group; a zero count there is a
      ZeroDivisionError. */
  lemma {:induction false} NegativeTotal(counts: seq<real>, bases: seq<real>, widths: seq<real>)
    requires |bases| == |counts| && |widths| == |counts| && Sum(counts) < 0.0
    ensures counts[|counts| - 1] == 0.0 ==> MedianOfGroups(counts, bases, widths) == Raise(ZeroDivisionError)
    ensures counts[|counts| - 1] != 0.0 ==> MedianOfGroups(counts, bases, widths).Ok?
    ensures counts[|counts| - 1] != 0.0 ==>
              var n := |counts|;
              MedianOfGroups(counts, bases, widths).value
                == bases[n - 1] + ((Sum(counts) / 2.0 + counts[n - 1]) / counts[n - 1]) * widths[n - 1]
  {
    assert counts != [];
    assert counts[..0] == [];
    assert Crossing(counts, Sum(counts) / 2.0, 0) == Ok(0);
  }

  /** Rows of numbers give the columns of their values. */
  lemma {:induction false} ColumnOfNumbers(rows: seq<seq<Obj>>, j: nat, values: seq<real>)
    requires |values| == |rows|
    requires forall k :: 0 <= k < |rows| ==> j < |rows[k]| && IsNumber(rows[k][j]) && NumValue(rows[k][j]) == values[k]
    ensures Column(rows, j) == Ok(values)
  {
    var c := Column(rows, j);
    assert c.Ok?;
    forall k | 0 <= k < |rows|
      ensures c.value[k] == values[k]
    {
      assert ToFloat(rows[k][j]) == Ok(c.value[k]);
    }
    assert c.value == values;
  }

  /** Every row starts with three numbers: count, base and width. */
  predicate NumberRows(rows: seq<seq<Obj>>, counts: seq<real>, bases: seq<real>, widths: seq<real>) {
    |counts| == |rows| && |bases| == |rows| && |widths| == |rows|
    && forall k :: 0 <= k < |rows| ==> NumberRow(rows[k], counts[k], bases[k], widths[k])
  }

  predicate NumberRow(row: seq<Obj>, count: real, base: real, width: real) {
    |row| >= 3
    && IsNumber(row[0]) && NumValue(row[0]) == count
    && IsNumber(row[1]) && NumValue(row[1]) == base
    && IsNumber(row[2]) && NumValue(row[2]) == width
  }

  /** For [count, base, width] rows of numbers, pareto estimates from the first field as
      counts, the second as bases and the third as widths; an iterator leaves the bases
      and widths empty. */
  lemma {:induction false} RowsOfNumbers(dataList: Arg<seq<Obj>>, counts: seq<real>, bases: seq<real>, widths: seq<real>)
    requires !dataList.NotIterable? && NumberRows(dataList.items, counts, bases, widths)
    ensures !dataList.OtherIterable? ==> GroupedMedian(dataList) == MedianOfGroups(counts, bases, widths)
    ensures dataList.OtherIterable? ==> GroupedMedian(dataList) == MedianOfGroups(counts, [], [])
  {
    var rows := dataList.items;
    assert forall k :: 0 <= k < |rows| ==> NumberRow(rows[k], counts[k], bases[k], widths[k]);
    ColumnOfNumbers(dataList.items, 0, counts);
    ColumnOfNumbers(dataList.items, 1, bases);
    ColumnOfNumbers(dataList.items, 2, widths);
  }

  /** An iterator of rows with a non-zero total fails: the counts comprehension uses it
      up, so bases[index] reads an empty list and raises IndexError. */
  lemma {:induction false} IteratorUsedUp(dataList: Arg<seq<Obj>>, counts: seq<real>, bases: seq<real>, widths: seq<real>)
    requires dataList.OtherIterable? && NumberRows(dataList.items, counts, bases, widths)
    requires |counts| > 0 && Sum(counts) != 0.0
    ensures GroupedMedian(dataList) == Raise(IndexError)
  {
    RowsOfNumbers(dataList, counts, bases, widths);
    var stop := Crossing(counts, Sum(counts) / 2.0, 0);
    if stop.Ok? {
      var none: seq<real> := [];
      assert PyIndex(counts, stop.value as int - 1).Ok?;
      assert PyIndex(none, stop.value as int - 1) == Raise(IndexError);
    }
  }

  /** The rows of TestThreeGroups as an iterator: IndexError instead of 7.5. */
  lemma {:induction false} TestIteratorRows(rows: seq<seq<Obj>>)
    requires rows == [[Int(1), Int(0), Int(5)], [Int(2), Int(5), Int(5)], [Int(1), Int(10), Int(5)]]
    ensures GroupedMedian(OtherIterable(rows)) == Raise(IndexError)
  {
    var counts, bases, widths := [1.0, 2.0, 1.0], [0.0, 5.0, 10.0], [5.0, 5.0, 5.0];
    assert NumberRow(rows[0], 1.0, 0.0, 5.0) && NumberRow(rows[1], 2.0, 5.0, 5.0);
    assert NumberRow(rows[2], 1.0, 10.0, 5.0);
    PrefixSums(counts);
    IteratorUsedUp(OtherIterable(rows), counts, bases, widths);
  }

  /** An empty list or one whose counts add up to zero gives 0 before any scan. */
  lemma {:induction false} NoData(dataList: Arg<seq<Obj>>, counts: seq<real>, bases: seq<real>, widths: seq<real>)
    requires !dataList.NotIterable? && NumberRows(dataList.items, counts, bases, widths)
    requires |counts| == 0 || Sum(counts) == 0.0
    ensures GroupedMedian(dataList) == Ok(0.0)
  {
    RowsOfNumbers(dataList, counts, bases, widths);
  }

  /** Three age groups of width 5 with counts 1, 2, 1: half of the 4 people is 2, the
      running totals are 1, 3, 4, so the middle group holds it and the estimate is
      5 + (2 - 1) / 2 * 5 = 7.5. */
  lemma {:induction false} TestThreeGroups(rows: seq<seq<Obj>>)
    requires rows == [[Int(1), Int(0), Int(5)], [Int(2), Int(5), Int(5)], [Int(1), Int(10), Int(5)]]
    ensures GroupedMedian(PyList(rows)) == Ok(7.5)
  {
    var counts, bases, widths := [1.0, 2.0, 1.0], [0.0, 5.0, 10.0], [5.0, 5.0, 5.0];
    assert NumberRow(rows[0], 1.0, 0.0, 5.0) && NumberRow(rows[1], 2.0, 5.0, 5.0);
    assert NumberRow(rows[2], 1.0, 10.0, 5.0);
    RowsOfNumbers(PyList(rows), counts, bases, widths);
    ThreeGroups(counts, bases, widths);
  }

  lemma {:induction false} ThreeGroups(counts: seq<real>, bases: seq<real>, widths: seq<real>)
    requires counts == [1.0, 2.0, 1.0] && bases == [0.0, 5.0, 10.0] && widths == [5.0, 5.0, 5.0]
    ensures MedianOfGroups(counts, bases, widths) == Ok(7.5)
  {
    PrefixSums(counts);
    var k := MedianGroup(counts, bases, widths);
    assert k == 1;
  }

  lemma {:induction false} PrefixSums(counts: seq<real>)
    requires counts == [1.0, 2.0, 1.0]
    ensures Sum(counts[..0]) == 0.0 && Sum(counts[..1]) == 1.0
    ensures Sum(counts[..2]) == 3.0 && Sum(counts) == 4.0
  {
    assert counts[..0] == [];
    SumSnoc(counts, 0);
    SumSnoc(counts, 1);
    SumSnoc(counts, 2);
    assert counts[..3] == counts;
  }
}
