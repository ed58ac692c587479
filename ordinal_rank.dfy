/** calculate/ordinal_rank.py and get_ordinal_rank.py: ordinal ("1234") ranking, the
    position of an object's first occurrence in a sequence. */
module OrdinalRank {
  import opened Python

  /** list.index(x): the position of the first element equal to x, or ValueError. */
  function IndexOf<T(==)>(s: seq<T>, x: T): (r: Result<nat>)
    ensures r.Raise? <==> x !in s
    ensures r.Raise? ==> r.error == ValueError
    ensures r.Ok? ==> r.value < |s| && s[r.value] == x && x !in s[..r.value]
  {
    if s == [] then Raise(ValueError)
    else if s[0] == x then Ok(0)
    else
      var k :- IndexOf(s[1..], x);
      assert s[1..][..k] == s[1..k + 1];
      assert s[..k + 1] == [s[0]] + s[1..k + 1];
      Ok(k + 1)
  }

  /** ordinal_rank(sequence, item): list() of a non-iterable is a TypeError; otherwise
      one more than the index of the first element equal to item. */
  function OrdinalRank<T(==)>(sequence: Arg<T>, item: T): (r: Result<int>)
    ensures sequence.NotIterable? ==> r == Raise(TypeError)
    ensures !sequence.NotIterable? && item !in sequence.items ==> r == Raise(ValueError)
    ensures !sequence.NotIterable? && item in sequence.items ==>
              r.Ok? && 1 <= r.value <= |sequence.items|
              && sequence.items[r.value - 1] == item
              && forall j :: 0 <= j < r.value - 1 ==> sequence.items[j] != item
  {
    var items :- ListOf(sequence);
    var index :- IndexOf(items, item);
    assert forall j :: 0 <= j < index ==> items[..index][j] == items[j];
    Ok(index + 1)
  }

  /** No two positions of s hold equal elements. */
  predicate Distinct<T(==)>(s: seq<T>) {
    forall i, j :: 0 <= i < j < |s| ==> s[i] != s[j]
  }

  /** In a sequence of distinct objects the object at position k ranks k + 1, so
      the ranks are 1, 2, ..., n in order. */
  lemma {:induction false} DistinctRanks<T>(sequence: Arg<T>, k: int)
    requires !sequence.NotIterable? && Distinct(sequence.items) && 0 <= k < |sequence.items|
    ensures OrdinalRank(sequence, sequence.items[k]) == Ok(k + 1)
  {
    var s := sequence.items;
    var r := OrdinalRank(sequence, s[k]);
    assert s[k] in s;
  }

  /** An object's rank is never past any position that holds it. */
  lemma {:induction false} RankAtMostPosition<T>(sequence: Arg<T>, k: int)
    requires !sequence.NotIterable? && 0 <= k < |sequence.items|
    ensures OrdinalRank(sequence, sequence.items[k]).Ok?
    ensures OrdinalRank(sequence, sequence.items[k]).value <= k + 1
  {
    assert sequence.items[k] in sequence.items;
  }

  /** The test's four distinct records rank 1, 2, 3 and 4. */
  lemma {:induction false} TestOrdinalRank(xs: seq<Record>)
    requires xs == [Record("Joan", 1.0), Record("Jane", 2.0), Record("Mary", 3.0), Record("Josh", 4.0)]
    ensures OrdinalRank(PyList(xs), xs[0]) == Ok(1)
    ensures OrdinalRank(PyList(xs), xs[1]) == Ok(2)
    ensures OrdinalRank(PyList(xs), xs[2]) == Ok(3)
    ensures OrdinalRank(PyList(xs), xs[3]) == Ok(4)
  {
    assert Distinct(xs);
    DistinctRanks(PyList(xs), 0);
    DistinctRanks(PyList(xs), 1);
    DistinctRanks(PyList(xs), 2);
    DistinctRanks(PyList(xs), 3);
  }
}
