/** calculate/competition_rank.py: standard competition ("1224") ranking of one
    object within a list, by the value order_by picks out of each object. */
module CompetitionRank {
  import opened Python
  import opened SeqMath
  import opened Sorting

  predicate IsDirection(direction: string) {
    direction == "desc" || direction == "asc"
  }

  /** Holds of the objects ranked ahead of a value v: larger for 'desc', smaller for 'asc'. */
  function Ahead<T>(key: T -> real, v: real, direction: string): T -> bool {
    x => if direction == "desc" then key(x) > v else key(x) < v
  }

  /** The rank the source promises: one more than the number of objects whose value
      is strictly ahead of obj's, or None when obj is not in the list. */
  function Rank<T(==)>(items: seq<T>, obj: T, key: T -> real, direction: string): Option<int> {
    if obj in items then Some(1 + Count(items, Ahead(key, key(obj), direction))) else None
  }

  /** The key the list is sorted by in ascending order: the value, negated for 'desc'. */
  function SortKey<T>(key: T -> real, direction: string): T -> real {
    if direction == "desc" then x => -key(x) else key
  }

  /** Sorted positions whose key is strictly below v, and those whose key equals v. */
  function Below<T>(k: T -> real, v: real): T -> bool {
    x => k(x) < v
  }

  function Level<T>(k: T -> real, v: real): T -> bool {
    x => k(x) == v
  }

  /** competition_rank(obj_list, obj, order_by, direction). list() of a non-iterable is
      a TypeError, an unknown direction a ValueError and an empty list an IndexError
      (obj_list[0] is read to choose the accessor); otherwise a sorted copy is scanned,
      keeping the rank of the current tie block and its size. */
  method CompetitionRank<T(==)>(objs: Arg<T>, obj: T, key: T -> real, direction: string) returns (r: Result<Option<int>>)
    ensures objs.NotIterable? ==> r == Raise(TypeError)
    ensures !objs.NotIterable? && !IsDirection(direction) ==> r == Raise(ValueError)
    ensures !objs.NotIterable? && IsDirection(direction) && |objs.items| == 0 ==> r == Raise(IndexError)
    ensures !objs.NotIterable? && IsDirection(direction) && |objs.items| > 0 ==>
              r == Ok(Rank(objs.items, obj, key, direction))
  {
    if objs.NotIterable? {
      return Raise(TypeError);
    }
    var items := objs.items;
    if !IsDirection(direction) {
      return Raise(ValueError);
    }
    if |items| == 0 {
      return Raise(IndexError);
    }
    var a := new T[|items|](j requires 0 <= j < |items| => items[j]);
    assert a[..] == items;
    SortBy(a, SortKey(key, direction));
    var found := Scan(a, obj, key, direction);
    RankPermutation(a[..], items, obj, key, direction);
    return Ok(found);
  }

  /** The loop over the sorted copy: rank is the rank of the current tie block and
      tieCount its size so far; the scan stops at the first object equal to obj. */
  method Scan<T(==)>(a: array<T>, obj: T, key: T -> real, direction: string) returns (r: Option<int>)
    requires IsDirection(direction) && SortedBy(a[..], SortKey(key, direction))
    ensures r == Rank(a[..], obj, key, direction)
  {
    ghost var s := a[..];
    ghost var k := SortKey(key, direction);
    var rank, tieCount := 0, 1;
    var i := 0;
    while i < a.Length
      invariant i <= a.Length && obj !in s[..i]
      invariant Scanned(s, i, k, rank, tieCount)
    {
      assert a[i] == s[i] && (i > 0 ==> a[i - 1] == s[i - 1]);
      BlockAdvance(s, i, k, key, direction, rank, tieCount);
      if i != 0 && key(a[i]) == key(a[i - 1]) {
        tieCount := tieCount + 1;
      } else {
        rank := rank + tieCount;
        tieCount := 1;
      }
      if obj == a[i] {
        RankFound(s, i, k, key, direction, s, rank, tieCount);
        assert Rank(s, obj, key, direction) == Some(rank);
        return Some(rank);
      }
      assert s[..i + 1] == s[..i] + [s[i]];
      i := i + 1;
    }
    assert s[..i] == s;
    assert Rank(s, obj, key, direction) == None;
    return None;
  }

  /** The rank depends only on the objects, not on the order of the list. */
  lemma {:induction false} RankPermutation<T>(xs: seq<T>, ys: seq<T>, obj: T, key: T -> real, direction: string)
    requires multiset(xs) == multiset(ys)
    ensures Rank(xs, obj, key, direction) == Rank(ys, obj, key, direction)
  {
    assert obj in xs <==> obj in ys by {
      assert obj in xs <==> obj in multiset(xs);
      assert obj in ys <==> obj in multiset(ys);
    }
    CountPermutation(xs, ys, Ahead(key, key(obj), direction));
  }

  /** After s[..i] is scanned: rank is one more than the number of keys below the last
      one seen, and tieCount the number of keys equal to it. */
  ghost predicate Block<T>(s: seq<T>, i: int, k: T -> real, rank: int, tieCount: int)
    requires 0 < i <= |s|
  {
    rank == 1 + Count(s[..i], Below(k, k(s[i - 1]))) && tieCount == Count(s[..i], Level(k, k(s[i - 1])))
  }

  /** The loop state after s[..i] is scanned: the initial values before anything is seen. */
  ghost predicate Scanned<T>(s: seq<T>, i: int, k: T -> real, rank: int, tieCount: int) {
    0 <= i <= |s|
    && (i == 0 ==> rank == 0 && tieCount == 1)
    && (i > 0 ==> Block(s, i, k, rank, tieCount))
  }

  /** One step of the scan keeps Block: an equal key extends the tie block, a new key
      starts a block whose rank is one more than everything scanned so far. */
  lemma {:induction false} BlockAdvance<T>(s: seq<T>, i: int, k: T -> real, key: T -> real, direction: string,
                                           rank: int, tieCount: int)
    requires k == SortKey(key, direction)
    requires SortedBy(s, k) && 0 <= i < |s|
    requires Scanned(s, i, k, rank, tieCount)
    ensures i != 0 && key(s[i]) == key(s[i - 1]) ==> Scanned(s, i + 1, k, rank, tieCount + 1)
    ensures !(i != 0 && key(s[i]) == key(s[i - 1])) ==> Scanned(s, i + 1, k, rank + tieCount, 1)
  {
    var v := k(s[i]);
    CountSnoc(s, i, Below(k, v));
    CountSnoc(s, i, Level(k, v));
    if i == 0 {
      assert s[..0] == [];
    } else if key(s[i]) == key(s[i - 1]) {
      assert k(s[i - 1]) == v;
    } else {
      var u := k(s[i - 1]);
      assert u < v by {
        assert u <= v;
        assert k(s[i - 1]) != k(s[i]);
      }
      var t := s[..i];
      forall j | 0 <= j < |t| ensures k(t[j]) <= u {
        assert j == i - 1 || k(s[j]) <= k(s[i - 1]);
      }
      CountBelowLevel(t, k, u);
      CountAll(t, Below(k, v));
      CountNone(t, Level(k, v));
    }
  }

  /** Keys at most v are either below v or equal to it. */
  lemma {:induction false} CountBelowLevel<T>(t: seq<T>, k: T -> real, v: real)
    requires forall j :: 0 <= j < |t| ==> k(t[j]) <= v
    ensures Count(t, Below(k, v)) + Count(t, Level(k, v)) == |t|
  {
    if t != [] {
      CountBelowLevel(t[1..], k, v);
    }
  }

  /** When the scan meets obj at position i, rank counts every object ahead of it. */
  lemma {:induction false} RankFound<T>(s: seq<T>, i: int, k: T -> real, key: T -> real, direction: string,
                                            items: seq<T>, rank: int, tieCount: int)
    requires IsDirection(direction) && k == SortKey(key, direction)
    requires SortedBy(s, k) && 0 <= i < |s| && multiset(s) == multiset(items)
    requires Scanned(s, i + 1, k, rank, tieCount)
    ensures s[i] in items
    ensures rank == 1 + Count(items, Ahead(key, key(s[i]), direction))
  {
    var v := k(s[i]);
    assert s[i] in multiset(items) by {
      assert s[i] in s;
    }
    var head, tail := s[..i + 1], s[i + 1..];
    assert s == head + tail;
    CountAppend(head, tail, Below(k, v));
    forall j | 0 <= j < |tail| ensures !Below(k, v)(tail[j]) {
      assert k(s[i]) <= k(s[i + 1 + j]);
    }
    CountNone(tail, Below(k, v));
    forall j | 0 <= j < |s| ensures Below(k, v)(s[j]) == Ahead(key, key(s[i]), direction)(s[j]) {
    }
    CountSame(s, Below(k, v), Ahead(key, key(s[i]), direction));
    CountPermutation(s, items, Ahead(key, key(s[i]), direction));
  }

  /** A ranked object is placed between 1 and the length of the list. */
  lemma {:induction false} RankBounds<T>(items: seq<T>, obj: T, key: T -> real, direction: string)
    requires obj in items
    ensures Rank(items, obj, key, direction).Some?
    ensures 1 <= Rank(items, obj, key, direction).value <= |items|
  {
    var j :| 0 <= j < |items| && items[j] == obj;
    var any: T -> bool := x => true;
    CountStrictlyMonotone(items, Ahead(key, key(obj), direction), any, j);
    CountAll(items, any);
  }

  /** An object strictly ahead of another gets a strictly smaller rank. */
  lemma {:induction false} RankOrder<T>(items: seq<T>, x: T, y: T, key: T -> real, direction: string)
    requires x in items && y in items && Ahead(key, key(y), direction)(x)
    ensures Rank(items, x, key, direction).value < Rank(items, y, key, direction).value
  {
    var j :| 0 <= j < |items| && items[j] == x;
    CountStrictlyMonotone(items, Ahead(key, key(x), direction), Ahead(key, key(y), direction), j);
  }

  /** Objects with equal values share a rank (the "1224" rule). */
  lemma {:induction false} RankTies<T>(items: seq<T>, x: T, y: T, key: T -> real, direction: string)
    requires x in items && y in items && key(x) == key(y)
    ensures Rank(items, x, key, direction) == Rank(items, y, key, direction)
  {
    CountSame(items, Ahead(key, key(x), direction), Ahead(key, key(y), direction));
  }

  /** For two listed objects under a known direction: x ranks before y exactly when it
      is strictly ahead of y, and they rank equal exactly when their values are equal. */
  lemma {:induction false} RankCompare<T>(items: seq<T>, x: T, y: T, key: T -> real, direction: string)
    requires IsDirection(direction) && x in items && y in items
    ensures (Rank(items, x, key, direction).value < Rank(items, y, key, direction).value)
            <==> Ahead(key, key(y), direction)(x)
    ensures Rank(items, x, key, direction) == Rank(items, y, key, direction) <==> key(x) == key(y)
  {
    if key(x) == key(y) {
      RankTies(items, x, y, key, direction);
    } else if Ahead(key, key(y), direction)(x) {
      RankOrder(items, x, y, key, direction);
    } else {
      assert Ahead(key, key(x), direction)(y);
      RankOrder(items, y, x, key, direction);
    }
  }

  /** Values 1, 2, 2, 3 rank 4, 2, 2, 1 in descending order. */
  lemma {:induction false} TestDescending(xs: seq<Record>)
    requires xs == [Record("Joan", 1.0), Record("Jane", 2.0), Record("Mary", 2.0), Record("Josh", 3.0)]
    ensures Rank(xs, xs[0], Value, "desc") == Some(4)
    ensures Rank(xs, xs[1], Value, "desc") == Some(2)
    ensures Rank(xs, xs[2], Value, "desc") == Some(2)
    ensures Rank(xs, xs[3], Value, "desc") == Some(1)
  {
    CountFour(xs, Ahead(Value, Value(xs[0]), "desc"));
    CountFour(xs, Ahead(Value, Value(xs[1]), "desc"));
    CountFour(xs, Ahead(Value, Value(xs[2]), "desc"));
    CountFour(xs, Ahead(Value, Value(xs[3]), "desc"));
    assert xs[0] in xs && xs[1] in xs && xs[2] in xs && xs[3] in xs;
    assert Value(xs[0]) == 1.0 && Value(xs[1]) == 2.0 && Value(xs[2]) == 2.0 && Value(xs[3]) == 3.0;
  }

  /** The same values rank 1, 2, 2, 4 in ascending order. */
  lemma {:induction false} TestAscending(xs: seq<Record>)
    requires xs == [Record("Joan", 1.0), Record("Jane", 2.0), Record("Mary", 2.0), Record("Josh", 3.0)]
    ensures Rank(xs, xs[0], Value, "asc") == Some(1)
    ensures Rank(xs, xs[1], Value, "asc") == Some(2)
    ensures Rank(xs, xs[2], Value, "asc") == Some(2)
    ensures Rank(xs, xs[3], Value, "asc") == Some(4)
  {
    CountFour(xs, Ahead(Value, Value(xs[0]), "asc"));
    CountFour(xs, Ahead(Value, Value(xs[1]), "asc"));
    CountFour(xs, Ahead(Value, Value(xs[2]), "asc"));
    CountFour(xs, Ahead(Value, Value(xs[3]), "asc"));
    assert xs[0] in xs && xs[1] in xs && xs[2] in xs && xs[3] in xs;
    assert Value(xs[0]) == 1.0 && Value(xs[1]) == 2.0 && Value(xs[2]) == 2.0 && Value(xs[3]) == 3.0;
  }

  /** A count over four entries, one entry at a time. */
  lemma {:induction false} CountFour(xs: seq<Record>, p: Record -> bool)
    requires |xs| == 4
    ensures Count(xs, p) ==
              (if p(xs[0]) then 1 else 0) + (if p(xs[1]) then 1 else 0)
              + (if p(xs[2]) then 1 else 0) + (if p(xs[3]) then 1 else 0)
  {
    var b, c, d := xs[1..], xs[2..], xs[3..];
    assert b[0] == xs[1] && b[1..] == c && c[0] == xs[2] && c[1..] == d && d[0] == xs[3] && d[1..] == [];
    assert Count(d, p) == if p(xs[3]) then 1 else 0;
    assert Count(c, p) == (if p(xs[2]) then 1 else 0) + Count(d, p);
    assert Count(b, p) == (if p(xs[1]) then 1 else 0) + Count(c, p);
    assert Count(xs, p) == (if p(xs[0]) then 1 else 0) + Count(b, p);
  }
}
