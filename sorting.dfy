/** list.sort() and list.sort(key=..., reverse=...) as in-place array sorts. */
module Sorting {
  import opened SeqMath

  /** Ascending by key. */
  predicate SortedBy<T>(s: seq<T>, key: T -> real) {
    forall i, j :: 0 <= i < j < |s| ==> key(s[i]) <= key(s[j])
  }

  /** The first n elements of s are in ascending key order. */
  predicate SortedPrefix<T>(s: seq<T>, n: int, key: T -> real) {
    forall p, q :: 0 <= p < q < n && q < |s| ==> key(s[p]) <= key(s[q])
  }

  /** Mid-insertion state: s[..i + 1] is in key order apart from position j, which
      holds the element being inserted and is at or below everything after it. */
  predicate Hole<T>(s: seq<T>, i: int, j: int, key: T -> real) {
    0 <= j <= i < |s|
    && (forall p, q :: 0 <= p < q <= i && p != j && q != j ==> key(s[p]) <= key(s[q]))
    && (forall q :: j < q <= i ==> key(s[j]) <= key(s[q]))
  }

  /** Sorts a in place by key: the result is ordered by key and a permutation of the input. */
  method SortBy<T>(a: array<T>, key: T -> real)
    modifies a
    ensures SortedBy(a[..], key)
    ensures multiset(a[..]) == multiset(old(a[..]))
  {
    var i := 0;
    while i < a.Length
      invariant 0 <= i <= a.Length
      invariant SortedPrefix(a[..], i, key)
      invariant multiset(a[..]) == multiset(old(a[..]))
    {
      InsertAt(a, i, key);
      i := i + 1;
    }
  }

  /** One insertion step: a[i] moves left past the larger keys of the sorted prefix a[..i]. */
  method InsertAt<T>(a: array<T>, i: int, key: T -> real)
    requires 0 <= i < a.Length
    requires SortedPrefix(a[..], i, key)
    modifies a
    ensures SortedPrefix(a[..], i + 1, key)
    ensures multiset(a[..]) == multiset(old(a[..]))
  {
    var j := i;
    assert Hole(a[..], i, j, key);
    while j > 0 && key(a[j - 1]) > key(a[j])
      invariant multiset(a[..]) == multiset(old(a[..]))
      invariant Hole(a[..], i, j, key)
    {
      ghost var before := a[..];
      a[j - 1], a[j] := a[j], a[j - 1];
      assert a[..] == before[j - 1 := before[j]][j := before[j - 1]];
      SwapStep(before, i, j, key);
      j := j - 1;
    }
    HoleClosed(a[..], i, j, key);
  }

  /** Swapping the inserted element with a larger left neighbour moves the hole one place left. */
  lemma {:induction false} SwapStep<T>(s: seq<T>, i: int, j: int, key: T -> real)
    requires Hole(s, i, j, key) && j > 0 && key(s[j - 1]) > key(s[j])
    ensures Hole(s[j - 1 := s[j]][j := s[j - 1]], i, j - 1, key)
    ensures multiset(s[j - 1 := s[j]][j := s[j - 1]]) == multiset(s)
  {
    var t := s[j - 1 := s[j]][j := s[j - 1]];
    forall p, q | 0 <= p < q <= i && p != j - 1 && q != j - 1
      ensures key(t[p]) <= key(t[q])
    {
      if q == j {
        assert key(s[p]) <= key(s[j - 1]);
      } else if p == j {
        assert key(s[j - 1]) <= key(s[q]);
      }
    }
  }

  /** Once the left neighbour is no larger (or there is none), the prefix through i is sorted. */
  lemma {:induction false} HoleClosed<T>(s: seq<T>, i: int, j: int, key: T -> real)
    requires Hole(s, i, j, key) && (j == 0 || key(s[j - 1]) <= key(s[j]))
    ensures SortedPrefix(s, i + 1, key)
  {
    forall p, q | 0 <= p < q < i + 1 && q < |s|
      ensures key(s[p]) <= key(s[q])
    {
      if q == j && p < j - 1 {
        assert key(s[p]) <= key(s[j - 1]);
      }
    }
  }

  /** data_list.sort() on a list of numbers: afterwards it holds the ascending order of its old contents. */
  method SortReals(a: array<real>)
    modifies a
    ensures a[..] == SortSeq(old(a[..]))
  {
    SortBy(a, Identity);
    assert Sorted(a[..]) by {
      assert SortedBy(a[..], Identity);
    }
    SortedUnique(a[..], SortSeq(old(a[..])));
  }

  function Negate(x: real): real {
    -x
  }

  /** value_list.sort(reverse=True) on a list of numbers: the descending order of its old contents. */
  method SortRealsDescending(a: array<real>)
    modifies a
    ensures SortedDescending(a[..])
    ensures a[..] == Reverse(SortSeq(old(a[..])))
  {
    SortBy(a, Negate);
    assert SortedDescending(a[..]) by {
      assert SortedBy(a[..], Negate);
    }
    SortedDescendingUnique(a[..], old(a[..]));
  }

  /** A new list holding xs, sorted in place: sorted(xs) built the way the library does. */
  method SortedCopy(xs: seq<real>) returns (a: array<real>)
    ensures fresh(a)
    ensures a[..] == SortSeq(xs)
  {
    a := new real[|xs|](k requires 0 <= k < |xs| => xs[k]);
    assert a[..] == xs;
    SortReals(a);
  }
}
