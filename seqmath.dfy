/** Sums, counts and sorted orderings of finite sequences of reals: the
    arithmetic the library's list functions are built on. */
module SeqMath {

  function Identity(x: real): real {
    x
  }

  function Square(x: real): real {
    x * x
  }

  /** f(s[0]) + f(s[1]) + ... (Python's sum over a mapped list). */
  function SumBy(s: seq<real>, f: real -> real): real {
    if s == [] then 0.0 else f(s[0]) + SumBy(s[1..], f)
  }

  /** Python's sum(s). */
  function Sum(s: seq<real>): real {
    SumBy(s, Identity)
  }

  /** sum([x ** 2 for x in s]). */
  function SumSquares(s: seq<real>): real {
    SumBy(s, Square)
  }

  lemma {:induction false} SumByAppend(a: seq<real>, b: seq<real>, f: real -> real)
    ensures SumBy(a + b, f) == SumBy(a, f) + SumBy(b, f)
  {
    if a == [] {
      assert a + b == b;
    } else {
      assert (a + b)[1..] == a[1..] + b;
      SumByAppend(a[1..], b, f);
    }
  }

  /** A running total grows by the next term. */
  lemma {:induction false} SumSnoc(s: seq<real>, i: int)
    requires 0 <= i < |s|
    ensures Sum(s[..i + 1]) == Sum(s[..i]) + s[i]
  {
    assert s[..i + 1] == s[..i] + [s[i]];
    SumByAppend(s[..i], [s[i]], Identity);
    assert [s[i]][1..] == [];
  }

  /** b split around position k. */
  lemma {:induction false} SplitAt<T>(b: seq<T>, k: int)
    requires 0 <= k < |b|
    ensures b == (b[..k] + [b[k]]) + b[k + 1..]
    ensures b == b[..k] + ([b[k]] + b[k + 1..])
  {
    assert b[..k + 1] == b[..k] + [b[k]];
    assert b == b[..k + 1] + b[k + 1..];
  }

  lemma {:induction false} MultisetRemove<T>(b: seq<T>, k: int)
    requires 0 <= k < |b|
    ensures multiset(b[..k] + b[k + 1..]) == multiset(b) - multiset{b[k]}
  {
    SplitAt(b, k);
  }

  /** Taking one term out of a sum. */
  lemma {:induction false} SumByRemove(b: seq<real>, k: int, f: real -> real)
    requires 0 <= k < |b|
    ensures SumBy(b, f) == f(b[k]) + SumBy(b[..k] + b[k + 1..], f)
  {
    var x, p, q := b[k], b[..k], b[k + 1..];
    SplitAt(b, k);
    SumByAppend(p + [x], q, f);
    SumByAppend(p, [x], f);
    SumByAppend(p, q, f);
    assert SumBy([x], f) == f(x) by {
      assert [x][1..] == [];
    }
  }

  /** A sum does not depend on the order of its terms. */
  lemma {:induction false} SumByPermutation(a: seq<real>, b: seq<real>, f: real -> real)
    requires multiset(a) == multiset(b)
    ensures SumBy(a, f) == SumBy(b, f)
    decreases |a|
  {
    if a == [] {
      assert |b| == |multiset(b)| == 0;
    } else {
      var x := a[0];
      assert x in multiset(b);
      var k :| 0 <= k < |b| && b[k] == x;
      var rest := b[..k] + b[k + 1..];
      assert a == [x] + a[1..];
      MultisetRemove(b, k);
      assert multiset(a[1..]) == multiset(a) - multiset{x};
      SumByPermutation(a[1..], rest, f);
      SumByRemove(b, k, f);
    }
  }

  /** Every term at least lo and at most hi bounds the sum by n*lo and n*hi. */
  lemma {:induction false} SumBounds(s: seq<real>, lo: real, hi: real)
    requires forall k :: 0 <= k < |s| ==> lo <= s[k] <= hi
    ensures |s| as real * lo <= Sum(s) <= |s| as real * hi
  {
    if s != [] {
      SumBounds(s[1..], lo, hi);
    }
  }

  lemma {:induction false} DivMonotone(x: real, y: real, d: real)
    requires d > 0.0 && x <= y
    ensures x / d <= y / d
  {
    assert y / d - x / d == (y - x) / d;
  }

  /** rate is amount counted per `per` units of base: amount / base * per, stated
      without the division. */
  predicate IsRate(rate: real, amount: real, base: real, per: real) {
    rate * base == amount * per
  }

  lemma {:induction false} RateOf(amount: real, base: real, per: real)
    requires base != 0.0
    ensures IsRate(amount / base * per, amount, base, per)
  {
    assert amount / base * base == amount;
    assert amount / base * per * base == amount / base * base * per;
  }

  lemma {:induction false} QuotientOf(amount: real, base: real)
    requires base != 0.0
    ensures IsRate(amount / base, amount, base, 1.0)
  {
    assert amount / base * base == amount;
  }

  lemma {:induction false} DivScale(x: real, c: real, d: real)
    requires d > 0.0
    ensures x / d * c == (c * x) / d
  {
  }

  lemma {:induction false} DivSum(x: real, y: real, d: real)
    requires d > 0.0
    ensures (x + y) / 2.0 / d == (x / d + y / d) / 2.0
  {
  }

  lemma {:induction false} MulNonnegative(x: real, y: real)
    requires x >= 0.0 && y >= 0.0
    ensures x * y >= 0.0
  {
  }

  lemma {:induction false} MulPositive(x: real, y: real)
    requires x > 0.0 && y > 0.0
    ensures x * y > 0.0
  {
  }

  lemma {:induction false} MulMonotone(c: real, x: real, y: real)
    requires c >= 0.0 && x <= y
    ensures c * x <= c * y
  {
    MulNonnegative(c, y - x);
  }

  /** The number of elements of s that satisfy p. */
  function Count<T>(s: seq<T>, p: T -> bool): (c: nat)
    ensures c <= |s|
  {
    if s == [] then 0 else (if p(s[0]) then 1 else 0) + Count(s[1..], p)
  }

  function LessThan(v: real): real -> bool {
    x => x < v
  }

  function AtMost(v: real): real -> bool {
    x => x <= v
  }

  function EqualTo(v: real): real -> bool {
    x => x == v
  }

  function AtLeast(v: real): real -> bool {
    x => x >= v
  }

  /** |{x in s : x < v}|. */
  function CountLess(s: seq<real>, v: real): nat {
    Count(s, LessThan(v))
  }

  /** |{x in s : x <= v}|. */
  function CountAtMost(s: seq<real>, v: real): nat {
    Count(s, AtMost(v))
  }

  /** |{x in s : x >= v}|. */
  function CountAtLeast(s: seq<real>, v: real): nat {
    Count(s, AtLeast(v))
  }

  /** |{x in s : x == v}|. */
  function CountEqual(s: seq<real>, v: real): nat {
    Count(s, EqualTo(v))
  }

  lemma {:induction false} CountAppend<T>(a: seq<T>, b: seq<T>, p: T -> bool)
    ensures Count(a + b, p) == Count(a, p) + Count(b, p)
  {
    if a == [] {
      assert a + b == b;
    } else {
      assert (a + b)[1..] == a[1..] + b;
      CountAppend(a[1..], b, p);
    }
  }

  /** Taking one element out of a count. */
  lemma {:induction false} CountRemove<T>(b: seq<T>, k: int, p: T -> bool)
    requires 0 <= k < |b|
    ensures Count(b, p) == (if p(b[k]) then 1 else 0) + Count(b[..k] + b[k + 1..], p)
  {
    var x, u, w := b[k], b[..k], b[k + 1..];
    SplitAt(b, k);
    CountAppend(u + [x], w, p);
    CountAppend(u, [x], p);
    CountAppend(u, w, p);
    assert Count([x], p) == if p(x) then 1 else 0 by {
      assert [x][1..] == [];
    }
  }

  /** A count does not depend on the order of the elements. */
  lemma {:induction false} CountPermutation<T>(a: seq<T>, b: seq<T>, p: T -> bool)
    requires multiset(a) == multiset(b)
    ensures Count(a, p) == Count(b, p)
    decreases |a|
  {
    if a == [] {
      assert |b| == |multiset(b)| == 0;
    } else {
      var x := a[0];
      assert x in multiset(b);
      var k :| 0 <= k < |b| && b[k] == x;
      var rest := b[..k] + b[k + 1..];
      assert a == [x] + a[1..];
      MultisetRemove(b, k);
      assert multiset(a[1..]) == multiset(a) - multiset{x};
      CountPermutation(a[1..], rest, p);
      CountRemove(b, k, p);
    }
  }

  lemma {:induction false} CountNone<T>(s: seq<T>, p: T -> bool)
    requires forall k :: 0 <= k < |s| ==> !p(s[k])
    ensures Count(s, p) == 0
  {
    if s != [] {
      CountNone(s[1..], p);
    }
  }

  lemma {:induction false} CountAll<T>(s: seq<T>, p: T -> bool)
    requires forall k :: 0 <= k < |s| ==> p(s[k])
    ensures Count(s, p) == |s|
  {
    if s != [] {
      CountAll(s[1..], p);
    }
  }

  /** If p implies q elementwise, fewer elements satisfy p. */
  lemma {:induction false} CountMonotone<T>(s: seq<T>, p: T -> bool, q: T -> bool)
    requires forall k :: 0 <= k < |s| ==> p(s[k]) ==> q(s[k])
    ensures Count(s, p) <= Count(s, q)
  {
    if s != [] {
      CountMonotone(s[1..], p, q);
    }
  }

  /** If p implies q elementwise and some element satisfies q but not p, strictly fewer satisfy p. */
  lemma {:induction false} CountStrictlyMonotone<T>(s: seq<T>, p: T -> bool, q: T -> bool, j: int)
    requires forall k :: 0 <= k < |s| ==> p(s[k]) ==> q(s[k])
    requires 0 <= j < |s| && q(s[j]) && !p(s[j])
    ensures Count(s, p) < Count(s, q)
  {
    if j == 0 {
      CountMonotone(s[1..], p, q);
    } else {
      CountStrictlyMonotone(s[1..], p, q, j - 1);
    }
  }

  /** Predicates that agree on every element count the same. */
  lemma {:induction false} CountSame<T>(s: seq<T>, p: T -> bool, q: T -> bool)
    requires forall k :: 0 <= k < |s| ==> p(s[k]) == q(s[k])
    ensures Count(s, p) == Count(s, q)
  {
    if s != [] {
      CountSame(s[1..], p, q);
    }
  }

  /** Extending a prefix by one element. */
  lemma {:induction false} CountSnoc<T>(s: seq<T>, i: int, p: T -> bool)
    requires 0 <= i < |s|
    ensures Count(s[..i + 1], p) == Count(s[..i], p) + (if p(s[i]) then 1 else 0)
  {
    assert s[..i + 1] == s[..i] + [s[i]];
    CountAppend(s[..i], [s[i]], p);
    assert [s[i]][1..] == [];
  }

  /** Elements at most v are those less than v plus those equal to v. */
  lemma {:induction false} CountSplit(s: seq<real>, v: real)
    ensures CountAtMost(s, v) == CountLess(s, v) + CountEqual(s, v)
  {
    if s != [] {
      CountSplit(s[1..], v);
    }
  }

  lemma {:induction false} CountEqualPositive(s: seq<real>, v: real)
    ensures CountEqual(s, v) > 0 <==> v in s
  {
    if s != [] {
      CountEqualPositive(s[1..], v);
      assert v in s <==> s[0] == v || v in s[1..] by {
        assert s == [s[0]] + s[1..];
      }
    }
  }

  /** Non-decreasing order. */
  predicate Sorted(s: seq<real>) {
    forall i, j :: 0 <= i < j < |s| ==> s[i] <= s[j]
  }

  /** Non-increasing order (list.sort(reverse=True)). */
  predicate SortedDescending(s: seq<real>) {
    forall i, j :: 0 <= i < j < |s| ==> s[i] >= s[j]
  }

  /** x placed before the first element of s that is at least x. */
  function Insert(x: real, s: seq<real>): seq<real> {
    if s == [] then [x]
    else if x <= s[0] then [x] + s
    else [s[0]] + Insert(x, s[1..])
  }

  lemma {:induction false} MultisetTail<T>(s: seq<T>)
    requires |s| > 0
    ensures multiset(s) == multiset{s[0]} + multiset(s[1..])
    ensures multiset(s[1..]) == multiset(s) - multiset{s[0]}
  {
    assert s == [s[0]] + s[1..];
  }

  /** A value at or below every element of a sorted sequence can go in front of it. */
  lemma {:induction false} SortedCons(x: real, t: seq<real>)
    requires Sorted(t)
    requires forall k :: 0 <= k < |t| ==> x <= t[k]
    ensures Sorted([x] + t)
  {
    var r := [x] + t;
    forall i, j | 0 <= i < j < |r|
      ensures r[i] <= r[j]
    {
      assert r[j] == t[j - 1];
      if i > 0 {
        assert r[i] == t[i - 1];
      }
    }
  }

  /** Inserting into a sorted sequence keeps it sorted and adds exactly x. */
  lemma {:induction false} InsertFacts(x: real, s: seq<real>)
    requires Sorted(s)
    ensures |Insert(x, s)| == |s| + 1
    ensures Sorted(Insert(x, s))
    ensures multiset(Insert(x, s)) == multiset(s) + multiset{x}
    ensures Insert(x, s)[0] == x || (|s| > 0 && Insert(x, s)[0] == s[0])
    decreases |s|, 1
  {
    if s == [] {
    } else if x <= s[0] {
      InsertFront(x, s);
    } else {
      InsertBehind(x, s);
    }
  }

  /** x at or below the head goes in front. */
  lemma {:induction false} InsertFront(x: real, s: seq<real>)
    requires Sorted(s) && |s| > 0 && x <= s[0]
    ensures Insert(x, s) == [x] + s
    ensures Sorted([x] + s)
    ensures multiset([x] + s) == multiset(s) + multiset{x}
  {
    forall k | 0 <= k < |s| ensures x <= s[k] {
      assert k == 0 || s[0] <= s[k];
    }
    SortedCons(x, s);
  }

  /** x above the head goes into the tail. */
  lemma {:induction false} InsertBehind(x: real, s: seq<real>)
    requires Sorted(s) && |s| > 0 && x > s[0]
    ensures Insert(x, s) == [s[0]] + Insert(x, s[1..]) && |Insert(x, s[1..])| == |s|
    ensures Sorted([s[0]] + Insert(x, s[1..]))
    ensures multiset([s[0]] + Insert(x, s[1..])) == multiset(s) + multiset{x}
    decreases |s|, 0
  {
    var y, t := s[0], Insert(x, s[1..]);
    SortedTail(s);
    InsertFacts(x, s[1..]);
    forall k | 0 <= k < |t| ensures y <= t[k] {
      assert y <= t[0] by {
        assert t[0] == x || t[0] == s[1];
      }
      assert k == 0 || t[0] <= t[k];
    }
    SortedCons(y, t);
    MultisetTail(s);
    assert multiset([y] + t) == multiset{y} + multiset(t);
  }

  /** The ascending order of s that list.sort() produces. */
  function SortSeq(s: seq<real>): (r: seq<real>)
    ensures |r| == |s|
    ensures Sorted(r)
    ensures multiset(r) == multiset(s)
  {
    if s == [] then []
    else
      MultisetTail(s);
      InsertFacts(s[0], SortSeq(s[1..]));
      Insert(s[0], SortSeq(s[1..]))
  }

  /** The head of a sorted sequence is below every element. */
  lemma {:induction false} SortedHead(a: seq<real>, x: real)
    requires Sorted(a) && x in multiset(a)
    ensures a[0] <= x
  {
    var j :| 0 <= j < |a| && a[j] == x;
    assert j == 0 || a[0] <= a[j];
  }

  /** A sorted arrangement of a multiset is unique: any sort agrees with SortSeq. */
  lemma {:induction false} SortedUnique(a: seq<real>, b: seq<real>)
    requires Sorted(a) && Sorted(b)
    requires multiset(a) == multiset(b)
    ensures a == b
    decreases |a|
  {
    if a == [] {
      assert |b| == |multiset(b)| == 0;
    } else {
      assert |b| == |multiset(b)| == |multiset(a)| == |a|;
      assert b[0] in multiset(a) by {
        assert b[0] in b;
      }
      assert a[0] in multiset(b) by {
        assert a[0] in a;
      }
      SortedHead(a, b[0]);
      SortedHead(b, a[0]);
      var x := a[0];
      assert b[0] == x;
      MultisetTail(a);
      MultisetTail(b);
      assert multiset(a[1..]) == multiset(b[1..]) by {
        assert multiset(a[1..]) == multiset(a) - multiset{x};
        assert multiset(b[1..]) == multiset(b) - multiset{x};
      }
      SortedTail(a);
      SortedTail(b);
      SortedUnique(a[1..], b[1..]);
      assert a == [a[0]] + a[1..];
      assert b == [b[0]] + b[1..];
    }
  }

  lemma {:induction false} SortedTail(s: seq<real>)
    requires Sorted(s) && |s| > 0
    ensures Sorted(s[1..])
  {
  }

  lemma {:induction false} SortSeqOfSorted(s: seq<real>)
    requires Sorted(s)
    ensures SortSeq(s) == s
  {
    SortedUnique(SortSeq(s), s);
  }

  /** Small sorted displays, stated on variables so that no literal is unfolded. */
  lemma {:induction false} SortedThree(x: real, y: real, z: real)
    requires x <= y <= z
    ensures Sorted([x, y, z])
  {
  }

  lemma {:induction false} SortedFour(w: real, x: real, y: real, z: real)
    requires w <= x <= y <= z
    ensures Sorted([w, x, y, z])
  {
  }

  /** Sorting depends only on the multiset of elements. */
  lemma {:induction false} SortSeqPermutation(a: seq<real>, b: seq<real>)
    requires multiset(a) == multiset(b)
    ensures SortSeq(a) == SortSeq(b)
  {
    SortedUnique(SortSeq(a), SortSeq(b));
  }

  function Reverse<T>(s: seq<T>): (r: seq<T>)
    ensures |r| == |s|
    ensures forall k :: 0 <= k < |s| ==> r[k] == s[|s| - 1 - k]
  {
    if s == [] then [] else Reverse(s[1..]) + [s[0]]
  }

  lemma {:induction false} ReverseMultiset<T>(s: seq<T>)
    ensures multiset(Reverse(s)) == multiset(s)
  {
    if s != [] {
      assert s == [s[0]] + s[1..];
      ReverseMultiset(s[1..]);
    }
  }

  /** The descending arrangement of a multiset is unique too: it is the ascending one reversed. */
  lemma {:induction false} SortedDescendingUnique(s: seq<real>, t: seq<real>)
    requires SortedDescending(s)
    requires multiset(s) == multiset(t)
    ensures s == Reverse(SortSeq(t))
  {
    var r := Reverse(s);
    ReverseMultiset(s);
    assert Sorted(r);
    SortedUnique(r, SortSeq(t));
    assert Reverse(r) == s;
  }

  /** m is the smallest element of s. */
  predicate IsMin(m: real, s: seq<real>) {
    m in s && forall k :: 0 <= k < |s| ==> m <= s[k]
  }

  /** m is the largest element of s. */
  predicate IsMax(m: real, s: seq<real>) {
    m in s && forall k :: 0 <= k < |s| ==> s[k] <= m
  }

  /** The ends of a sorted arrangement are the minimum and the maximum of what it arranges. */
  lemma {:induction false} SortedEnds(t: seq<real>, s: seq<real>)
    requires Sorted(t) && multiset(t) == multiset(s) && |s| > 0
    ensures |t| == |s|
    ensures IsMin(t[0], s) && IsMax(t[|s| - 1], s)
  {
    assert |t| == |multiset(t)| == |multiset(s)| == |s|;
    var n := |s|;
    assert t[0] in multiset(s) && t[n - 1] in multiset(s);
    forall k | 0 <= k < n ensures t[0] <= s[k] <= t[n - 1] {
      assert s[k] in multiset(t);
      var j :| 0 <= j < n && t[j] == s[k];
      assert j == 0 || t[0] <= t[j];
      assert j == n - 1 || t[j] <= t[n - 1];
    }
  }

  lemma {:induction false} SortSeqEnds(s: seq<real>)
    requires |s| > 0
    ensures |SortSeq(s)| == |s|
    ensures IsMin(SortSeq(s)[0], s) && IsMax(SortSeq(s)[|s| - 1], s)
  {
    SortedEnds(SortSeq(s), s);
  }

  /** Every element of the sorted order lies between the minimum and the maximum. */
  lemma {:induction false} SortSeqBetween(s: seq<real>, k: int)
    requires 0 <= k < |s|
    ensures |SortSeq(s)| == |s|
    ensures SortSeq(s)[0] <= SortSeq(s)[k] <= SortSeq(s)[|s| - 1]
  {
    SortSeqEnds(s);
  }

  /** In a sorted sequence, a value at or above s[k] is at or above its first k + 1 elements. */
  lemma {:induction false} CountAtMostSorted(s: seq<real>, k: int, v: real)
    requires Sorted(s) && 0 <= k < |s| && s[k] <= v
    ensures CountAtMost(s, v) >= k + 1
  {
    assert s[0] <= v;
    if k > 0 {
      assert Sorted(s[1..]) && s[1..][k - 1] == s[k];
      CountAtMostSorted(s[1..], k - 1, v);
    }
  }

  /** In a sorted sequence, a value at or below s[k] is at or below its last |s| - k elements. */
  lemma {:induction false} CountAtLeastSorted(s: seq<real>, k: int, v: real)
    requires Sorted(s) && 0 <= k < |s| && v <= s[k]
    ensures CountAtLeast(s, v) >= |s| - k
  {
    if k == 0 {
      assert forall j :: 0 <= j < |s| ==> AtLeast(v)(s[j]) by {
        forall j | 0 <= j < |s| ensures s[j] >= v {
          assert j == 0 || s[0] <= s[j];
        }
      }
      CountAll(s, AtLeast(v));
    } else {
      assert Sorted(s[1..]) && s[1..][k - 1] == s[k];
      CountAtLeastSorted(s[1..], k - 1, v);
    }
  }
}
