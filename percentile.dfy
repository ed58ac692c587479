/** calculate/percentile.py: the percentile rank of a score within a list of
    scores (scipy's percentileofscore), with the kinds 'rank', 'strict', 'weak'
    and 'mean'. */
module Percentile {
  import opened Python
  import opened SeqMath

  /** A numpy float64 result: a number, or the NaN that 0.0 / 0 gives. */
  datatype Score = Finite(value: real) | NaN

  predicate IsKind(kind: string) {
    kind == "rank" || kind == "strict" || kind == "weak" || kind == "mean"
  }

  /** The sum of k + offset over the positions k of s that hold v. */
  function PositionSum(s: seq<real>, v: real, offset: int): int {
    if s == [] then 0
    else PositionSum(s[..|s| - 1], v, offset) + (if s[|s| - 1] == v then |s| - 1 + offset else 0)
  }

  /** (np.mean(a_len[a == score]) / n) * 100, with a_len = range(len(a)) + offset.
      The mean of no positions is NaN; with n = 0 the only position is 0 (the score
      appended to an empty array) and numpy's 0.0 / 0 is NaN. */
  function MeanRank(sorted: seq<real>, v: real, offset: int, n: nat): Score {
    var matches := CountEqual(sorted, v);
    if matches == 0 || n == 0 then NaN
    else Finite(PositionSum(sorted, v, offset) as real / matches as real / n as real * 100.0)
  }

  /** kind='rank': the score is appended when absent, the array sorted, and the
      positions of its matches averaged (0-based when appended, 1-based otherwise). */
  function RankPercentile(a: seq<real>, score: real): Score {
    if score !in a then MeanRank(SortSeq(a + [score]), score, 0, |a|)
    else MeanRank(SortSeq(a), score, 1, |a|)
  }

  /** kind='strict': sum(a < score) / float(n) * 100. */
  function StrictPercentile(a: seq<real>, score: real): real
    requires |a| > 0
  {
    CountLess(a, score) as real / |a| as real * 100.0
  }

  /** kind='weak': sum(a <= score) / float(n) * 100. */
  function WeakPercentile(a: seq<real>, score: real): real
    requires |a| > 0
  {
    CountAtMost(a, score) as real / |a| as real * 100.0
  }

  /** kind='mean': (sum(a < score) + sum(a <= score)) * 50 / float(n). */
  function MeanPercentile(a: seq<real>, score: real): real
    requires |a| > 0
  {
    (CountLess(a, score) + CountAtMost(a, score)) as real * 50.0 / |a| as real
  }

  /** percentile(a, score, kind). An unknown kind raises ValueError; an empty `a`
      makes 'strict', 'weak' and 'mean' divide by float(0). */
  function Percentile(a: seq<real>, score: real, kind: string): (r: Result<Score>)
    ensures r.Raise? <==> !IsKind(kind) || (kind != "rank" && |a| == 0)
    ensures !IsKind(kind) ==> r == Raise(ValueError)
    ensures IsKind(kind) && kind != "rank" && |a| == 0 ==> r == Raise(ZeroDivisionError)
    ensures kind == "rank" && |a| == 0 ==> r == Ok(NaN)
  {
    if kind == "rank" then Ok(RankPercentile(a, score))
    else if !IsKind(kind) then Raise(ValueError)
    else if |a| == 0 then Raise(ZeroDivisionError)
    else if kind == "strict" then Ok(Finite(StrictPercentile(a, score)))
    else if kind == "weak" then Ok(Finite(WeakPercentile(a, score)))
    else Ok(Finite(MeanPercentile(a, score)))
  }

  lemma {:induction false} CountLessAppend(a: seq<real>, b: seq<real>, v: real)
    ensures CountLess(a + b, v) == CountLess(a, v) + CountLess(b, v)
  {
    CountAppend(a, b, LessThan(v));
  }

  lemma {:induction false} CountEqualAppend(a: seq<real>, b: seq<real>, v: real)
    ensures CountEqual(a + b, v) == CountEqual(a, v) + CountEqual(b, v)
  {
    CountAppend(a, b, EqualTo(v));
  }

  lemma {:induction false} BlockStep(e: int, l: int, o: int)
    ensures e * (2 * l + e - 1 + 2 * o) + 2 * (l + e + o) == (e + 1) * (2 * l + (e + 1) - 1 + 2 * o)
  {
  }

  /** In a sorted sequence the positions holding v form one block, right after the
      elements less than v; twice the sum of those positions (each plus offset) is
      E * (2L + E - 1 + 2 offset) for L elements below v and E equal to it. */
  lemma {:induction false} PositionSumSorted(s: seq<real>, v: real, offset: int)
    requires Sorted(s)
    ensures 2 * PositionSum(s, v, offset)
      == CountEqual(s, v) * (2 * CountLess(s, v) + CountEqual(s, v) - 1 + 2 * offset)
  {
    if s != [] {
      var p := s[..|s| - 1];
      assert Sorted(p);
      PositionSumSorted(p, v, offset);
      var y := s[|s| - 1];
      if y == v {
        PositionSumMatch(s, v, offset);
      } else {
        PositionSumOther(s, v, offset);
      }
    }
  }

  /** The last element of s split off. */
  lemma {:induction false} SplitLast(s: seq<real>, v: real)
    requires |s| > 0
    ensures s == s[..|s| - 1] + [s[|s| - 1]]
    ensures CountLess(s, v) == CountLess(s[..|s| - 1], v) + (if s[|s| - 1] < v then 1 else 0)
    ensures CountEqual(s, v) == CountEqual(s[..|s| - 1], v) + (if s[|s| - 1] == v then 1 else 0)
  {
    var p, y := s[..|s| - 1], s[|s| - 1];
    assert s == p + [y];
    CountLessAppend(p, [y], v);
    CountEqualAppend(p, [y], v);
    assert [y][1..] == [];
  }

  /** A last element equal to v extends the block of v by the position right after it. */
  lemma {:induction false} PositionSumMatch(s: seq<real>, v: real, offset: int)
    requires Sorted(s) && |s| > 0 && s[|s| - 1] == v
    requires var p := s[..|s| - 1];
      2 * PositionSum(p, v, offset) == CountEqual(p, v) * (2 * CountLess(p, v) + CountEqual(p, v) - 1 + 2 * offset)
    ensures 2 * PositionSum(s, v, offset)
      == CountEqual(s, v) * (2 * CountLess(s, v) + CountEqual(s, v) - 1 + 2 * offset)
  {
    var p := s[..|s| - 1];
    SplitLast(s, v);
    var e, l := CountEqual(p, v), CountLess(p, v);
    assert forall k :: 0 <= k < |p| ==> AtMost(v)(p[k]) by {
      forall k | 0 <= k < |p| ensures p[k] <= v {
        assert s[k] <= s[|s| - 1];
      }
    }
    CountAll(p, AtMost(v));
    CountSplit(p, v);
    assert |p| == l + e;
    assert PositionSum(s, v, offset) == PositionSum(p, v, offset) + l + e + offset;
    BlockStep(e, l, offset);
  }

  /** A last element other than v adds no position; if it is below v, no element equals v. */
  lemma {:induction false} PositionSumOther(s: seq<real>, v: real, offset: int)
    requires Sorted(s) && |s| > 0 && s[|s| - 1] != v
    requires var p := s[..|s| - 1];
      2 * PositionSum(p, v, offset) == CountEqual(p, v) * (2 * CountLess(p, v) + CountEqual(p, v) - 1 + 2 * offset)
    ensures 2 * PositionSum(s, v, offset)
      == CountEqual(s, v) * (2 * CountLess(s, v) + CountEqual(s, v) - 1 + 2 * offset)
  {
    var p := s[..|s| - 1];
    SplitLast(s, v);
    assert PositionSum(s, v, offset) == PositionSum(p, v, offset);
    if s[|s| - 1] < v {
      assert forall k :: 0 <= k < |p| ==> !EqualTo(v)(p[k]) by {
        forall k | 0 <= k < |p| ensures p[k] != v {
          assert s[k] <= s[|s| - 1];
        }
      }
      CountNone(p, EqualTo(v));
    }
  }

  lemma {:induction false} RankArithmetic(ps: int, e: int, l: int, w: int, n: int)
    requires e > 0 && n > 0 && w == l + e
    requires 2 * ps == e * (2 * l + e + 1)
    ensures ps as real / e as real / n as real * 100.0 == 50.0 * (l + w + 1) as real / n as real
  {
    var m := 2 * l + e + 1;
    assert ps as real == e as real * m as real / 2.0;
    assert ps as real / e as real == m as real / 2.0;
  }

  lemma {:induction false} AbsentArithmetic(x: real, n: real)
    requires n > 0.0
    ensures x / 1 as real / n * 100.0 == 100.0 * x / n
  {
  }

  /** The closed form of the 'rank' kind: 100 L / n for an absent score, and
      50 (L + W + 1) / n, the mean 1-based position of the tied block, for a present one. */
  function RankFormula(l: real, w: real, n: real, present: bool): real
    requires n > 0.0
  {
    if present then 50.0 * (l + w + 1.0) / n else 100.0 * l / n
  }

  /** The 'rank' kind in closed form: with L values below the score and W at or below
      it, an absent score ranks as 100 L / n and a present one as 50 (L + W + 1) / n,
      the mean 1-based position of its tied block. */
  lemma {:induction false} RankClosedForm(a: seq<real>, score: real)
    requires |a| > 0
    ensures RankPercentile(a, score)
      == Finite(RankFormula(CountLess(a, score) as real, CountAtMost(a, score) as real, |a| as real, score in a))
  {
    CountSplit(a, score);
    CountEqualPositive(a, score);
    if score !in a {
      RankAbsent(a, score);
    } else {
      RankPresent(a, score);
    }
  }

  /** An absent score is appended and lands right after the L smaller values, at 0-based position L. */
  lemma {:induction false} RankAbsent(a: seq<real>, score: real)
    requires |a| > 0 && score !in a
    ensures RankPercentile(a, score) == Finite(100.0 * CountLess(a, score) as real / |a| as real)
  {
    var n := |a|;
    var l := CountLess(a, score);
    var s := SortSeq(a + [score]);
    CountEqualPositive(a, score);
    CountPermutation(s, a + [score], EqualTo(score));
    CountPermutation(s, a + [score], LessThan(score));
    CountEqualAppend(a, [score], score);
    CountLessAppend(a, [score], score);
    assert CountEqual(s, score) == 1;
    assert CountLess(s, score) == l;
    PositionSumSorted(s, score, 0);
    var ps := PositionSum(s, score, 0);
    assert ps == l;
    assert RankPercentile(a, score) == Finite(ps as real / 1 as real / n as real * 100.0);
    AbsentArithmetic(l as real, n as real);
  }

  /** A present score's E copies hold the 1-based positions L + 1 .. L + E. */
  lemma {:induction false} RankPresent(a: seq<real>, score: real)
    requires |a| > 0 && score in a
    ensures RankPercentile(a, score)
      == Finite(50.0 * (CountLess(a, score) + CountAtMost(a, score) + 1) as real / |a| as real)
  {
    var s := SortSeq(a);
    var e := CountEqual(a, score);
    var ps := PositionSum(s, score, 1);
    CountSplit(a, score);
    CountEqualPositive(a, score);
    CountPermutation(s, a, EqualTo(score));
    PresentPositions(a, s, score);
    assert RankPercentile(a, score) == Finite(ps as real / e as real / |a| as real * 100.0);
    RankArithmetic(ps, e, CountLess(a, score), CountAtMost(a, score), |a|);
  }

  /** In any ascending arrangement s of a, twice the sum of the 1-based positions of
      the tied block is E (2L + E + 1). */
  lemma {:induction false} PresentPositions(a: seq<real>, s: seq<real>, score: real)
    requires Sorted(s) && multiset(s) == multiset(a)
    ensures 2 * PositionSum(s, score, 1)
      == CountEqual(a, score) * (2 * CountLess(a, score) + CountEqual(a, score) + 1)
  {
    var twice := 2 * PositionSum(s, score, 1);
    var e: int, l: int := CountEqual(s, score), CountLess(s, score);
    assert twice == e * (2 * l + e - 1 + 2 * 1) by {
      PositionSumSorted(s, score, 1);
    }
    assert e == CountEqual(a, score) by {
      CountPermutation(s, a, EqualTo(score));
    }
    assert l == CountLess(a, score) by {
      CountPermutation(s, a, LessThan(score));
    }
    SameBlock(twice, e, l, CountEqual(a, score), CountLess(a, score));
  }

  lemma {:induction false} SameBlock(twice: int, e: int, l: int, e': int, l': int)
    requires e == e' && l == l'
    requires twice == e * (2 * l + e - 1 + 2 * 1)
    ensures twice == e' * (2 * l' + e' + 1)
  {
  }

  lemma {:induction false} OrderArithmetic(l: real, w: real, n: real, present: bool, strict: real, weak: real, rank: real, mean: real)
    requires 0.0 <= l <= w <= n && n > 0.0
    requires present ==> l + 1.0 <= w
    requires !present ==> w == l
    requires strict == l / n * 100.0 && weak == w / n * 100.0
    requires rank == RankFormula(l, w, n, present)
    requires mean == (l + w) * 50.0 / n
    ensures 0.0 <= strict <= rank <= weak <= 100.0
    ensures strict <= mean <= weak && mean == (strict + weak) / 2.0
  {
    var rnum := if present then 50.0 * (l + w + 1.0) else 100.0 * l;
    var mnum := (l + w) * 50.0;
    assert strict == (100.0 * l) / n by {
      DivScale(l, 100.0, n);
    }
    assert weak == (100.0 * w) / n by {
      DivScale(w, 100.0, n);
    }
    assert rank == rnum / n;
    assert mean == mnum / n;
    assert 100.0 * l <= rnum <= 100.0 * w;
    assert 100.0 * l <= mnum <= 100.0 * w;
    assert 0.0 <= strict by {
      DivMonotone(0.0, 100.0 * l, n);
    }
    assert strict <= rank by {
      DivMonotone(100.0 * l, rnum, n);
    }
    assert rank <= weak by {
      DivMonotone(rnum, 100.0 * w, n);
    }
    assert weak <= 100.0 by {
      DivMonotone(100.0 * w, 100.0 * n, n);
      assert (100.0 * n) / n == 100.0;
    }
    assert strict <= mean by {
      DivMonotone(100.0 * l, mnum, n);
    }
    assert mean <= weak by {
      DivMonotone(mnum, 100.0 * w, n);
    }
    assert mean == (strict + weak) / 2.0 by {
      assert mnum == (100.0 * l + 100.0 * w) / 2.0;
      DivSum(100.0 * l, 100.0 * w, n);
    }
  }

  /** Facts about the two counts every kind is built from. */
  lemma {:induction false} CountFacts(a: seq<real>, score: real)
    ensures CountLess(a, score) <= CountAtMost(a, score) <= |a|
    ensures score in a ==> CountLess(a, score) + 1 <= CountAtMost(a, score)
    ensures score !in a ==> CountLess(a, score) == CountAtMost(a, score)
  {
    CountSplit(a, score);
    CountEqualPositive(a, score);
  }

  lemma {:induction false} FormulaOrdered(a: seq<real>, score: real)
    requires |a| > 0
    ensures var rank := RankFormula(CountLess(a, score) as real, CountAtMost(a, score) as real, |a| as real, score in a);
            0.0 <= StrictPercentile(a, score) <= rank <= WeakPercentile(a, score) <= 100.0
    ensures StrictPercentile(a, score) <= MeanPercentile(a, score) <= WeakPercentile(a, score)
    ensures MeanPercentile(a, score) == (StrictPercentile(a, score) + WeakPercentile(a, score)) / 2.0
  {
    var lr, wr, nr := CountLess(a, score) as real, CountAtMost(a, score) as real, |a| as real;
    var present := score in a;
    assert 0.0 <= lr <= wr <= nr && (present ==> lr + 1.0 <= wr) && (!present ==> wr == lr) by {
      CountFacts(a, score);
    }
    assert MeanPercentile(a, score) == (lr + wr) * 50.0 / nr by {
      assert (CountLess(a, score) + CountAtMost(a, score)) as real == lr + wr;
    }
    OrderArithmetic(lr, wr, nr, present, StrictPercentile(a, score), WeakPercentile(a, score),
      RankFormula(lr, wr, nr, present), MeanPercentile(a, score));
  }

  /** strict <= rank <= weak, mean is halfway between strict and weak, and all lie in [0, 100]. */
  lemma {:induction false} KindsOrdered(a: seq<real>, score: real)
    requires |a| > 0
    ensures RankPercentile(a, score).Finite?
    ensures var rank := RankPercentile(a, score).value;
            0.0 <= StrictPercentile(a, score) <= rank <= WeakPercentile(a, score) <= 100.0
    ensures StrictPercentile(a, score) <= MeanPercentile(a, score) <= WeakPercentile(a, score)
    ensures MeanPercentile(a, score) == (StrictPercentile(a, score) + WeakPercentile(a, score)) / 2.0
  {
    FormulaOrdered(a, score);
    RankClosedForm(a, score);
  }

  /** The percentile rank depends only on the multiset of scores, not their order. */
  lemma {:induction false} PermutationInvariant(a: seq<real>, b: seq<real>, score: real, kind: string)
    requires multiset(a) == multiset(b)
    ensures Percentile(a, score, kind) == Percentile(b, score, kind)
  {
    assert |a| == |multiset(a)| == |multiset(b)| == |b|;
    assert score in a <==> score in b by {
      assert score in a <==> score in multiset(a);
      assert score in b <==> score in multiset(b);
    }
    if kind == "rank" {
      assert RankPercentile(a, score) == RankPercentile(b, score) by {
        SortSeqPermutation(a, b);
        assert multiset(a + [score]) == multiset(b + [score]);
        SortSeqPermutation(a + [score], b + [score]);
      }
    } else {
      CountPermutation(a, b, LessThan(score));
      CountPermutation(a, b, AtMost(score));
    }
  }

  /** The three counting kinds, for an array with l scores below the score and w at or below it. */
  lemma {:induction false} CountKinds(a: seq<real>, score: real, l: nat, w: nat)
    requires |a| > 0 && CountLess(a, score) == l && CountAtMost(a, score) == w
    ensures Percentile(a, score, "strict") == Ok(Finite(l as real / |a| as real * 100.0))
    ensures Percentile(a, score, "weak") == Ok(Finite(w as real / |a| as real * 100.0))
    ensures Percentile(a, score, "mean") == Ok(Finite((l + w) as real * 50.0 / |a| as real))
  {
  }

  /** The docstring's first example: three-quarters of [1, 2, 3, 4] lie below 3. */
  lemma {:induction false} DocExampleDistinct()
    ensures Percentile([1.0, 2.0, 3.0, 4.0], 3.0, "rank") == Ok(Finite(75.0))
  {
    var a := [1.0, 2.0, 3.0, 4.0];
    assert CountLess(a, 3.0) == 2 && CountAtMost(a, 3.0) == 3 by {
      assert a[1..] == [2.0, 3.0, 4.0] && a[1..][1..] == [3.0, 4.0] && a[1..][1..][1..] == [4.0];
    }
    assert 3.0 in a by {
      assert a[2] == 3.0;
    }
    RankClosedForm(a, 3.0);
    assert RankFormula(2.0, 3.0, 4.0, true) == 75.0;
  }

  /** The docstring's tied example on [1, 2, 3, 3, 4] at 3: 70 by rank. */
  lemma {:induction false} DocExampleTiedRank()
    ensures Percentile([1.0, 2.0, 3.0, 3.0, 4.0], 3.0, "rank") == Ok(Finite(70.0))
  {
    var a := [1.0, 2.0, 3.0, 3.0, 4.0];
    assert CountLess(a, 3.0) == 2 && CountAtMost(a, 3.0) == 4 by {
      assert a[1..] == [2.0, 3.0, 3.0, 4.0] && a[1..][1..] == [3.0, 3.0, 4.0];
      assert a[1..][1..][1..] == [3.0, 4.0] && a[1..][1..][1..][1..] == [4.0];
    }
    assert 3.0 in a by {
      assert a[2] == 3.0;
    }
    RankClosedForm(a, 3.0);
    assert RankFormula(2.0, 4.0, 5.0, true) == 70.0;
  }

  /** The same example by the counting kinds: 40 strict, 80 weak and 60 mean. */
  lemma {:induction false} DocExampleTiedCounts()
    ensures Percentile([1.0, 2.0, 3.0, 3.0, 4.0], 3.0, "strict") == Ok(Finite(40.0))
    ensures Percentile([1.0, 2.0, 3.0, 3.0, 4.0], 3.0, "weak") == Ok(Finite(80.0))
    ensures Percentile([1.0, 2.0, 3.0, 3.0, 4.0], 3.0, "mean") == Ok(Finite(60.0))
  {
    var a := [1.0, 2.0, 3.0, 3.0, 4.0];
    assert CountLess(a, 3.0) == 2 && CountAtMost(a, 3.0) == 4 by {
      assert a[1..] == [2.0, 3.0, 3.0, 4.0] && a[1..][1..] == [3.0, 3.0, 4.0];
      assert a[1..][1..][1..] == [3.0, 4.0] && a[1..][1..][1..][1..] == [4.0];
    }
    CountKinds(a, 3.0, 2, 4);
    assert 2 as real / 5.0 * 100.0 == 40.0 && 4 as real / 5.0 * 100.0 == 80.0;
    assert (2 + 4) as real * 50.0 / 5.0 == 60.0;
  }
}
