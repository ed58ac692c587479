/** calculate/split_at_breakpoints.py: a list of values split into the intervals
    between consecutive breakpoints. */
module SplitAtBreakpoints {
  import opened Python
  import opened SeqMath
  import opened Sorting

  /** The number of intervals: len(breakpoint_list) - 1, and none for an empty list. */
  function Intervals(bps: seq<real>): nat {
    if |bps| == 0 then 0 else |bps| - 1
  }

  /** v lies in interval i: bps[i] <= v <= bps[i + 1]. */
  predicate InInterval(v: real, bps: seq<real>, i: int) {
    0 <= i && i + 1 < |bps| && bps[i] <= v <= bps[i + 1]
  }

  /** The group the inner loop settles on after the first n intervals: the highest of
      them that holds v, or the starting guess len(bps) - 1 when none does. */
  function GroupUpTo(v: real, bps: seq<real>, n: nat): (g: int)
    requires n <= Intervals(bps)
    ensures g == |bps| - 1 <==> forall i :: 0 <= i < n ==> !InInterval(v, bps, i)
    ensures g != |bps| - 1 ==> 0 <= g < n && InInterval(v, bps, g)
    ensures g != |bps| - 1 ==> forall i :: g < i < n ==> !InInterval(v, bps, i)
  {
    if n == 0 then |bps| - 1
    else if InInterval(v, bps, n - 1) then n - 1
    else GroupUpTo(v, bps, n - 1)
  }

  /** The group of v over all intervals. */
  function Group(v: real, bps: seq<real>): int {
    GroupUpTo(v, bps, Intervals(bps))
  }

  /** v falls in an interval, so split_list[group] exists. */
  predicate Placed(v: real, bps: seq<real>) {
    0 <= Group(v, bps) < Intervals(bps)
  }

  /** The values of s whose group is g, in the order of s. */
  function Members(s: seq<real>, bps: seq<real>, g: int): seq<real> {
    if s == [] then []
    else Members(s[..|s| - 1], bps, g) + (if Group(s[|s| - 1], bps) == g then [s[|s| - 1]] else [])
  }

  /** The groups one after the other. */
  function Concat(gs: seq<seq<real>>): seq<real> {
    if gs == [] then [] else gs[0] + Concat(gs[1..])
  }

  /** split_at_breakpoints(data_list, breakpoint_list). Both lists are sorted in place
      (they may be the same list); every value is then appended to its group, and a
      value outside every interval makes split_list[group] an IndexError. */
  method SplitAtBreakpoints(data: array<real>, bps: array<real>) returns (r: Result<seq<seq<real>>>)
    modifies data, bps
    ensures data[..] == SortSeq(old(data[..])) && bps[..] == SortSeq(old(bps[..]))
    ensures r.Ok? <==> forall k :: 0 <= k < data.Length ==> Placed(data[k], bps[..])
    ensures r.Raise? ==> r.error == IndexError
    ensures r.Ok? ==> |r.value| == Intervals(bps[..])
    ensures r.Ok? ==> forall g :: 0 <= g < |r.value| ==> r.value[g] == Members(data[..], bps[..], g)
  {
    SortBoth(data, bps);
    r := Distribute(data, bps);
  }

  /** data_list.sort() then breakpoint_list.sort(); sorting an already sorted list
      changes nothing, so both end sorted even when they are one list. */
  method SortBoth(data: array<real>, bps: array<real>)
    modifies data, bps
    ensures data[..] == SortSeq(old(data[..])) && bps[..] == SortSeq(old(bps[..]))
  {
    SortReals(data);
    ghost var sorted := data[..];
    SortReals(bps);
    if data == bps {
      SortSeqOfSorted(sorted);
    }
  }

  /** The loop over the values: each one is appended to the list of its group. */
  method Distribute(data: array<real>, bps: array<real>) returns (r: Result<seq<seq<real>>>)
    ensures r.Ok? <==> forall k :: 0 <= k < data.Length ==> Placed(data[k], bps[..])
    ensures r.Raise? ==> r.error == IndexError
    ensures r.Ok? ==> |r.value| == Intervals(bps[..])
    ensures r.Ok? ==> forall g :: 0 <= g < |r.value| ==> r.value[g] == Members(data[..], bps[..], g)
  {
    ghost var s, b := data[..], bps[..];
    var n := if bps.Length == 0 then 0 else bps.Length - 1;
    var split: seq<seq<real>> := seq(n, _ => []);
    var i := 0;
    while i < data.Length
      invariant 0 <= i <= data.Length
      invariant forall k :: 0 <= k < i ==> Placed(s[k], b)
      invariant |split| == n
      invariant forall g :: 0 <= g < n ==> split[g] == Members(s[..i], b, g)
    {
      var value := data[i];
      var group := FindGroup(value, bps);
      var bucket :- PyIndex(split, group);
      forall g | 0 <= g < n
        ensures Members(s[..i + 1], b, g) == Members(s[..i], b, g) + (if group == g then [value] else [])
      {
        MembersSnoc(s, i, b, g);
      }
      split := split[group := bucket + [value]];
      i := i + 1;
    }
    assert s[..i] == s;
    return Ok(split);
  }

  /** The inner loop: the last interval, from first to last, that holds the value. */
  method FindGroup(value: real, bps: array<real>) returns (group: int)
    ensures group == Group(value, bps[..])
  {
    ghost var b := bps[..];
    var n := if bps.Length == 0 then 0 else bps.Length - 1;
    group := bps.Length - 1;
    for j := 0 to n
      invariant group == GroupUpTo(value, b, j)
    {
      if value >= bps[j] && value <= bps[j + 1] {
        group := j;
      }
    }
  }

  /** Taking one more value of s adds it to the end of its own group only. */
  lemma {:induction false} MembersSnoc(s: seq<real>, i: int, bps: seq<real>, g: int)
    requires 0 <= i < |s|
    ensures Members(s[..i + 1], bps, g) == Members(s[..i], bps, g) + (if Group(s[i], bps) == g then [s[i]] else [])
  {
    assert s[..i + 1][..i] == s[..i];
  }

  /** With sorted breakpoints, a value between the first and the last falls in an interval. */
  lemma {:induction false} PlacedWithinRange(v: real, bps: seq<real>)
    requires Sorted(bps) && |bps| >= 2 && bps[0] <= v <= bps[|bps| - 1]
    ensures Placed(v, bps)
  {
    Bracket(v, bps, 0);
  }

  lemma {:induction false} Bracket(v: real, bps: seq<real>, j: int)
    requires Sorted(bps) && 0 <= j < |bps| - 1 && bps[j] <= v <= bps[|bps| - 1]
    ensures exists i :: j <= i < |bps| - 1 && InInterval(v, bps, i)
    decreases |bps| - j
  {
    if v > bps[j + 1] {
      Bracket(v, bps, j + 1);
    } else {
      assert InInterval(v, bps, j);
    }
  }

  /** With strictly increasing breakpoints, a value equal to breakpoint i (other than
      the last) belongs to group i, the interval above it. */
  lemma {:induction false} BreakpointGoesUp(bps: seq<real>, i: int)
    requires forall p, q :: 0 <= p < q < |bps| ==> bps[p] < bps[q]
    requires 0 <= i < |bps| - 1
    ensures Group(bps[i], bps) == i
  {
    var v := bps[i];
    assert InInterval(v, bps, i);
    var g := Group(v, bps);
    assert g >= i;
  }

  /** With sorted breakpoints, a larger value never lands in a lower group. */
  lemma {:induction false} GroupMonotone(v: real, w: real, bps: seq<real>)
    requires Sorted(bps) && v <= w && Placed(v, bps) && Placed(w, bps)
    ensures Group(v, bps) <= Group(w, bps)
  {
    var h, g := Group(v, bps), Group(w, bps);
    assert InInterval(v, bps, h) && InInterval(w, bps, g);
  }

  /** Every member of group g lies in interval g, and a sorted input gives a sorted group. */
  lemma {:induction false} MembersFacts(s: seq<real>, bps: seq<real>, g: int)
    ensures forall k :: 0 <= k < |Members(s, bps, g)| ==> Group(Members(s, bps, g)[k], bps) == g
    ensures Sorted(s) ==> Sorted(Members(s, bps, g))
    ensures forall k :: 0 <= k < |Members(s, bps, g)| ==> Members(s, bps, g)[k] in s
  {
    if s != [] {
      var t, x := s[..|s| - 1], s[|s| - 1];
      assert s == t + [x];
      MembersFacts(t, bps, g);
      if Sorted(s) {
        assert Sorted(t);
        var m := Members(t, bps, g);
        forall k | 0 <= k < |m| ensures m[k] <= x {
          var j :| 0 <= j < |t| && t[j] == m[k];
        }
      }
    }
  }

  /** A group that no value of s belongs to is empty. */
  lemma {:induction false} MembersNone(s: seq<real>, bps: seq<real>, g: int)
    requires forall k :: 0 <= k < |s| ==> Group(s[k], bps) != g
    ensures Members(s, bps, g) == []
  {
    if s != [] {
      MembersNone(s[..|s| - 1], bps, g);
    }
  }

  lemma {:induction false} ConcatEmpty(gs: seq<seq<real>>)
    requires forall g :: 0 <= g < |gs| ==> gs[g] == []
    ensures Concat(gs) == []
  {
    if gs != [] {
      ConcatEmpty(gs[1..]);
    }
  }

  /** Appending x to group G, when every later group is empty, appends x to the concatenation. */
  lemma {:induction false} ConcatAppend(gs: seq<seq<real>>, h: int, x: real)
    requires 0 <= h < |gs| && forall g :: h < g < |gs| ==> gs[g] == []
    ensures Concat(gs[h := gs[h] + [x]]) == Concat(gs) + [x]
  {
    var hs := gs[h := gs[h] + [x]];
    if h == 0 {
      ConcatEmpty(gs[1..]);
      assert hs[1..] == gs[1..];
    } else {
      assert hs[1..] == gs[1..][h - 1 := gs[h] + [x]];
      ConcatAppend(gs[1..], h - 1, x);
    }
  }

  /** With sorted breakpoints and sorted values that all fall in an interval, the groups
      read one after the other give back the sorted values. */
  lemma {:induction false} GroupsConcat(s: seq<real>, bps: seq<real>, gs: seq<seq<real>>)
    requires Sorted(s) && Sorted(bps)
    requires forall k :: 0 <= k < |s| ==> Placed(s[k], bps)
    requires |gs| == Intervals(bps) && forall g :: 0 <= g < |gs| ==> gs[g] == Members(s, bps, g)
    ensures Concat(gs) == s
  {
    if s == [] {
      ConcatEmpty(gs);
    } else {
      var t, x := s[..|s| - 1], s[|s| - 1];
      var h := Group(x, bps);
      DropLast(s, t, bps);
      var hs := seq(|gs|, g requires 0 <= g < |gs| => Members(t, bps, g));
      GroupsConcat(t, bps, hs);
      LaterGroupsEmpty(t, x, bps, hs);
      ConcatAppend(hs, h, x);
      GroupsSnoc(s, bps, gs, hs);
      assert s == t + [x];
    }
  }

  /** Without its last value x, a sorted input whose values are all placed is still
      sorted and placed, and every value left is at most x. */
  lemma {:induction false} DropLast(s: seq<real>, t: seq<real>, bps: seq<real>)
    requires |s| > 0 && Sorted(s) && forall k :: 0 <= k < |s| ==> Placed(s[k], bps)
    requires t == s[..|s| - 1]
    ensures Sorted(t) && Placed(s[|s| - 1], bps)
    ensures forall k :: 0 <= k < |t| ==> Placed(t[k], bps) && t[k] <= s[|s| - 1]
    ensures s == t + [s[|s| - 1]]
  {
  }

  /** Before the last value x of a sorted input, the groups above x's are still empty. */
  lemma {:induction false} LaterGroupsEmpty(t: seq<real>, x: real, bps: seq<real>, hs: seq<seq<real>>)
    requires Sorted(bps) && Placed(x, bps)
    requires forall k :: 0 <= k < |t| ==> Placed(t[k], bps) && t[k] <= x
    requires forall g :: 0 <= g < |hs| ==> hs[g] == Members(t, bps, g)
    ensures forall g :: Group(x, bps) < g < |hs| ==> hs[g] == []
  {
    forall g | Group(x, bps) < g < |hs| ensures hs[g] == [] {
      forall k | 0 <= k < |t| ensures Group(t[k], bps) != g {
        GroupMonotone(t[k], x, bps);
      }
      MembersNone(t, bps, g);
    }
  }

  /** The groups of s are those of s without its last value, with that value appended to its group. */
  lemma {:induction false} GroupsSnoc(s: seq<real>, bps: seq<real>, gs: seq<seq<real>>, hs: seq<seq<real>>)
    requires |s| > 0 && |gs| == |hs| && 0 <= Group(s[|s| - 1], bps) < |gs|
    requires forall g :: 0 <= g < |gs| ==> gs[g] == Members(s, bps, g)
    requires forall g :: 0 <= g < |hs| ==> hs[g] == Members(s[..|s| - 1], bps, g)
    ensures gs == hs[Group(s[|s| - 1], bps) := hs[Group(s[|s| - 1], bps)] + [s[|s| - 1]]]
  {
    var x, h := s[|s| - 1], Group(s[|s| - 1], bps);
    forall g | 0 <= g < |gs| ensures gs[g] == hs[h := hs[h] + [x]][g] {
      assert gs[g] == Members(s[..|s| - 1], bps, g) + (if h == g then [x] else []);
    }
  }

  /** The list the method returns, when every value falls in an interval, splits the
      sorted data into sorted groups, each within its interval, whose concatenation is
      the sorted data. */
  lemma {:induction false} SplitPartitions(s: seq<real>, bps: seq<real>, gs: seq<seq<real>>)
    requires Sorted(s) && Sorted(bps)
    requires forall k :: 0 <= k < |s| ==> Placed(s[k], bps)
    requires |gs| == Intervals(bps) && forall g :: 0 <= g < |gs| ==> gs[g] == Members(s, bps, g)
    ensures Concat(gs) == s
    ensures forall g :: 0 <= g < |gs| ==> Sorted(gs[g])
    ensures forall g, k :: 0 <= g < |gs| && 0 <= k < |gs[g]| ==> InInterval(gs[g][k], bps, g)
  {
    GroupsConcat(s, bps, gs);
    forall g | 0 <= g < |gs| ensures Sorted(gs[g]) && forall k :: 0 <= k < |gs[g]| ==> InInterval(gs[g][k], bps, g) {
      MembersFacts(s, bps, g);
    }
  }
}
