# latimes-calculate in Dafny

A model of the arithmetic core of `calculate`, the Los Angeles Times data desk's
library of helpers for journalism arithmetic, with proofs about it. The model
reads the library as the Python 2 code it is: `map` returns a list, `/` on two
integers floors, and `raise X, msg` is the exception class. Python floats are
exact Dafny `real`s, so no rounding is modelled. Every exception the code raises
is a `Raise(error)` value of a `Result`. A value the code returns instead of
raising, such as `None` or a `ValueError` instance, is an ordinary result value.

The modules follow the library's files:

- `python.dfy`: the Python objects the helpers accept (ints, floats, strings,
  `None`, dates and datetimes), the exception kinds, `float()` on them, `int()`
  truncation, Python 2 division and negative indexing. These are shared by all
  other modules.
- `seqmath.dfy`: sums, counts, sortedness, and a reference insertion sort
  `SortSeq` whose output is the unique sorted permutation of its input.
- `sorting.dfy`: the in-place `list.sort()` as an insertion sort over an
  `array`, proved equal to `SortSeq`.
- `calendar.dfy`: proleptic Gregorian dates, with month lengths, the next day
  and a day count.
- One module per source file for the ranking and percentile helpers, the
  bucketing helpers, the zero-guarded ratios, the calendar helpers and
  `benfords_law`. The older copies are in `calculate.dfy`.
- `ptable.dfy`: the word-wrap functions (module `TextWrap`) and the table
  layout `indent` (module `PTable`).
- `dorling.dfy`: the 2-d tree inside `dorling_cartogram`. It is an imperative
  `class Cartogram` whose recursive `add_point` and `get_point` methods are
  proved against functional specifications. The proofs show that the tree keeps
  the regions ordered and every node reachable from the root, and that the
  pruned search reports only stored points in the window and misses none of
  them. Object 0 is the exception: as written, the code drops it from the
  table (see "## Findings").

Methods that sort in place or loop over the input keep the code's loops and
arrays. Each is proved equal to a specification function, and the lemmas state
what the code promises about that function.

## Model

| member | source | states |
|---|---|---|
| Percentile.Percentile | calculate/percentile.py:74-96 | raises exactly when the kind is unknown (ValueError) or when the array is empty under 'strict', 'weak' or 'mean' (ZeroDivisionError); 'rank' on an empty array gives NaN |
| Percentile.RankClosedForm | calculate/percentile.py:77-87 | 'rank' is 100·L/n for an absent score and 50·(L+W+1)/n, the mean 1-based position of the tied block, for a present one (L values below the score, W at or below it) |
| Percentile.RankAbsent | calculate/percentile.py:78-80 | an absent score is appended and lands at 0-based position L, so 'rank' is 100·L/n |
| Percentile.RankPresent | calculate/percentile.py:81-86 | a present score's copies are averaged over their 1-based positions, giving 50·(L+W+1)/n |
| Percentile.PresentPositions | calculate/percentile.py:84-86 | in any ascending arrangement of the array, twice the sum of the tied block's 1-based positions is E·(2L+E+1) |
| Percentile.PositionSumSorted | calculate/percentile.py:84-86 | in a sorted sequence the positions holding the score form one block right after the L smaller values |
| Percentile.CountKinds | calculate/percentile.py:89-94 | 'strict' is 100·L/n, 'weak' is 100·W/n and 'mean' is 50·(L+W)/n |
| Percentile.RankPercentile | calculate/percentile.py:77-87 | definition of 'rank': the mean position of the score's copies in the sorted array over n, times 100, 0-based after appending an absent score and 1-based otherwise; RankClosedForm, RankAbsent and RankPresent give its closed form |
| Percentile.StrictPercentile | calculate/percentile.py:89-90 | definition of 'strict': the share of values below the score, times 100; CountKinds and KindsOrdered state its properties |
| Percentile.WeakPercentile | calculate/percentile.py:91-92 | definition of 'weak': the share of values at or below the score, times 100; CountKinds and KindsOrdered state its properties |
| Percentile.MeanPercentile | calculate/percentile.py:93-94 | definition of 'mean': the two counts added, times 50, over n; CountKinds and KindsOrdered state its properties |
| Percentile.KindsOrdered | calculate/percentile.py:77-94 | 0 ≤ strict ≤ rank ≤ weak ≤ 100, and mean lies halfway between strict and weak |
| Percentile.FormulaOrdered | calculate/percentile.py:89-94 | the closed forms of the kinds keep the order strict ≤ mean ≤ weak |
| Percentile.CountFacts | calculate/percentile.py:89-92 | L ≤ W ≤ n; a present score has W ≥ L+1 and an absent one W = L |
| Percentile.PermutationInvariant | calculate/percentile.py:74-96 | every kind depends only on the multiset of the array, not on its order |
| Percentile.DocExampleDistinct | calculate/percentile.py:49-50 | [1,2,3,4] at 3 gives 75 |
| Percentile.DocExampleTiedRank | calculate/percentile.py:55-56 | [1,2,3,3,4] at 3 gives 70 under 'rank' |
| Percentile.DocExampleTiedCounts | calculate/percentile.py:60-71 | [1,2,3,3,4] at 3 gives 40 strict, 80 weak and 60 mean |
| Decile.Bucket | calculate/decile.py:34-38 | 100 gives 10; any p in [0,100) gives the d in 1..10 with 10(d−1) ≤ p < 10d |
| Decile.Decile | calculate/decile.py:29-38 | a non-list, non-tuple input raises TypeError, percentile's errors propagate, a NaN percentile makes int() raise ValueError, and otherwise the result is the bucket of the percentile |
| Decile.BucketMonotone | calculate/decile.py:34-38 | the bucket never decreases as the percentile grows |
| Decile.DecileRange | calculate/decile.py:33-38 | a non-empty list with a known kind gives a decile from 1 to 10 |
| Decile.DecileWeakMonotone | calculate/decile.py:33-38 | under the default 'weak' kind a higher score never falls in a lower decile (also line 1) |
| Decile.TestDecileDefault | calculate/tests.py:163 | decile([1,2,3,4], 3) is 8 under the default kind |
| Decile.TestDecileKinds | calculate/tests.py:164-166 | [1,2,3,3,4] at 3 gives 5 strict, 9 weak and 7 mean |
| AtPercentile.Ceil | calculate/at_percentile.py:70 | math.ceil: the least integer at or above x |
| AtPercentile.Remainder | calculate/at_percentile.py:62 | the fractional part read back from str(i − int(i)): in [0,1), zero exactly when i is whole, and i − ⌊i⌋ for i ≥ 0 |
| AtPercentile.AtPercentile | calculate/at_percentile.py:47-79 | float() errors of the values propagate first, then those of float(value), so "75" is accepted and None raises TypeError; otherwise the result is the score at the converted percentile of the sorted float copy |
| AtPercentile.PositionBounds | calculate/at_percentile.py:56-59 | for a percentile in [0,100] the index lies in [0, n−1] |
| AtPercentile.InterpolateOrdered | calculate/at_percentile.py:71-79 | 'lower' is l, 'higher' is h, 'fraction' lies between them, and any other interpolation raises ValueError |
| AtPercentile.ScoreAt | calculate/at_percentile.py:56-79 | definition: the element at a whole index, otherwise the bordering elements combined by Interpolate, an index past either end raising IndexError; InterpolationOrdered, Extremes and FourthQuartileOfFour state its properties |
| AtPercentile.Position | calculate/at_percentile.py:56-59 | definition of the index (n − 1)/100 · value; PositionBounds bounds it |
| AtPercentile.Interpolate | calculate/at_percentile.py:71-79 | definition of the four interpolation branches; InterpolateOrdered states its results |
| AtPercentile.InterpolationOrdered | calculate/at_percentile.py:59-79 | on a sorted list a whole index gives that element whatever the interpolation; otherwise lower ≤ fraction ≤ higher are the bordering elements, and an unknown interpolation raises only for a fractional index |
| AtPercentile.Extremes | calculate/at_percentile.py:56-66 | percentile 0 is the minimum and percentile 100 the maximum |
| AtPercentile.FourthQuartileOfFour | calculate/at_percentile.py:59-76 | percentile 75 of four values lies a quarter of the way from the third to the fourth |
| AtPercentile.DocExamples | calculate/at_percentile.py:29-34 | [1,2,3,4] at 75 gives 3.25, 3.0 with 'lower' and 4.0 with 'higher' |
| Median.MedianOf | calculate/median.py:9-18 | raises IndexError exactly on an empty list |
| Median.Median | calculate/median.py:5-18 | float() errors propagate; otherwise the result is the middle of the sorted float copy |
| Median.MedianSplits | calculate/median.py:9-18 | the median lies between the minimum and the maximum, with at least half the values at or below it and at least half at or above it |
| Median.MedianPermutation | calculate/median.py:5-7 | the median depends only on the values, not their order |
| Median.TestMedianOdd | calculate/tests.py:237 | median([1,3,2]) is 2 |
| Median.TestMedianEven | calculate/tests.py:238 | median([1,2,3,4]) is 2.5 |
| Mean.Mean | calculate/mean.py:24-43 | a non-list, non-tuple input raises TypeError, float() errors propagate, an empty list raises ZeroDivisionError, and otherwise the result is sum/n |
| Mean.AverageBounds | calculate/mean.py:35-41 | values in [lo, hi] have sum/n in [lo, hi] |
| Mean.MeanBounds | calculate/mean.py:24-43 | the mean of values in [lo, hi] lies in [lo, hi] |
| Mean.MeanPermutation | calculate/mean.py:28-41 | the mean does not depend on the order of the values |
| Mean.TestMean | calculate/tests.py:189-190 | mean([1,2,3]) is 2.0 and mean([1,99]) is 50.0 |
| CompetitionRank.CompetitionRank | calculate/competition_rank.py:33-61 | list() of a non-iterable raises TypeError, an unknown direction ValueError and an empty list IndexError; otherwise the result is the rank of the object in a sorted copy, or None when it is absent |
| CompetitionRank.Scan | calculate/competition_rank.py:52-61 | the loop's rank and tie counter give one more than the number of objects strictly ahead of obj's value, or None when obj is not met |
| CompetitionRank.RankPermutation | calculate/competition_rank.py:48-51 | the rank depends only on the objects, not on the caller's order (also line 33) |
| CompetitionRank.BlockAdvance | calculate/competition_rank.py:55-59 | an equal value extends the tie block; a new value starts a block ranked one past everything scanned |
| CompetitionRank.RankFound | calculate/competition_rank.py:60-61 | when the scan meets obj, rank counts every object ahead of it |
| CompetitionRank.Rank | calculate/competition_rank.py:52-61 | definition of the competition rank: one more than the number of objects strictly ahead of obj, None when obj is absent; RankFound, RankTies, RankOrder and RankCompare connect the scan to it |
| CompetitionRank.RankBounds | calculate/competition_rank.py:54-61 | a listed object ranks between 1 and the length of the list |
| CompetitionRank.RankOrder | calculate/competition_rank.py:52-61 | an object strictly ahead of another ranks strictly before it |
| CompetitionRank.RankTies | calculate/competition_rank.py:55-56 | objects with equal values share a rank (the "1224" rule) |
| CompetitionRank.RankCompare | calculate/competition_rank.py:52-61 | two listed objects rank in order exactly when one is strictly ahead, and rank equal exactly when their values are equal |
| CompetitionRank.TestDescending | calculate/tests.py:87-102 | values 1, 2, 2, 3 rank 4, 2, 2, 1 under 'desc' |
| CompetitionRank.TestAscending | calculate/tests.py:109-124 | the same values rank 1, 2, 2, 4 under 'asc' |
| OrdinalRank.IndexOf | calculate/ordinal_rank.py:27 | list.index: the first position holding the item, or ValueError exactly when it is absent |
| OrdinalRank.OrdinalRank | calculate/ordinal_rank.py:23-28 | list() of a non-iterable raises TypeError, an absent item ValueError, and otherwise the result r has sequence[r−1] == item, 1 ≤ r ≤ len and no earlier element equal to the item (also get_ordinal_rank.py:22-23) |
| OrdinalRank.DistinctRanks | calculate/ordinal_rank.py:27-28 | in a sequence of distinct objects the object at position k ranks k+1 |
| OrdinalRank.RankAtMostPosition | calculate/ordinal_rank.py:27-28 | an object's rank is never past any position holding it |
| OrdinalRank.TestOrdinalRank | calculate/tests.py:262-265 | four distinct records rank 1, 2, 3 and 4 |
| Sorting.SortBy | calculate/competition_rank.py:48-51 | list.sort(key=...) in place: the array ends ordered by the key and a permutation of its old contents |
| Sorting.InsertAt | calculate/competition_rank.py:48-51 | one insertion step extends the sorted prefix by one and permutes the array |
| Sorting.SortReals | calculate/median.py:7 | list.sort() on numbers leaves the array equal to SortSeq of its old contents |
| Sorting.SortRealsDescending | calculate/margin_of_victory.py:16 | sort(reverse=True) leaves the array in descending order, equal to the ascending order reversed |
| Sorting.SortedCopy | calculate/at_percentile.py:48-53 | a new list of the values, sorted in place, equals SortSeq of the values |
| SeqMath.SortSeq | calculate/median.py:7 | the reference sort: same length, ascending, and the same multiset |
| SeqMath.SortedUnique | calculate/median.py:7 | two ascending sequences with the same multiset are equal, so every sort agrees with SortSeq |
| SeqMath.SortSeqPermutation | calculate/median.py:5-7 | sorting depends only on the multiset of the elements |
| SeqMath.SortedDescendingUnique | calculate/margin_of_victory.py:16 | a descending sequence is its multiset's ascending order reversed |
| SeqMath.SortSeqEnds | calculate/median.py:7 | the ends of the sorted order are the minimum and the maximum |
| SplitAtBreakpoints.GroupUpTo | calculate/split_at_breakpoints.py:36-43 | after the first n intervals the group is the highest of them holding the value, or the starting guess len(bp)−1 exactly when none holds it |
| SplitAtBreakpoints.SplitAtBreakpoints | calculate/split_at_breakpoints.py:24-49 | both lists end sorted in place; the call succeeds exactly when every value falls in an interval, otherwise IndexError; the result has len(bp)−1 groups and group g holds the values whose group is g, in sorted order |
| SplitAtBreakpoints.SortBoth | calculate/split_at_breakpoints.py:25-26 | both lists end equal to the sorted order of their old contents, even when they are one list |
| SplitAtBreakpoints.Distribute | calculate/split_at_breakpoints.py:30-49 | the outer loop appends each value to its group, and raises IndexError exactly when some value falls in no interval |
| SplitAtBreakpoints.FindGroup | calculate/split_at_breakpoints.py:36-43 | the inner loop ends on the group of the value |
| SplitAtBreakpoints.MembersSnoc | calculate/split_at_breakpoints.py:46 | one more value is appended to its own group only |
| SplitAtBreakpoints.PlacedWithinRange | calculate/split_at_breakpoints.py:39-43 | with sorted breakpoints, a value between the first and the last falls in an interval |
| SplitAtBreakpoints.BreakpointGoesUp | calculate/split_at_breakpoints.py:39-43 | with strictly increasing breakpoints, a value equal to an interior breakpoint i lands in group i, the interval above it |
| SplitAtBreakpoints.GroupMonotone | calculate/split_at_breakpoints.py:39-43 | with sorted breakpoints, a larger value never lands in a lower group |
| SplitAtBreakpoints.MembersFacts | calculate/split_at_breakpoints.py:33-46 | every member of group g has group g and comes from the data, and sorted data gives a sorted group |
| SplitAtBreakpoints.GroupsConcat | calculate/split_at_breakpoints.py:33-46 | for sorted data all in range, the groups read one after the other give back the data |
| SplitAtBreakpoints.SplitPartitions | calculate/split_at_breakpoints.py:24-49 | a successful split partitions the sorted data into ascending groups, each within its interval, whose concatenation is the sorted data |
| EqualSizedBreakpoints.Cut | calculate/equal_sized_breakpoints.py:29-38 | a cut that reads past the list raises IndexError |
| EqualSizedBreakpoints.Cuts | calculate/equal_sized_breakpoints.py:28-40 | the first k cuts in order, or IndexError |
| EqualSizedBreakpoints.EqualSizedBreakpoints | calculate/equal_sized_breakpoints.py:18-46 | the caller's list ends sorted in place and the result is the breakpoint list of the sorted values |
| EqualSizedBreakpoints.CutSorted | calculate/equal_sized_breakpoints.py:25-46 | the loop appends every cut and then the last value |
| EqualSizedBreakpoints.PositionOf | calculate/equal_sized_breakpoints.py:30-32 | q·n with q = i/classes is the position of cut i |
| EqualSizedBreakpoints.CutsFail | calculate/equal_sized_breakpoints.py:38 | a failing cut makes every longer run of cuts fail with IndexError |
| EqualSizedBreakpoints.IndexInRange | calculate/equal_sized_breakpoints.py:34-38 | with fewer classes than values, cut i reads s[aa] and s[aa+1] inside the list, and later cuts read strictly later aa |
| EqualSizedBreakpoints.LastIndexPastEnd | calculate/equal_sized_breakpoints.py:38 | with as many classes as values or more, the last cut reads one past the end |
| EqualSizedBreakpoints.CutsSucceed | calculate/equal_sized_breakpoints.py:28-40 | with fewer classes than values every cut succeeds and the run holds them in order |
| EqualSizedBreakpoints.BreaksSucceed | calculate/equal_sized_breakpoints.py:28-43 | the breakpoints come back exactly when the list is non-empty with fewer classes than values; otherwise IndexError |
| EqualSizedBreakpoints.TooManyClasses | calculate/equal_sized_breakpoints.py:38 | with no fewer classes than values some cut reads past the end |
| EqualSizedBreakpoints.Lerp | calculate/equal_sized_breakpoints.py:36-38 | (1−r)·lo + r·hi lies between lo and hi for r in [0,1) and is lo for r = 0 |
| EqualSizedBreakpoints.BreaksShape | calculate/equal_sized_breakpoints.py:28-43 | on sorted values with fewer classes than values there are classes+1 breakpoints, the first the minimum and the last the maximum, each cut between the values it interpolates, and the list never decreases |
| EqualSizedBreakpoints.Breaks | calculate/equal_sized_breakpoints.py:28-46 | definition of the list returned: one cut per class, then data_list[n − 1], with IndexError when an index falls outside; BreaksSucceed, BreaksShape and BreaksBracketed state its properties |
| EqualSizedBreakpoints.BreaksBracketed | calculate/equal_sized_breakpoints.py:28-43 | the breakpoints of sorted values, each cut bracketed by s[aa] and s[aa+1], the first s[0] and the last s[n−1] |
| EqualSizedBreakpoints.CutBetween | calculate/equal_sized_breakpoints.py:34-38 | cut i lies between s[aa] and s[aa+1], and equals s[aa] when a is whole |
| EqualSizedBreakpoints.BreaksOrdered | calculate/equal_sized_breakpoints.py:28-40 | an earlier cut is never above a later one |
| EqualSizedBreakpoints.DocExample | calculate/equal_sized_breakpoints.py:14-15 | 1..100 in 5 classes breaks at 1, 21, 41, 61, 81 and 100 |
| MarginOfVictory.MarginOf | calculate/margin_of_victory.py:16-19 | raises IndexError exactly when there are fewer than two values |
| MarginOfVictory.MarginOfVictory | calculate/margin_of_victory.py:15-19 | the caller's list ends in descending order in place, and the result is the margin of its old contents |
| MarginOfVictory.MarginIsLead | calculate/margin_of_victory.py:16-19 | with two or more values the margin is ≥ 0 and is a largest value minus the largest of the rest |
| MarginOfVictory.Lead | calculate/margin_of_victory.py:19 | definition: value_list[0] − value_list[1], IndexError for fewer than two values; MarginIsLead and TopTwo state what the margin is |
| MarginOfVictory.TopTwo | calculate/margin_of_victory.py:16-19 | in any ascending arrangement the top is a largest value and the one below it the largest once one copy of the top is removed |
| MarginOfVictory.MarginOfSorted | calculate/margin_of_victory.py:16-19 | the margin is the top of the ascending order minus the value just below it |
| MarginOfVictory.SecondLargest | calculate/margin_of_victory.py:19 | below the largest element of the sorted order comes the largest of the rest |
| MarginOfVictory.TestThree | calculate/tests.py:179-182 | [3285, 2804, 7170] gives 3885 |
| MarginOfVictory.TestTwo | calculate/tests.py:183-186 | [50708, 20639] gives 30069 |
| Pareto.Column | calculate/pareto.py:34-36 | a column of floats comes back exactly when every row has the cell and float() accepts it, converting each cell; otherwise IndexError, TypeError or ValueError |
| Pareto.Crossing | calculate/pareto.py:49-51 | the while loop stops at the first index whose prefix sum exceeds the target, or runs off the end with IndexError |
| Pareto.GroupedMedianScan | calculate/pareto.py:34-64 | the method returns the grouped median of its argument |
| Pareto.MedianScan | calculate/pareto.py:39-64 | the early 0, the scan and the interpolation return the median of the three columns |
| Pareto.ScanGroups | calculate/pareto.py:46-51 | the loop ends where Crossing says, with the running total of the groups it passed |
| Pareto.CrossingFound | calculate/pareto.py:49-51 | once some prefix passes the target the scan never runs off the end |
| Pareto.MedianGroup | calculate/pareto.py:46-63 | with a positive total the median group k has at most half the total before it and more than half with it, so its count is positive, the share is in [0,1) and the result is base + share·width |
| Pareto.GroupedMedian | calculate/pareto.py:34-64 | definition: three passes over data_list for the float columns, then MedianOfGroups; an iterator is used up by the first pass; GroupedMedianScan proves the loop equal to it, and RowsOfNumbers and IteratorUsedUp state its results |
| Pareto.Reread | calculate/pareto.py:35-36 | definition of what the second and third passes see: the rows again, or nothing for an iterator |
| Pareto.IteratorUsedUp | calculate/pareto.py:34-56 | an iterator of number rows with a non-zero total raises IndexError: the bases comprehension finds it empty, and bases[index] at line 56 fails |
| Pareto.TestIteratorRows | calculate/pareto.py:34-56 | the three groups of TestThreeGroups passed as an iterator raise IndexError instead of giving 7.5 |
| Pareto.MedianOfGroups | calculate/pareto.py:39-63 | definition: 0 without data or with a zero total, otherwise the crossing group's base plus its share of its width; NoData, MedianGroup and NegativeTotal state its cases |
| Pareto.MedianInGroup | calculate/pareto.py:63 | with a positive total and a non-negative width the estimate lies in [base, base+width], strictly below the top when the width is positive |
| Pareto.NegativeTotal | calculate/pareto.py:46-63 | a negative total skips the loop and index −1 reads the last group; a zero count there raises ZeroDivisionError |
| Pareto.ColumnOfNumbers | calculate/pareto.py:34-36 | rows of numbers give the columns of their values |
| Pareto.RowsOfNumbers | calculate/pareto.py:34-36 | for [count, base, width] rows the first field is used as counts, the second as bases and the third as widths, whatever the header line calls it; an iterator leaves bases and widths empty (also line 13 and line 17) |
| Pareto.NoData | calculate/pareto.py:39-40 | an empty list or a zero total gives 0 |
| Pareto.TestThreeGroups | calculate/pareto.py:46-64 | counts 1, 2, 1 in groups of width 5 give 7.5 |
| Elfi.Elfi | calculate/elfi.py:24-29 | raises exactly when float() rejects an element, with float()'s exception kind (a ValueError raised again as ValueError, a TypeError as it is); otherwise the index is at most 1 |
| Elfi.SquaresAtMostSquaredSum | calculate/elfi.py:29 | for non-negative shares the sum of squares is at most the square of the sum |
| Elfi.ElfiOfShares | calculate/elfi.py:24-29 | non-negative shares adding up to one give an index in [0,1] |
| Elfi.OrderFree | calculate/elfi.py:29 | the index does not depend on the order of the list |
| Elfi.EmptyList | calculate/elfi.py:29 | an empty list gives 1 |
| Elfi.TestElfi | calculate/tests.py:169-174 | [1] gives 0, [0.5,0.5] gives 0.5 and [0.2,0.5,0.05,0.25] gives 0.645 |
| Elfi.TestElfiText | calculate/tests.py:175-176 | ['a', 0.2, 3] raises ValueError |
| Percentage.Percentage | calculate/percentage.py:24-34 | a non-number argument returns a ValueError instance, a zero total returns None, and otherwise the result times the total is the value (times 100 with multiply) |
| Percentage.MultiplyScales | calculate/percentage.py:30-31 | multiply only scales the share by 100 |
| Percentage.PercentageBounds | calculate/percentage.py:28-32 | a value equal to a non-zero total is 100 percent, and a part between 0 and a positive total lies in [0,100] |
| Percentage.TestPercentage | calculate/tests.py:352-354 | (12,60) gives 20, with multiply=False 0.2, (12,0) gives None, and (2,10) gives 20.0 (also calculate/percentage.py:16-17) |
| PercentageChange.PercentageChange | calculate/percentage_change.py:28-39 | a non-number argument returns a ValueError instance, a zero old value returns None, and otherwise the result times the old value is the change (times 100 with multiply) |
| PercentageChange.ChangeSign | calculate/percentage_change.py:32-37 | from a positive old value the change is positive, zero or negative exactly as the value grew, stayed or fell; a fall to zero is −100 |
| PercentageChange.TestPercentageChange | calculate/tests.py:359-362 | (12,60) gives 400, with multiply=False 4.0, (12,0) gives −100, (0,12) gives None, and the doc string's (2,10) gives 400, not 200 (also calculate/percentage_change.py:19-21) |
| PerCapita.PerCapita | calculate/per_capita.py:19-27 | a non-number value or population returns a ValueError instance, a zero population returns None, a non-number per raises TypeError only after a successful division, and otherwise the result is value/population·per (also line 1) |
| PerCapita.LinearInPer | calculate/per_capita.py:24 | scaling per by c scales the rate by c |
| PerCapita.TestPerCapita | calculate/tests.py:340-341 | (12,100000) gives 1.2 with the default per, and (12,0) gives None |
| PerSqmi.PerSqmi | calculate/per_sqmi.py:15-23 | a non-number argument returns a ValueError instance, a zero area returns None, and otherwise the result times the area is the value |
| PerSqmi.LargerAreaLowerRate | calculate/per_sqmi.py:20 | the same value over a larger positive area never gives a higher rate |
| PerSqmi.TestPerSqmi | calculate/tests.py:346-347 | (12,60) gives 0.2 and (12,0) gives None |
| Age.Replace | calculate/age.py:40 | date.replace keeps the month and succeeds exactly when the resulting date exists; otherwise ValueError (also line 42) |
| Age.Anniversary | calculate/age.py:37-42 | the birthday in a given year is the same month and day, except that February 29 becomes February 28 outside leap years |
| Age.Age | calculate/age.py:29-46 | fails exactly when born, or a given as_of, is not a date or datetime: a string born with a usable as_of raises TypeError (str.replace takes no keywords), every other failure AttributeError; a false as_of means today; otherwise the age on the dates the datetimes are cut to |
| Age.WholeYears | calculate/age.py:43-46 | on or after the birth date the age n is the count of anniversaries passed: the n-th is not after as_of and the (n+1)-th is |
| Age.AgeOn | calculate/age.py:43-46 | definition: as_of.year − born.year, one less while the anniversary of as_of's year is still ahead; WholeYears, Birthday and AgeMonotone state its properties |
| Age.AgeMonotone | calculate/age.py:43-46 | a later as_of never gives a smaller age |
| Age.Birthday | calculate/age.py:43-46 | the age goes up on the birthday itself and not the day before |
| Age.DayBefore | calculate/age.py:42 | the day before is earlier and, past the first day of a month, is that day minus one |
| Age.LeapDay | calculate/age.py:38-42 | born on February 29, the age goes up on February 28 outside leap years and on February 29 in leap years |
| Age.TestAge | calculate/tests.py:17-44 | every mix of date and datetime gives 29, the leap-day birth 27, and the birthday tomorrow 0 |
| Age.TestAgeDefaults | calculate/age.py:30-31 | a missing as_of is today; a string as_of raises AttributeError; a string born raises TypeError with a date or missing as_of and AttributeError with a string as_of; a number born raises AttributeError (also line 40) |
| DateRange.DateRange | calculate/date_range.py:28-47 | succeeds exactly when both arguments are dates or datetimes and the start is not after the end; a start after the end is a ValueError raised at the call |
| DateRange.Drain | calculate/date_range.py:33-41 | collecting the generator one yield at a time gives what Yielded describes, including the overflow |
| DateRange.AfterAfter | calculate/date_range.py:35-41 | collected prefixes join associatively |
| DateRange.DaysShape | calculate/date_range.py:35-41 | the intended run starts at start, ends at end, has one entry per day in between and steps one day at a time (also line 8) |
| DateRange.Yielded | calculate/date_range.py:33-41 | definition of what list() of the generator collects, with OverflowError when the step passes date.max; YieldedDays relates it to Days |
| DateRange.Days | calculate/date_range.py:35-41 | definition of the inclusive run of days from start to end; DaysShape, DaysNumbered and DaysEnd state its properties |
| DateRange.Step | calculate/date_range.py:38-41 | before end the next day exists, is not after end and is one ordinal on |
| DateRange.DaysNumbered | calculate/date_range.py:38 | entry i is i days after start |
| DateRange.DaysEnd | calculate/date_range.py:40-41 | the run ends at end and its length is the ordinal difference plus one |
| DateRange.YieldedDays | calculate/date_range.py:35-41 | before the last representable date the generator yields exactly the inclusive run of days; with end at the last date it raises OverflowError |
| DateRange.TestDateRange | calculate/tests.py:155-160 | 2009-01-01 12:31 to 2009-01-03 yields the three days; 2011-01-01 to 2010-12-31 raises ValueError |
| AdjustedMonthlyValue.AdjustedMonthlyValue | calculate/adjusted_monthly_value.py:35-49 | succeeds exactly when value is an int and dt a date or datetime, else TypeError; the result times the month's length is value times 30 |
| AdjustedMonthlyValue.MonthOnly | calculate/adjusted_monthly_value.py:43 | only the year and month of dt matter |
| AdjustedMonthlyValue.MonthLength | calculate/adjusted_monthly_value.py:43-49 | a 30-day month keeps the value; for a positive value a 31-day month lowers it and a February raises it |
| AdjustedMonthlyValue.TestAdjustedMonthlyValue | calculate/tests.py:46-64 | April 2009 keeps 10, February 2009 gives 300/28, December 2009 300/31, and the three bad inputs raise TypeError |
| Calendar.DaysInMonth | calculate/adjusted_monthly_value.py:43 | calendar.monthrange's month length: 31 exactly for the long months, 30 exactly for the four short ones, February 29 exactly in leap years |
| Calendar.NextDay | calculate/date_range.py:38 | the day after a date is later than it |
| Calendar.NextDayNumber | calculate/date_range.py:38 | stepping a day advances the ordinal by one |
| Calendar.BeforeIffDayNumber | calculate/date_range.py:40 | the comparison of dates agrees with their ordinals (also calculate/age.py:43) |
| Calendar.DayNumberInjective | calculate/date_range.py:40 | distinct dates have distinct ordinals |
| BenfordsLaw.IntOfChar | calculate/benfords_law.py:105 | int() of one character succeeds exactly on a digit character, giving the digit it spells; otherwise ValueError (also line 108) |
| BenfordsLaw.FirstDigit | calculate/benfords_law.py:104-105 | an empty text raises IndexError; otherwise int() of its first character |
| BenfordsLaw.LastDigit | calculate/benfords_law.py:107-108 | an empty text raises IndexError; otherwise int() of its last character |
| BenfordsLaw.Leading | calculate/benfords_law.py:105 | the leading digit is at most 9 and non-zero for a positive number |
| BenfordsLaw.DigitsOfInt | calculate/benfords_law.py:104-108 | for an int the last digit is its absolute value mod 10, the first is its leading digit, and a negative int fails on its '-' with ValueError |
| BenfordsLaw.PrefixFailure | calculate/benfords_law.py:128-131 | once a prefix of the input raises, the whole input raises with that error |
| BenfordsLaw.CollectDigits | calculate/benfords_law.py:128-131 | the digit_list loop computes DigitsOf |
| BenfordsLaw.DigitsOfShape | calculate/benfords_law.py:128-131 | the digits come out exactly when every text has one, position by position; otherwise the first failing text's error is raised |
| BenfordsLaw.DigitsOf | calculate/benfords_law.py:128-131 | definition of digit_list: the digits in input order, the first failing text raising; DigitsOfShape and PrefixFailure state its properties |
| BenfordsLaw.TypicalDistributions | calculate/benfords_law.py:114-125 | the loop builds log10(1 + 1/d)·100 for d in 1..9 and the last-digit table 10.0 for 0..9 |
| BenfordsLaw.KeysBelow | calculate/benfords_law.py:135-140 | the numbers the results loop keeps are keys of the table below the bound |
| BenfordsLaw.KeysBelowShape | calculate/benfords_law.py:135-140 | every key below the bound is kept, in ascending order |
| BenfordsLaw.KeysListed | calculate/benfords_law.py:135-140 | every key of the table below the bound is kept |
| BenfordsLaw.KeysAscending | calculate/benfords_law.py:135 | the kept numbers ascend |
| BenfordsLaw.KeysRange | calculate/benfords_law.py:135-140 | when the keys below n are lo..n−1 the loop visits exactly those, in order |
| BenfordsLaw.Tabulated | calculate/benfords_law.py:134-142 | with digits the loop succeeds; it can only raise ZeroDivisionError; its rows are the table's keys in order, each telling the truth about the digits |
| BenfordsLaw.Numbers | calculate/benfords_law.py:142 | the numbers column has one entry per row |
| BenfordsLaw.AppendRow | calculate/benfords_law.py:142 | appending a truthful row keeps every row truthful |
| BenfordsLaw.FailureStays | calculate/benfords_law.py:141 | once the loop has raised it stays raised |
| BenfordsLaw.Tabulate | calculate/benfords_law.py:134-142 | the results loop computes Tabulated |
| BenfordsLaw.TabulatedEmpty | calculate/benfords_law.py:141 | with no digits the loop succeeds exactly when no number is in the table |
| BenfordsLaw.Analyzed | calculate/benfords_law.py:101-148 | an unknown method is a ValueError before the input is read; a non-iterable input a TypeError; a digit failure its own error; success describes the digits under the method's table |
| BenfordsLaw.ExpectedColumn | calculate/benfords_law.py:147 | list_one holds the rows' expected figures, one per row |
| BenfordsLaw.BenfordsLaw | calculate/benfords_law.py:100-148 | the function as written computes Analyzed |
| BenfordsLaw.TableKeys | calculate/benfords_law.py:118-125 | the rows' numbers are 1..9 under first_digit (0 is skipped by the KeyError) and 0..9 under last_digit (also lines 137-140) |
| BenfordsLaw.FirstDigitTable | calculate/benfords_law.py:118-120 | definition: log10(1 + 1/d) · 100 for each d in 1..9; TableKeys states its keys |
| BenfordsLaw.LastDigitTable | calculate/benfords_law.py:122-125 | definition: 10.0 for each digit 0..9; TableKeys states its keys |
| BenfordsLaw.AnalyzedRows | calculate/benfords_law.py:134-148 | given digits, the result has one row per table digit in ascending order and list_two is those digits |
| BenfordsLaw.EmptyList | calculate/benfords_law.py:141 | an empty number_list raises ZeroDivisionError |
| BenfordsLaw.PearsonIgnoresCounts | calculate/benfords_law.py:147-149 | what pearson is given does not depend on the counts: two successful inputs under one method give the same list_one and list_two |
| BenfordsLaw.ActualColumn | calculate/benfords_law.py:141 | the actual-percentage column holds each row's actual percentage, one per row |
| BenfordsLaw.ComparedSeesCounts | calculate/benfords_law.py:144-149 | comparing the expected column with the actual one, two digit lists of one length under one table get the same expected column, and an actual column differing at every row whose number they count differently |
| BenfordsLaw.CountsBelowSnoc | calculate/benfords_law.py:136 | counting digits below n grows by one exactly for an appended digit below n |
| BenfordsLaw.CountsBelowAll | calculate/benfords_law.py:136 | digits all below n are all counted |
| BenfordsLaw.CountColumnSum | calculate/benfords_law.py:135-142 | with every number below n in the table the count column adds up to the digits below n |
| BenfordsLaw.ResultsOf | calculate/benfords_law.py:134-142 | the rows of a successful analysis are the results loop's |
| BenfordsLaw.LastDigitsBelowTen | calculate/benfords_law.py:107-108 | last digits lie in 0..9 |
| BenfordsLaw.LastDigitCounts | calculate/benfords_law.py:134-142 | under last_digit the counts add up to the length of number_list |
| BenfordsLaw.LastDigitSum | calculate/benfords_law.py:134-142 | digits all in 0..9, tabulated under the last-digit table, are all counted by its rows |
| BenfordsLaw.TestDigits | calculate/tests.py:66-74 | the first digits of 1..10 are 1..9 then 1, the last digits 1..9 then 0 |
| BenfordsLaw.TestLastDigit | calculate/tests.py:71-74 | under last_digit every row reads 10% against 10% and list_one is ten equal figures |
| BenfordsLaw.TestFirstDigit | calculate/tests.py:67-70 | under first_digit the row for 1 counts 2, or 20% |
| BenfordsLaw.TalliesTen | calculate/benfords_law.py:136-141 | of ten digits a number occurring twice reads 20% |
| BenfordsLaw.TestBenfordsErrors | calculate/tests.py:75-78 | 'magic' raises ValueError even on a non-iterable, and a float input raises TypeError |
| Calculate.Decile | calculate.py:31-38 | anything but a list raises TypeError; on a list the result is the newer decile's |
| Calculate.SumOf | calculate.py:69 | sum() over objects succeeds exactly when every element is a number, and then it is the sum of their values; otherwise TypeError |
| Calculate.Elfi | calculate.py:67-72 | anything but a list raises TypeError, a non-number element TypeError, a sum other than exactly 1.0 ValueError; otherwise the index is at most 1 (also get_elfi.py:29-34) |
| Calculate.OrdinalRank | calculate.py:96-99 | anything but a QuerySet raises TypeError, an absent object ValueError, and otherwise queryset[r−1] == obj with 1 ≤ r ≤ len |
| Calculate.PerCapita | calculate.py:101-106 | float() of the value raises its own error, a non-number population TypeError, a zero population gives None, a non-number per TypeError, and otherwise the rate is value/population·per (also get_per_capita.py:1-6) |
| Calculate.PerSqmi | calculate.py:108-113 | float() of the value raises its own error, a non-number area TypeError, a zero area gives None, and otherwise the result times the area is the value (also get_per_sqmi.py:1-6) |
| Calculate.PercentChange | calculate.py:115-121 | non-numbers raise TypeError at the subtraction, a zero old value gives None, and otherwise old + old·r/100 == new (also get_percent_change.py:1-7) |
| Calculate.Percentage | calculate.py:142-146 | float() of the total raises its own error, a non-number value TypeError, a zero total gives None, and otherwise the result is value/total·100 (also get_percentage.py:20-24) |
| Calculate.DecileListsOnly | calculate/decile.py:29-32 | on a list both editions agree and give 1..10; a tuple is refused here and accepted by the newer one (also calculate.py:31-32) |
| Calculate.DecileDocExample | calculate.py:31-38 | [1,2,3,3,4] with score 3 gives 9 |
| Calculate.ElfiAgrees | calculate.py:67-72 | on a list of numbers adding up to one the two editions agree (also calculate/elfi.py:24-29) |
| Calculate.ElfiSumCheck | calculate.py:69-70 | [0.5] is a ValueError here and 0.75 in the newer edition (also calculate/elfi.py:29) |
| Calculate.ElfiOrderFree | calculate.py:69-71 | the index does not depend on the order of the list |
| Calculate.SumOfPermutation | calculate.py:69 | sum() of a rearranged list is the same |
| Calculate.SumOfStep | calculate.py:69 | sum() of a list of numbers is its head plus the sum of its tail |
| Calculate.ElfiDocExample | get_elfi.py:15-18 | [0.2, 0.5, 0.05, 0.25] gives 0.645 |
| Calculate.OrdinalRankQuerySetsOnly | calculate/ordinal_rank.py:23-28 | on a QuerySet both editions agree; a list is refused here (also calculate.py:96-99) |
| Calculate.PerCapitaAgrees | calculate/per_capita.py:19-27 | for numbers both editions give the same rate, and doubling per doubles it (also calculate.py:101-106) |
| Calculate.PerCapitaDefault | calculate.py:101 | with the default per, 12 in 100000 is 1.2 and a zero population gives None |
| Calculate.PerSqmiFloatFirst | calculate.py:108-113 | float() makes 12 over 60 square miles 0.2 where Python 2's 12/60 is 0; a string float() rejects is raised here but returned as an instance by the newer edition |
| Calculate.NotANumber | calculate.py:110 | float('x') raises ValueError |
| Calculate.NumericString | calculate.py:110 | float('12') is 12.0 |
| Calculate.PercentChangeSign | calculate.py:115-121 | the result is the newer edition's; no change is 0, a fall to zero −100, and from a positive old value the change is positive exactly when the value grew (also calculate/percentage_change.py:32-37) |
| Calculate.PercentageBounds | calculate.py:142-146 | the result is the newer edition's; a part of a positive total lies in [0,100] and the whole is 100 (also calculate/percentage.py:28-32) |
| Calculate.PercentageDocExample | get_percentage.py:10-13 | (2,10) gives 20.0 and (2,0) gives None |
| TextWrap.Find | calculate/ptable.py:93 | str.find: the first position of the character, or the length when it is absent |
| TextWrap.Split | calculate/ptable.py:37 | str.split on one character: at least one piece, none holding the separator (also line 98) |
| TextWrap.SplitJoin | calculate/ptable.py:37 | joining the pieces of a split with the separator gives back the text (also line 98) |
| TextWrap.JoinSplit | calculate/ptable.py:37 | pieces free of the separator come back from the split of their join (also line 98) |
| TextWrap.ChunkCount | calculate/ptable.py:123 | int(math.ceil(len / width)): the fewest chunks of width characters that cover the text, zero exactly for an empty text |
| TextWrap.WrapAlways | calculate/ptable.py:114-125 | a zero width raises ZeroDivisionError exactly, a negative width gives the empty string, and otherwise the chunks joined by newlines |
| TextWrap.ChunksShape | calculate/ptable.py:120-125 | ceil(len/width) chunks, all width long but the last, which has 1 to width characters, together spelling the text |
| TextWrap.ChunkLengths | calculate/ptable.py:121 | each chunk is at most width long and all but the last are exactly width |
| TextWrap.ConcatChunks | calculate/ptable.py:121 | the first i chunks spell the text up to character width·i |
| TextWrap.WrapAlwaysSplits | calculate/ptable.py:120-125 | removing the newlines wrap_always inserts into a newline-free text gives back exactly its chunks |
| TextWrap.ChunkInText | calculate/ptable.py:121 | a chunk holds only characters of the text |
| TextWrap.RFind | calculate/ptable.py:92 | str.rfind: the last position of the character, or −1 |
| TextWrap.WrappedShape | calculate/ptable.py:85-99 | the fold is as long as the space-join of the words and differs from it only at the joints, each a space or a newline |
| TextWrap.WrapOnSpaceShape | calculate/ptable.py:76-99 | wrap_onspace keeps the text's length and every non-space character, and changes a space only into a newline |
| TextWrap.WrappedFits | calculate/ptable.py:89-95 | every line of the fold that holds a space is at most width long |
| TextWrap.JointFits | calculate/ptable.py:89-95 | a kept space joins a line end and a word start whose total stays under width |
| TextWrap.WrapOnSpaceFits | calculate/ptable.py:76-99 | no line holding a space is longer than width |
| TextWrap.WrapOnSpaceRule | calculate/ptable.py:89-95 | the k-th space becomes a newline exactly when the last line so far and the first line of the next word reach width |
| TextWrap.SpaceAt | calculate/ptable.py:98 | in the join of the words the k-th space follows the join of the first k |
| TextWrap.JointAt | calculate/ptable.py:85-97 | in the fold the fold of the first k words is followed by their joint |
| TextWrap.WrappedPrefix | calculate/ptable.py:85-97 | the fold of the first m words is a prefix of the fold of all |
| TextWrap.RunLength | calculate/ptable.py:107 | the run of non-whitespace characters a text starts with, ending at whitespace or the end |
| TextWrap.WrapOnSpaceStrict | calculate/ptable.py:102-111 | width 0 raises ZeroDivisionError exactly; a positive width gives wrap_onspace of the text with every long run cut by wrap_always, and a negative one wrap_onspace of the text with the matches of the literal pattern erased |
| TextWrap.WrapOnSpace | calculate/ptable.py:76-99 | definition: the words of text.split(' ') folded back together by Wrapped; WrapOnSpaceShape, WrapOnSpaceFits and WrapOnSpaceRule state its properties |
| TextWrap.Wrapped | calculate/ptable.py:85-97 | definition of the reduce: each word appended after the joint Joint picks; WrappedShape, WrappedFits and WrappedPrefix state its properties |
| TextWrap.Joint | calculate/ptable.py:89-95 | definition: a newline when the last line so far and the first line of the next word together reach width, a space otherwise; JointAt and JointFits state its properties |
| TextWrap.Substituted | calculate/ptable.py:107-109 | definition for a positive width: every maximal run of at least width non-whitespace characters replaced by wrap_always of it; SubstitutedFits states its property |
| TextWrap.BraceLiteral | calculate/ptable.py:107 | for a negative width the pattern is \S and then literal text: a brace, str(width) and ",}", at least four characters starting with the brace |
| TextWrap.Erased | calculate/ptable.py:109 | definition of the substitution with that pattern: scanning from the left, each match is replaced by wrap_always of it, which a negative width makes empty; ErasedUntouched and ErasedMatch state its behaviour |
| TextWrap.ErasedUntouched | calculate/ptable.py:107-109 | a text without a brace has no match and comes through the substitution unchanged |
| TextWrap.ErasedMatch | calculate/ptable.py:107-109 | a non-whitespace character followed by the literal is erased, and the substitution goes on after it |
| TextWrap.WrappedNegative | calculate/ptable.py:89-95 | with a width of at most 0 every joint is a newline, so the fold is the words joined by newlines |
| TextWrap.WrapOnSpaceNegative | calculate/ptable.py:76-99 | wrap_onspace with a width of at most 0 keeps the length, turns every space into a newline and keeps every other character |
| TextWrap.StrictNegative | calculate/ptable.py:102-111 | a negative width never raises: the literal matches are erased and every remaining space becomes a newline, so a text without a brace keeps every character but its spaces, which become newlines |
| TextWrap.JoinFits | calculate/ptable.py:120 | pieces of at most width characters joined by newlines leave no longer run |
| TextWrap.PieceFits | calculate/ptable.py:107-109 | what replaces a run leaves no run longer than width |
| TextWrap.SubstitutedFits | calculate/ptable.py:107-109 | after the substitution no run of non-whitespace characters is longer than width |
| TextWrap.ConcatFits | calculate/ptable.py:109 | two texts whose runs fit, the second starting with whitespace, still fit when joined |
| TextWrap.StrictFits | calculate/ptable.py:102-111 | in wrap_onspace_strict's output no run of non-whitespace characters is longer than width, and no line holding a space is |
| PTable.Lower | calculate/ptable.py:57 | str.lower keeps the length and lower-cases each character |
| PTable.JustifyOf | calculate/ptable.py:53-57 | 'center', 'right' and 'left' in any case select their method, anything else raises KeyError |
| PTable.Spaces | calculate/ptable.py:66 | the padding is n spaces, none for n ≤ 0 |
| PTable.Offset | calculate/ptable.py:53-57 | the text starts within the margin of a wider field and at 0 otherwise (also line 66) |
| PTable.Pad | calculate/ptable.py:66 | justify pads to the field width, never cuts, and keeps the text at its offset between spaces |
| PTable.CenterBalanced | calculate/ptable.py:54 | str.center's two margins differ by at most one |
| PTable.PhysicalRows | calculate/ptable.py:36-41 | each physical row of a row has one cell per item |
| PTable.Tallest | calculate/ptable.py:40 | the padded length is that of the longest list |
| PTable.ColumnCount | calculate/ptable.py:45 | the number of columns is the length of the longest physical row |
| PTable.MaxWidths | calculate/ptable.py:47-49 | one width per column |
| PTable.ColumnWidthMax | calculate/ptable.py:47-49 | each column is as wide as its widest cell: none wider, one as wide |
| PTable.Repeat | calculate/ptable.py:50 | headerChar·n has n times its length, every character headerChar when it is one character |
| PTable.Logical | calculate/ptable.py:43 | one logical row per row, each broken by rowWrapper |
| PTable.Indented | calculate/ptable.py:19-73 | no rows or an empty row raise TypeError, an unknown justify KeyError, separateRows TypeError, and indent succeeds in every other case |
| PTable.IndentedOk | calculate/ptable.py:43-73 | for non-empty rows and a known justify the table is the printed rows |
| PTable.LogicalNonEmpty | calculate/ptable.py:43 | rows with items give at least one physical row |
| PTable.WriteRows | calculate/ptable.py:62-69 | the inner loop prints each physical row's line |
| PTable.Indent | calculate/ptable.py:19-73 | the function as written computes Indented |
| PTable.PrintRows | calculate/ptable.py:61-72 | the outer loop prints each logical row and the separator once while the header flag is up |
| PTable.JoinLength | calculate/ptable.py:65 | a join is as long as its parts plus one delimiter between each two |
| PTable.LineLength | calculate/ptable.py:63-68 | a line with every column is exactly as long as the separator is meant to be (also lines 50-51) |
| PTable.Line | calculate/ptable.py:63-68 | definition of one printed line: prefix, the justified cells joined by delim, postfix; LineLength and LinesMatchSeparator state its length |
| PTable.SeparatorShape | calculate/ptable.py:50-51 | the separator has one headerChar per character of a full line |
| PTable.LinesMatchSeparator | calculate/ptable.py:63-68 | every full line is as long as the separator (also lines 50-51) |
| PTable.RectangularRows | calculate/ptable.py:36-43 | a rectangular table breaks into physical rows of the same width |
| PTable.PrintedPlain | calculate/ptable.py:61-69 | without a header the output is the lines of all physical rows in order |
| PTable.Printed | calculate/ptable.py:61-72 | definition of the printing loop: each logical row's lines, then the separator while the header flag is up; PrintedStep, PrintedPlain and HeaderOnce state its properties |
| PTable.BlockAppend | calculate/ptable.py:61-69 | printing two groups of rows is printing one after the other |
| PTable.HeaderOnce | calculate/ptable.py:70-72 | with a header the separator appears once, right after the first row's lines; without one, never |
| PTable.SingleLine | calculate/ptable.py:36-41 | under the default wrapfunc a row of one-line items is one physical row (also line 20) |
| DorlingCartogram.Reset | calculate/dorling_cartogram.py:105-106 | the reset gives n fresh slots and end_pointer 1, a valid table |
| DorlingCartogram.Inserted | calculate/dorling_cartogram.py:177-206 | add_point either raises KeyError or leaves a valid table of the same size whose end_pointer went up by at most one |
| DorlingCartogram.Stored | calculate/dorling_cartogram.py:178-183 | the empty slot gets the object with no links, and every other slot is kept |
| DorlingCartogram.Linked | calculate/dorling_cartogram.py:187-189 | end_pointer goes up by one and the chosen absent link of the node is set to it; nothing else changes (also lines 192-194) |
| DorlingCartogram.FoundStep | calculate/dorling_cartogram.py:211-226 | at a stored node get_point reports the right search, then the left search, then the node itself when it is in the window |
| DorlingCartogram.Scan | calculate/dorling_cartogram.py:221-226 | the unpruned reference walk reports only stored objects in the window |
| DorlingCartogram.ResetOrdered | calculate/dorling_cartogram.py:105-106 | a fresh table is in search-tree order |
| DorlingCartogram.InsertOrdered | calculate/dorling_cartogram.py:177-206 | add_point keeps the tree in search-tree order |
| DorlingCartogram.ChildRegion | calculate/dorling_cartogram.py:185-206 | the point goes down the side of the node whose half of the region holds it |
| DorlingCartogram.StoreOrdered | calculate/dorling_cartogram.py:178-183 | storing into an empty slot whose region holds the point keeps the order |
| DorlingCartogram.LinkOrdered | calculate/dorling_cartogram.py:187-189 | a new link keeps the order, its slot getting the half of the node's region (also lines 192-194) |
| DorlingCartogram.NoneInWindow | calculate/dorling_cartogram.py:211-220 | a subtree whose region misses the window has nothing to report |
| DorlingCartogram.FoundScan | calculate/dorling_cartogram.py:208-226 | on an ordered tree get_point's pruning loses nothing: it reports exactly what the unpruned walk does, in the same order |
| DorlingCartogram.InsertedFrame | calculate/dorling_cartogram.py:177-206 | add_point fills one empty slot with the object; either nothing else changes, or end_pointer went up by one and exactly one absent link now leads to it |
| DorlingCartogram.InsertedStep | calculate/dorling_cartogram.py:178-206 | one step of add_point: store, follow an existing link on the chosen side, or create it |
| DorlingCartogram.InsertedFollow | calculate/dorling_cartogram.py:190 | with a link on the chosen side add_point goes on down it with the other axis (also line 195) |
| DorlingCartogram.InsertedLink | calculate/dorling_cartogram.py:187-190 | with no link on the chosen side add_point links the next slot and goes into it, or raises KeyError when the table has no such slot |
| DorlingCartogram.InsertedOk | calculate/dorling_cartogram.py:177-206 | while the table has room for one more slot, add_point cannot fail |
| DorlingCartogram.Built | calculate/dorling_cartogram.py:104-107 | the rebuild over the first k objects raises only KeyError and otherwise gives a valid table of n slots |
| DorlingCartogram.BuiltOk | calculate/dorling_cartogram.py:104-107 | with two objects or more the rebuild succeeds; object 0 is overwritten in the root by object 1, and after that no node holds id 0 |
| DorlingCartogram.BuiltTwo | calculate/dorling_cartogram.py:178-179 | objects 0 and 1 both land in the root, the second overwriting the first: the table is the fresh one with object 1 stored in slot 1 |
| DorlingCartogram.InsertNonZero | calculate/dorling_cartogram.py:177-206 | a non-zero id inserted from the root with room to spare succeeds and stores no id 0 |
| DorlingCartogram.ObjectZeroLost | calculate/dorling_cartogram.py:178-179 | with two objects or more object 0 has no node in the rebuilt table, its id being the empty-slot mark (also line 35) |
| DorlingCartogram.BuiltNumbered | calculate/dorling_cartogram.py:104-107 | the rebuild with objects numbered from 1 and one slot more either raises or gives a valid table of n + 1 slots |
| DorlingCartogram.BuiltNumberedHolds | calculate/dorling_cartogram.py:104-107 | numbered from 1 the rebuild always succeeds, no node holds id 0, every object has a node under its id at its own centroid, and every node is reachable from the root |
| DorlingCartogram.NumberedStep | calculate/dorling_cartogram.py:107 | one insertion of the numbered rebuild keeps all of that, reachability included |
| DorlingCartogram.InsertHolds | calculate/dorling_cartogram.py:177-206 | a non-zero id inserted from the root, with the root empty or room for one more slot, succeeds, is stored with its centroid, and every other node keeps its id and centroid |
| DorlingCartogram.HoldsKept | calculate/dorling_cartogram.py:178-195 | an insertion changing the table only as InsertedFrame says keeps every node with a non-zero id |
| DorlingCartogram.BuiltSingle | calculate/dorling_cartogram.py:106-107 | with one object the root slot 1 is missing from the table: KeyError (also line 178) |
| DorlingCartogram.BuiltOrdered | calculate/dorling_cartogram.py:104-107 | the rebuilt tree is in search-tree order |
| DorlingCartogram.QueryComplete | calculate/dorling_cartogram.py:208-226 | on the rebuilt tree the query from the root reports exactly what the unpruned walk finds, never object 0, and each report is in the window; every object from 1 on whose centroid is in the window is reported (also lines 109-112) |
| DorlingCartogram.BuiltTracked | calculate/dorling_cartogram.py:104-107 | the rebuild as written succeeds, every object from 1 on has a node under its id at its own centroid, and every node is reachable from the root |
| DorlingCartogram.WrittenStep | calculate/dorling_cartogram.py:107 | one insertion of the rebuild as written, from object 2 on, keeps all of that |
| DorlingCartogram.InsertRooted | calculate/dorling_cartogram.py:185-206 | an insertion keeps every node reachable: each node past the root has a parent slot, earlier in the table, that links to it |
| DorlingCartogram.ScanReaches | calculate/dorling_cartogram.py:208-226 | whatever the unpruned walk finds below a reachable node, it also finds from the root |
| DorlingCartogram.HeldFound | calculate/dorling_cartogram.py:208-226 | in a tree with ordered regions and every node reachable, an object stored at a centroid in the window is reported by the query from the root |
| DorlingCartogram.BuiltNumberedOrdered | calculate/dorling_cartogram.py:104-107 | the numbered rebuild keeps every node inside the region its path from the root allows |
| DorlingCartogram.NumberedQueryComplete | calculate/dorling_cartogram.py:208-226 | numbered from 1, the query reports an object exactly when it is in the window: every object whose centroid is in the window is reported, and each report is in the window (also lines 109-112) |
| DorlingCartogram.Found | calculate/dorling_cartogram.py:208-226 | definition of the ids get_point appends: right link, left link, then the node itself, each under the code's guard; FoundScan, QueryComplete and Cartogram.GetPoint state its properties |
| DorlingCartogram.Valid | calculate/dorling_cartogram.py:177-206 | definition of the invariant add_point keeps: links lead only forward to allocated slots, and the slots past end_pointer are still empty; Reset, Inserted and the class methods keep it |
| DorlingCartogram.RecordedEntries | calculate/dorling_cartogram.py:225-226 | writing ids from a position on sets exactly those entries and keeps every other one |
| DorlingCartogram.RecordedSnoc | calculate/dorling_cartogram.py:225-226 | writing one more id at the next position extends the record |
| DorlingCartogram.RecordedAppend | calculate/dorling_cartogram.py:213-226 | writing one run of ids and then another from where it stopped is writing both |
| DorlingCartogram.BuiltFails | calculate/dorling_cartogram.py:107 | an exception leaves the rebuild loop |
| DorlingCartogram.Cartogram.constructor | calculate/dorling_cartogram.py:53-59 | an empty tree, end_pointer 1, an empty mylist and the centroids (also lines 45-46) |
| DorlingCartogram.Cartogram.AddPoint | calculate/dorling_cartogram.py:177-206 | succeeds exactly when Inserted does, then leaving the table Inserted gives; else KeyError; mylist, the count and the centroids are unchanged |
| DorlingCartogram.Cartogram.GetPoint | calculate/dorling_cartogram.py:208-226 | the tree is unchanged, the ids Found gives are written to mylist from the count on, and the count grows by their number |
| DorlingCartogram.Cartogram.SearchRight | calculate/dorling_cartogram.py:212-213 | the right-link call writes what Right gives and counts it (also lines 217-218) |
| DorlingCartogram.Cartogram.SearchLeft | calculate/dorling_cartogram.py:214-215 | the left-link call writes what Left gives and counts it (also lines 219-220) |
| DorlingCartogram.Cartogram.RecordSelf | calculate/dorling_cartogram.py:221-226 | the node's own id is written and counted exactly when it is in the window |
| DorlingCartogram.Cartogram.Rebuild | calculate/dorling_cartogram.py:104-107 | succeeds exactly when Built does, leaving its table; mylist, the count and the centroids are unchanged |
| DorlingCartogram.Cartogram.Query | calculate/dorling_cartogram.py:109-112 | the count restarts at 0 and ends at the number of ids found, which are written from position 0 on |
| Python.ListOf | calculate/ordinal_rank.py:23-26 | list() gives the items of an iterable and raises TypeError exactly for one that cannot be iterated |
| Python.ToFloat | calculate/elfi.py:25 | float() of a number is its value; of a string it succeeds exactly when the string, stripped of surrounding whitespace, is an optionally signed decimal literal with an optional exponent; it raises ValueError for a bad string and TypeError for anything else (also calculate/per_capita.py:24) |
| Python.StripShape | calculate/elfi.py:25 | the whitespace float() skips is cut from both ends only: what is left is a slice of the string that neither starts nor ends with whitespace, and everything cut is whitespace |
| Python.StripPadded | calculate/elfi.py:25 | one more whitespace character at either end leaves the stripped text unchanged |
| Python.ParsePadded | calculate/elfi.py:25 | float() of a string with whitespace added at either end is float() of the string |
| Python.ExponentForm | calculate/elfi.py:25 | digits, 'e' or 'E', and digits n: float() gives the digits' number times 10**n |
| Python.NegativeExponentForm | calculate/elfi.py:25 | digits, 'e' or 'E', '-' and digits n: float() gives the digits' number over 10**n |
| Python.BareMark | calculate/elfi.py:25 | digits followed by an exponent mark and nothing else are refused |
| Python.MapFloat | calculate/elfi.py:25 | map(float, xs) succeeds exactly when every element converts, giving each element's value in place, and otherwise raises the error of an element that fails; MapFloatFirstError says which (also calculate/at_percentile.py:48) |
| Python.MapFloatFirstError | calculate/elfi.py:25 | the error map(float, xs) raises is that of the first element float() refuses: every element before it converts (also calculate/at_percentile.py:48) |
| Python.FloatList | calculate/elfi.py:25 | list(map(float, data)) raises TypeError for a non-iterable and is map(float, ...) of the items otherwise (also calculate/at_percentile.py:48) |
| Python.FloatOfIntString | calculate/benfords_law.py:105 | float(str(i)) == i for every int |
| Python.IntString | calculate/benfords_law.py:105 | definition of str() of an int: its decimal digits after a '-' when negative; FloatOfIntString and BenfordsLaw.DigitsOfInt state its properties |
| Python.Trunc | calculate/decile.py:37 | int() of a float truncates toward zero: the floor for non-negatives, within one above for negatives (also calculate/at_percentile.py:62) |
| Python.Py2Div | calculate.py:110 | Python 2's `/`: a TypeError for non-numbers, ZeroDivisionError for a zero divisor, floor division on two ints and true division otherwise |
| Python.Sub | calculate.py:116 | `-` on numbers subtracts their values and stays an int on two ints; anything else is a TypeError |
| Python.PyIndex | calculate/at_percentile.py:66 | s[k] with negative indexing: succeeds exactly for −len ≤ k < len, counting negatives from the end, else IndexError (also calculate/benfords_law.py:108) |
| Python.MapFloatAppend | calculate/elfi.py:25 | converting a + b succeeds exactly when both convert, giving the two conversions one after the other |
| Python.MapFloatPermutation | calculate/elfi.py:25 | converting a rearranged list gives the same values rearranged |

Where the doc strings and the code disagree, the model follows the code:

- The doc string of `percentage_change` gives 200.0 for (2, 10), but the code
  computes 400.0 (`PercentageChange.TestPercentageChange`).
- `calculate/decile.py` accepts a tuple as well as a list, `calculate.py` only
  a list (`Calculate.DecileListsOnly`).
- `calculate/elfi.py` has no sum-to-one check, unlike `calculate.py` and
  `get_elfi.py` (`Calculate.ElfiSumCheck`).
- `get_ordinal_rank.py` has no QuerySet check. Its body is the same as
  `calculate/ordinal_rank.py` without the re-raised message, so
  `OrdinalRank.OrdinalRank` models both.
- `calculate.py`'s `per_capita`, `per_sqmi`, `percent_change` and `percentage`
  are the same code as the root `get_*.py` files, so one member models each pair.

## Left out

- Floating point: Python floats are exact reals, so every rounded result in the tests (0.64500000000000002, 10.714285714285714) is stated as its exact value.
- Python.ToFloat: the spellings "inf", "infinity" and "nan" (in any case, optionally signed), which Python's float() accepts, are refused with ValueError here, because `real` has no infinities and no NaN; a decimal literal with an exponent is read exactly, without rounding to the nearest double.
- AtPercentile.Remainder: takes the exact fractional part of i where the code takes `str(i - int(i))[1:]`. Negative zero and the digits `str()` prints are not modelled. Two effects of that printing are therefore missing. First, Python 2 prints a fraction below 1e-4 in exponent form (`str(5e-05)` is `'5e-05'`), so the remainder is `'e-05'` and `float(remainder)` at calculate/at_percentile.py:72 raises ValueError under 'fraction'; `at_percentile([1, 2], 0.005)` raises where the model interpolates. Second, `str()` keeps 12 significant digits, so a fraction within about 5e-13 of 1 prints as `'1.0'`, its remainder is `'.0'`, and the code takes the whole-index branch at line 65 and returns `data_list[int(i)]`.
- Percentile.Percentile: numpy's array masking is replaced by counts over the sequence. The NaN that 'rank' gives on an empty array is a separate result value.
- Calculate.Decile: scipy's `percentileofscore` is replaced by the percentile model of `calculate/percentile.py`.
- CompetitionRank.CompetitionRank: the value `order_by` picks out of each object is a total function `key` to numbers. The accessor that calculate/competition_rank.py:40-45 chooses from the first element is not modelled. For a dict, `dict.get` gives None when the key is missing, and Python 2 orders None below every number. For any other object, `getattr` raises AttributeError when the attribute is missing. A non-dict in a list that starts with a dict raises AttributeError at `.get`. Values that are not numbers compare under Python 2's mixed-type ordering, which is not modelled either.
- Age.Age: `date.today()` is the parameter `today`.
- Dates and datetimes carry no time zone. A datetime's time of day is kept only in order to be dropped by `.date()`.
- DateRange.DateRange: when either argument is not a date or datetime, the model raises TypeError at the call. The code agrees only when one argument is a date, whose comparison with a non-date raises TypeError at calculate/date_range.py:44. Two non-dates compare under Python 2's ordering instead: when the start is above the end (`date_range(5, 3)`) the call raises ValueError at lines 44-45; otherwise (`date_range(3, 5)`) it returns the generator, which yields the start and then raises TypeError at line 38, where a timedelta is added. The model does not capture that deferred error or that ValueError.
- BenfordsLaw.BenfordsLaw: the `log10` table of lines 118-120 takes `math.log10` as a parameter, because there is no real logarithm. The `pearson` call at line 149 is not modelled, because it needs a square root: the model stops at what pearson is given. The verbose printing of lines 154-171 is I/O.
- BenfordsLaw.Analyzed: the input is the list of texts `str()` gives for each number. `str()` of floats is not modelled; `str()` of ints is (`Python.IntString`).
- TextWrap.Erased: `re` is modelled only for the two patterns the code builds: `\S{width,}` for a positive width, and for a negative width `\S` followed by the literal text `{-3,}` (for width -3), because the parser reads a brace not followed by a count as a literal. No other regular expression is modelled.
- TextWrap.IsSpace: `\S` is read as the ASCII whitespace characters only, and `str.lower` in PTable.Lower as ASCII lower-casing. Unicode is not modelled.
- PTable.Indented: table items are strings and `wrapfunc` is a total function on strings. Items that are not strings and a wrapfunc that raises are not modelled.
- PTable.PhysicalRows: follows Python 2's `map`, which pads short lists with None. Python 3's `map` truncates instead, and that is not modelled.
- PTable.Indented: with `separateRows=True` the code reaches `print >> output`, which is a TypeError under `print_function`. That error is the whole model of the option.
- Dorling cartogram: `make`'s neighbour discovery, scale, radii, forces and position updates (calculate/dorling_cartogram.py:61-103 and 113-175) are not modelled. They are GEOS geometry, `math.sqrt` and float iteration.
- Dorling cartogram: the centroid tables are given reals (`xValues`, `yValues`). The attraction loop that skips neighbour 0 (line 136) is part of the force code and is not modelled either.
- Dorling cartogram: the loop over iterations (line 104) is not modelled. `Cartogram.Rebuild` and `Cartogram.Query` are one iteration's tree reset, insertions and neighbour query.
- DorlingCartogram.Cartogram.AddPoint: on KeyError only the error is stated, not the state left behind. The code has already raised end_pointer and written the new link when the next lookup fails; the exception then leaves `make`.
- DorlingCartogram.Cartogram.constructor: line 56 assigns a misspelt attribute (`neigbors_within_distance`), so the real count first exists at line 110, where `make` sets it. The model starts the count at 0; `Query` sets it before any use.
- numpy, scipy, Django QuerySets and model objects are replaced by sequences. `Arg` says whether an argument is a list, a tuple, a QuerySet, an iterator or not iterable. An iterator can be read once, which matters only in `pareto`, the one helper that reads its argument more than once. Re-iterable containers other than lists, tuples and QuerySets (sets, dicts) are not modelled.
- The test calls with `fail_silently=` (calculate/tests.py:342-364) and the four-argument `ordinal_rank` calls (calculate/tests.py:272-313) are not modelled. The code shown has neither signature.
- `mode`, `range`, `pearson`, the standard deviation functions, `mean_center`, `nudge_points`, `random_point`, `summary_stats` and `prorate` are not part of this model. They need square roots, trigonometry, randomness or GEOS, or cannot run.

## Findings

| source | as written | input that shows it | evidently intended | confidence | as-written member | corrected member |
|---|---|---|---|---|---|---|
| calculate/date_range.py:35-41 | the generator steps past the end date before it compares, so the step after the last representable date overflows | `list(date_range(date(9999, 12, 30), date(9999, 12, 31)))` yields both days, then raises OverflowError instead of returning them | the inclusive run of days from start to end, ending at `date.max` when that is the end | not executed | DateRange.YieldedDays | DateRange.DaysShape |
| calculate/benfords_law.py:147-149 | pearson gets the expected percentages and the list of table digits, so the correlation never depends on the data | `benfords_law([1, 1, 1])` and `benfords_law([1, 2, 3, 4, 5, 6, 7, 8, 9])` hand pearson the same two lists | the expected percentages against the actual ones, as the comment before the call says | not executed | BenfordsLaw.PearsonIgnoresCounts | BenfordsLaw.ComparedSeesCounts |
| calculate/dorling_cartogram.py:178-179 | objects are numbered from 0 (line 35), and 0 also marks an empty slot, so the next object overwrites object 0 in the root | with two objects, rebuilding the tree leaves object 0 in no node, and get_point never reports it as a neighbour | ids that cannot be the empty mark: numbered from 1, with one slot more in the table | not executed | DorlingCartogram.ObjectZeroLost | DorlingCartogram.NumberedQueryComplete |
