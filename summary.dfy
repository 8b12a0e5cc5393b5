// The statistics summary: every analyser run over the same draw history.

module Summary {
  import opened Wrappers
  import opened Seqs
  import opened Counting
  import opened Draws
  import opened Frequency
  import opened Distribution
  import opened Gaps

  /** The number of hot and of cold numbers the summary lists
      (`getHotColdNumbers`' default `count`). */
  const HotColdCount: int := 10

  datatype StatisticsSummary = StatisticsSummary(
    totalDraws: nat,
    frequency: map<int, nat>,
    hotCold: HotCold,
    evenOdd: map<(int, int), nat>,
    lowHigh: map<(int, int), nat>,
    gaps: map<int, GapStat>,
    consecutive: map<int, JsCount>,
    sums: SumAnalysis,
    decades: seq<nat>,
    decadeTotal: nat)

  /** Some usable draw holds a number outside 1..60. */
  predicate OutOfRange(draws: seq<Draw>)
  {
    exists d :: d in draws && d.numbers.Some? && exists x :: x in d.numbers.value && !InDomain(x)
  }

  /** Some visit in vs is of a number outside 1..60. */
  predicate MeetsOutOfRange(vs: seq<Visit>)
  {
    exists v :: v in vs && !InDomain(v.num)
  }

  lemma MeetsAppend(a: seq<Visit>, b: seq<Visit>)
    ensures MeetsOutOfRange(a + b) <==> MeetsOutOfRange(a) || MeetsOutOfRange(b)
  {
    if MeetsOutOfRange(a) {
      var v :| v in a && !InDomain(v.num);
      assert v in a + b;
    }
    if MeetsOutOfRange(b) {
      var v :| v in b && !InDomain(v.num);
      assert v in a + b;
    }
  }

  /** The visits of one draw meet an out-of-range number exactly when the
      draw holds one. */
  lemma MeetsTag(i: nat, nums: seq<int>)
    ensures MeetsOutOfRange(Tag(i, nums)) <==> exists x :: x in nums && !InDomain(x)
  {
    if MeetsOutOfRange(Tag(i, nums)) {
      var v :| v in Tag(i, nums) && !InDomain(v.num);
      var k :| 0 <= k < |nums| && Tag(i, nums)[k] == v;
      assert nums[k] in nums;
    }
    if exists x :: x in nums && !InDomain(x) {
      var x :| x in nums && !InDomain(x);
      var k :| 0 <= k < |nums| && nums[k] == x;
      assert Tag(i, nums)[k] in Tag(i, nums);
    }
  }

  lemma OutOfRangeSnoc(init: seq<Draw>, last: Draw)
    ensures OutOfRange(init + [last])
        <==> OutOfRange(init) || (last.numbers.Some? && exists x :: x in last.numbers.value && !InDomain(x))
  {
    if OutOfRange(init + [last]) {
      var d :| d in init + [last] && d.numbers.Some? && exists x :: x in d.numbers.value && !InDomain(x);
      if d != last {
        assert d in init;
      }
    }
    if OutOfRange(init) {
      var d :| d in init && d.numbers.Some? && exists x :: x in d.numbers.value && !InDomain(x);
      assert d in init + [last];
    }
    assert last in init + [last];
  }

  /** The gap walk meets a number outside 1..60 exactly when some usable
      draw holds one, whatever order the draws are walked in. */
  lemma {:induction false} WalkMeetsOutOfRange(draws: seq<Draw>)
    ensures MeetsOutOfRange(Visits(draws)) <==> OutOfRange(draws)
  {
    if draws != [] {
      var init := draws[..|draws| - 1];
      var last := draws[|draws| - 1];
      var tail := if last.numbers.Some? then Tag(|draws| - 1, last.numbers.value) else [];
      WalkMeetsOutOfRange(init);
      assert Visits(draws) == Visits(init) + tail;
      MeetsAppend(Visits(init), tail);
      if last.numbers.Some? {
        MeetsTag(|draws| - 1, last.numbers.value);
      } else {
        assert !MeetsOutOfRange(tail);
      }
      assert draws == init + [last];
      OutOfRangeSnoc(init, last);
    }
  }

  /** Walking the draws in date order throws exactly when walking them in
      the order given does. */
  lemma OutOfRangeIgnoresOrder(draws: seq<Draw>, byDate: seq<Draw>)
    requires multiset(byDate) == multiset(draws)
    ensures MeetsOutOfRange(Visits(byDate)) <==> OutOfRange(draws)
  {
    WalkMeetsOutOfRange(byDate);
    forall d ensures d in byDate <==> d in draws {
      assert d in byDate <==> d in multiset(byDate);
      assert d in draws <==> d in multiset(draws);
    }
  }

  /** `getStatisticsSummary(draws)`. The gap analysis runs with its default
      `sortedByDate = true`, so it walks the draws in date order; parsing
      dates is not modelled and `byDate` is that order, given as a
      rearrangement of `draws`. A usable draw holding a number outside
      1..60 makes the gap analysis throw, and then the summary throws too
      (None). */
  method GetStatisticsSummary(draws: seq<Draw>, byDate: seq<Draw>) returns (r: Option<StatisticsSummary>)
    requires multiset(byDate) == multiset(draws)
    ensures r.None? <==> OutOfRange(draws)
    ensures r.Some? ==>
              && r.value.totalDraws == |draws|
              && r.value.frequency == FrequencyTable(draws)
              && r.value.hotCold == GetHotColdNumbers(FrequencyTable(draws), HotColdCount)
              && r.value.gaps == GapStats(byDate)
              && (forall k :: k in r.value.evenOdd <==> k in KeysOf(draws, EvenOddKey))
              && (forall k :: k in r.value.evenOdd ==> k.0 + k.1 == 6 && r.value.evenOdd[k] == Count(KeysOf(draws, EvenOddKey), k))
              && (forall k :: k in r.value.lowHigh <==> k in KeysOf(draws, LowHighKey))
              && (forall k :: k in r.value.lowHigh ==> k.0 + k.1 == 6 && r.value.lowHigh[k] == Count(KeysOf(draws, LowHighKey), k))
              && MapSum(r.value.evenOdd) == MapSum(r.value.lowHigh) == |ValidNumbers(draws)|
              && PatternsHold(r.value.consecutive, KeysOf(draws, ConsecutiveKey))
              && |r.value.decades| == 6 && r.value.decadeTotal == |AllNumbers(draws)|
              && (forall b :: 0 <= b < 6 ==> r.value.decades[b] == Count(DecadeIndexes(AllNumbers(draws)), b))
              && SixSum(r.value.decades) == r.value.decadeTotal
              && (|ValidNumbers(draws)| == 0 ==> r.value.sums == SumAnalysis(0, 0, Ratio(0, 1), map[], None))
              && (|ValidNumbers(draws)| > 0 ==>
                    && r.value.sums.sums == Some(DrawSums(draws))
                    && r.value.sums.min in DrawSums(draws) && r.value.sums.max in DrawSums(draws)
                    && (forall s :: s in DrawSums(draws) ==> r.value.sums.min <= s <= r.value.sums.max)
                    && r.value.sums.avg == Ratio(Sum(DrawSums(draws)), |ValidNumbers(draws)|)
                    && |DrawSums(draws)| == |ValidNumbers(draws)|
                    && IsHistogram(r.value.sums.distribution, DrawSums(draws), 30))
  {
    var frequency := CalculateNumberFrequency(draws);
    var hotCold := GetHotColdNumbers(frequency, HotColdCount);
    var evenOdd := AnalyzeEvenOddDistribution(draws);
    var lowHigh := AnalyzeLowHighDistribution(draws);
    var gaps := CalculateGapAnalysis(byDate);
    OutOfRangeIgnoresOrder(draws, byDate);
    if gaps.None? {
      return None;
    }
    var consecutive := AnalyzeConsecutivePatterns(draws);
    var sums := AnalyzeSumDistribution(draws);
    var decades, total := AnalyzeDecadeDistribution(draws);
    r := Some(StatisticsSummary(|draws|, frequency, hotCold, evenOdd, lowHigh, gaps.value, consecutive, sums, decades, total));
  }
}
