/** Frequency analysis: how often each number 1..60 was drawn, and the
    hot and cold numbers ranked from that table. */
module Frequency {
  import opened Wrappers
  import opened Seqs
  import opened Counting
  import opened Sorting
  import opened Draws

  /** The frequency table the analysis promises: every key 1..60, each
      counting its occurrences in the usable draws. */
  function FrequencyTable(draws: seq<Draw>): map<int, nat>
  {
    map n: int | Lowest <= n <= Highest :: Count(AllNumbers(draws), n)
  }

  /** `calculateNumberFrequency`: start all 60 counters at 0, then count every
      in-range entry of every draw whose `numbers` is an array. */
  method CalculateNumberFrequency(draws: seq<Draw>) returns (frequency: map<int, nat>)
    ensures HasDomainKeys(frequency)
    ensures forall n :: n in frequency ==> frequency[n] == Count(AllNumbers(draws), n)
    ensures frequency == FrequencyTable(draws)
  {
    frequency := map[];
    var i := 1;
    while i <= 60
      invariant 1 <= i <= 61
      invariant forall n :: n in frequency <==> 1 <= n < i
      invariant forall n :: n in frequency ==> frequency[n] == 0
    {
      frequency := frequency[i := 0];
      i := i + 1;
    }
    assert AllNumbers(draws[..0]) == [];
    var d := 0;
    while d < |draws|
      invariant 0 <= d <= |draws|
      invariant HasDomainKeys(frequency)
      invariant forall n :: n in frequency ==> frequency[n] == Count(AllNumbers(draws[..d]), n)
    {
      assert draws[..d + 1][..d] == draws[..d];
      if draws[d].numbers.Some? {
        var nums := draws[d].numbers.value;
        var seen := AllNumbers(draws[..d]);
        var j := 0;
        assert seen + nums[..0] == seen;
        while j < |nums|
          invariant 0 <= j <= |nums|
          invariant HasDomainKeys(frequency)
          invariant forall n :: n in frequency ==> frequency[n] == Count(seen + nums[..j], n)
        {
          var num := nums[j];
          assert (seen + nums[..j + 1])[..|seen + nums[..j + 1]| - 1] == seen + nums[..j];
          if 1 <= num && num <= 60 {
            frequency := frequency[num := frequency[num] + 1];
          }
          j := j + 1;
        }
        assert nums[..j] == nums;
        assert AllNumbers(draws[..d + 1]) == seen + nums;
      } else {
        assert AllNumbers(draws[..d + 1]) == AllNumbers(draws[..d]);
      }
      d := d + 1;
    }
    assert draws[..d] == draws;
  }

  /** Sum of table[n] for n in 1..hi. */
  function TableSum(table: map<int, nat>, hi: int): nat
    requires forall n :: 1 <= n <= hi ==> n in table
    decreases hi
  {
    if hi < 1 then 0 else TableSum(table, hi - 1) + table[hi]
  }

  lemma {:induction false} TableSumIsSumOfCounts(draws: seq<Draw>, hi: int)
    requires hi <= Highest
    ensures TableSum(FrequencyTable(draws), hi) == SumOfCounts(AllNumbers(draws), 1, hi)
    decreases hi
  {
    if hi >= 1 {
      TableSumIsSumOfCounts(draws, hi - 1);
    }
  }

  /** The counts of the table add up to the number of in-range entries, so to
      6 per usable draw when every usable draw holds six numbers in 1..60. */
  lemma FrequencyTotal(draws: seq<Draw>)
    ensures TableSum(FrequencyTable(draws), Highest) == CountInRange(AllNumbers(draws), Lowest, Highest)
    ensures (forall ns :: ns in ValidNumbers(draws) ==> |ns| == 6 && forall x :: x in ns ==> InDomain(x))
            ==> TableSum(FrequencyTable(draws), Highest) == 6 * |ValidNumbers(draws)|
  {
    TableSumIsSumOfCounts(draws, Highest);
    SumOfCountsIsCountInRange(AllNumbers(draws), Lowest, Highest);
    if forall ns :: ns in ValidNumbers(draws) ==> |ns| == 6 && forall x :: x in ns ==> InDomain(x) {
      SixPerDraw(draws);
    }
  }

  lemma {:induction false} SixPerDraw(draws: seq<Draw>)
    requires forall ns :: ns in ValidNumbers(draws) ==> |ns| == 6 && forall x :: x in ns ==> InDomain(x)
    ensures CountInRange(AllNumbers(draws), Lowest, Highest) == 6 * |ValidNumbers(draws)|
  {
    if draws != [] {
      var p := draws[..|draws| - 1];
      var last := draws[|draws| - 1];
      assert forall ns :: ns in ValidNumbers(p) ==> ns in ValidNumbers(draws);
      SixPerDraw(p);
      if last.numbers.Some? {
        assert last.numbers.value in ValidNumbers(draws);
        CountInRangeAppend(AllNumbers(p), last.numbers.value, Lowest, Highest);
        CountInRangeBound(last.numbers.value, Lowest, Highest);
      } else {
        assert AllNumbers(draws) == AllNumbers(p);
      }
    }
  }

  /** One `{ number, frequency }` entry of the ranking. */
  datatype NumberFrequency = NumberFrequency(number: int, frequency: int)

  /** `Object.entries(frequency)`: integer keys come out in ascending order. */
  function Entries(frequency: map<int, nat>): (es: seq<NumberFrequency>)
    requires HasDomainKeys(frequency)
  {
    seq(60, k requires 0 <= k < 60 => NumberFrequency(k + 1, frequency[k + 1]))
  }

  /** The comparator `(a, b) => b.frequency - a.frequency`: a goes first when it is more frequent. */
  function MoreFrequent(a: NumberFrequency, b: NumberFrequency): bool
  {
    a.frequency > b.frequency
  }

  function NumberOf(e: NumberFrequency): int
  {
    e.number
  }

  /** The sorted entries: most frequent first. */
  function Ranking(frequency: map<int, nat>): seq<NumberFrequency>
    requires HasDomainKeys(frequency)
  {
    SortBy(Entries(frequency), MoreFrequent)
  }

  datatype HotCold = HotCold(hot: seq<NumberFrequency>, cold: seq<NumberFrequency>)

  /** `getHotColdNumbers`: the first `count` ranked entries, and the last `count`
      reversed (with `slice(-0)`, a count of 0 takes all sixty as cold). */
  function GetHotColdNumbers(frequency: map<int, nat>, count: int): HotCold
    requires HasDomainKeys(frequency)
  {
    var sorted := Ranking(frequency);
    HotCold(Slice(sorted, 0, count), Reverse(SliceFrom(sorted, -count)))
  }

  lemma MoreFrequentIsStrictWeakOrder()
    ensures StrictWeakOrder(MoreFrequent)
  {
  }

  /** The ranking lists each number 1..60 once with its frequency, most frequent
      first, equal frequencies in ascending number order. */
  lemma RankingIsStableDescending(frequency: map<int, nat>)
    requires HasDomainKeys(frequency)
    ensures |Ranking(frequency)| == 60
    ensures forall k :: 0 <= k < 60 ==> InDomain(Ranking(frequency)[k].number)
    ensures forall k :: 0 <= k < 60 ==> Ranking(frequency)[k].frequency == frequency[Ranking(frequency)[k].number]
    ensures forall n :: InDomain(n) ==> exists k :: 0 <= k < 60 && Ranking(frequency)[k].number == n
    ensures forall i, j :: 0 <= i < j < 60 ==>
              var a, b := Ranking(frequency)[i], Ranking(frequency)[j];
              a.frequency > b.frequency || (a.frequency == b.frequency && a.number < b.number)
  {
    RankingMembers(frequency);
    RankingCovers(frequency);
    RankingOrder(frequency);
  }

  lemma RankingMembers(frequency: map<int, nat>)
    requires HasDomainKeys(frequency)
    ensures |Ranking(frequency)| == 60
    ensures forall k :: 0 <= k < 60 ==>
              InDomain(Ranking(frequency)[k].number) && Ranking(frequency)[k].frequency == frequency[Ranking(frequency)[k].number]
  {
    var es := Entries(frequency);
    var r := Ranking(frequency);
    forall k | 0 <= k < 60
      ensures InDomain(r[k].number) && r[k].frequency == frequency[r[k].number]
    {
      assert r[k] in multiset(es);
      var m :| 0 <= m < 60 && es[m] == r[k];
    }
  }

  lemma RankingCovers(frequency: map<int, nat>)
    requires HasDomainKeys(frequency)
    ensures forall n :: InDomain(n) ==> exists k :: 0 <= k < |Ranking(frequency)| && Ranking(frequency)[k].number == n
  {
    var es := Entries(frequency);
    var r := Ranking(frequency);
    forall n | InDomain(n) ensures exists k :: 0 <= k < |r| && r[k].number == n {
      assert es[n - 1] in multiset(r);
      var k :| 0 <= k < |r| && r[k] == es[n - 1];
    }
  }

  lemma RankingOrder(frequency: map<int, nat>)
    requires HasDomainKeys(frequency)
    ensures forall i, j :: 0 <= i < j < |Ranking(frequency)| ==>
              var a, b := Ranking(frequency)[i], Ranking(frequency)[j];
              a.frequency > b.frequency || (a.frequency == b.frequency && a.number < b.number)
  {
    MoreFrequentIsStrictWeakOrder();
    SortByRanked(Entries(frequency), MoreFrequent, NumberOf);
  }

  /** r lists each number 1..60 once with its frequency, most frequent first,
      equal frequencies in ascending number order. */
  ghost predicate RankedTable(r: seq<NumberFrequency>, frequency: map<int, nat>)
    requires HasDomainKeys(frequency)
  {
    && |r| == 60
    && (forall k :: 0 <= k < 60 ==> InDomain(r[k].number) && r[k].frequency == frequency[r[k].number])
    && (forall n :: InDomain(n) ==> exists k :: 0 <= k < 60 && r[k].number == n)
    && (forall i, j :: 0 <= i < j < 60 ==>
          r[i].frequency > r[j].frequency || (r[i].frequency == r[j].frequency && r[i].number < r[j].number))
  }

  /** The head of a ranking: non-increasing, and no number left out is more
      frequent than one taken. */
  lemma HeadMostFrequent(r: seq<NumberFrequency>, frequency: map<int, nat>, hot: seq<NumberFrequency>)
    requires HasDomainKeys(frequency) && RankedTable(r, frequency)
    requires |hot| <= 60 && forall k :: 0 <= k < |hot| ==> hot[k] == r[k]
    ensures forall i, j :: 0 <= i < j < |hot| ==> hot[i].frequency >= hot[j].frequency
    ensures forall i, n :: 0 <= i < |hot| && InDomain(n) && (forall e :: e in hot ==> e.number != n)
              ==> frequency[n] <= hot[i].frequency
  {
    forall i, j | 0 <= i < j < |hot| ensures hot[i].frequency >= hot[j].frequency {
      assert hot[i] == r[i] && hot[j] == r[j];
    }
    forall i, n | 0 <= i < |hot| && InDomain(n) && (forall e :: e in hot ==> e.number != n)
      ensures frequency[n] <= hot[i].frequency
    {
      HeadLeftOut(r, frequency, hot, n);
      assert hot[i] == r[i];
    }
  }

  /** A number missing from the head is missing from the first |hot| entries
      of the ranking. */
  lemma HeadLeftOut(r: seq<NumberFrequency>, frequency: map<int, nat>, hot: seq<NumberFrequency>, n: int)
    requires HasDomainKeys(frequency) && RankedTable(r, frequency)
    requires |hot| <= 60 && forall k :: 0 <= k < |hot| ==> hot[k] == r[k]
    requires InDomain(n) && forall e :: e in hot ==> e.number != n
    ensures forall i :: 0 <= i < |hot| ==> frequency[n] <= r[i].frequency
  {
    forall t | 0 <= t < |hot| ensures r[t].number != n {
      assert hot[t] == r[t];
      assert r[t] in hot;
    }
    OutsideHead(r, frequency, |hot|, n);
  }

  /** A number missing from the first m entries of a ranking is no more
      frequent than any of them. */
  lemma OutsideHead(r: seq<NumberFrequency>, frequency: map<int, nat>, m: nat, n: int)
    requires HasDomainKeys(frequency) && RankedTable(r, frequency)
    requires m <= 60 && InDomain(n) && forall t :: 0 <= t < m ==> r[t].number != n
    ensures forall i :: 0 <= i < m ==> frequency[n] <= r[i].frequency
  {
    var k :| 0 <= k < 60 && r[k].number == n;
    assert m <= k;
  }

  /** The tail of a ranking, reversed: non-decreasing, and no number left out
      is less frequent than one taken. */
  lemma TailLeastFrequent(r: seq<NumberFrequency>, frequency: map<int, nat>, cold: seq<NumberFrequency>)
    requires HasDomainKeys(frequency) && RankedTable(r, frequency)
    requires |cold| <= 60 && forall k :: 0 <= k < |cold| ==> cold[k] == r[59 - k]
    ensures forall i, j :: 0 <= i < j < |cold| ==> cold[i].frequency <= cold[j].frequency
    ensures forall i, n :: 0 <= i < |cold| && InDomain(n) && (forall e :: e in cold ==> e.number != n)
              ==> cold[i].frequency <= frequency[n]
  {
    forall i, j | 0 <= i < j < |cold| ensures cold[i].frequency <= cold[j].frequency {
      assert cold[i] == r[59 - i] && cold[j] == r[59 - j];
    }
    forall i, n | 0 <= i < |cold| && InDomain(n) && (forall e :: e in cold ==> e.number != n)
      ensures cold[i].frequency <= frequency[n]
    {
      TailLeftOut(r, frequency, cold, n);
      assert cold[i] == r[59 - i];
    }
  }

  /** A number missing from the reversed tail is missing from the last
      |cold| entries of the ranking. */
  lemma TailLeftOut(r: seq<NumberFrequency>, frequency: map<int, nat>, cold: seq<NumberFrequency>, n: int)
    requires HasDomainKeys(frequency) && RankedTable(r, frequency)
    requires |cold| <= 60 && forall k :: 0 <= k < |cold| ==> cold[k] == r[59 - k]
    requires InDomain(n) && forall e :: e in cold ==> e.number != n
    ensures forall i :: 60 - |cold| <= i < 60 ==> r[i].frequency <= frequency[n]
  {
    forall t | 60 - |cold| <= t < 60 ensures r[t].number != n {
      assert cold[59 - t] == r[t];
      assert r[t] in cold;
    }
    OutsideTail(r, frequency, |cold|, n);
  }

  /** A number missing from the last m entries of a ranking is at least as
      frequent as any of them. */
  lemma OutsideTail(r: seq<NumberFrequency>, frequency: map<int, nat>, m: nat, n: int)
    requires HasDomainKeys(frequency) && RankedTable(r, frequency)
    requires m <= 60 && InDomain(n) && forall t :: 60 - m <= t < 60 ==> r[t].number != n
    ensures forall i :: 60 - m <= i < 60 ==> r[i].frequency <= frequency[n]
  {
    var k :| 0 <= k < 60 && r[k].number == n;
    assert k < 60 - m;
  }

  /** Hot and cold both hold min(count, 60) entries for a positive count;
      a count of 0 gives no hot numbers and all sixty as cold. */
  lemma HotColdSizes(frequency: map<int, nat>, count: int)
    requires HasDomainKeys(frequency)
    ensures count >= 1 ==>
              |GetHotColdNumbers(frequency, count).hot| == |GetHotColdNumbers(frequency, count).cold|
              == (if count < 60 then count else 60)
    ensures count == 0 ==>
              GetHotColdNumbers(frequency, count).hot == [] && |GetHotColdNumbers(frequency, count).cold| == 60
  {
    RankingIsStableDescending(frequency);
    ReverseLength(SliceFrom(Ranking(frequency), -count));
  }

  /** The hot numbers are the head of the ranking. */
  lemma HotIsHead(frequency: map<int, nat>, count: int)
    requires HasDomainKeys(frequency)
    requires count >= 0
    ensures GetHotColdNumbers(frequency, count).hot == Ranking(frequency)[..if count < 60 then count else 60]
  {
  }

  /** Hot frequencies are non-increasing, and no number left out is more
      frequent than one taken. */
  lemma HotAreMostFrequent(frequency: map<int, nat>, count: int)
    requires HasDomainKeys(frequency)
    requires count >= 0
    ensures var hot := GetHotColdNumbers(frequency, count).hot;
            && (forall i, j :: 0 <= i < j < |hot| ==> hot[i].frequency >= hot[j].frequency)
            && (forall i, n :: 0 <= i < |hot| && InDomain(n) && (forall e :: e in hot ==> e.number != n)
                  ==> frequency[n] <= hot[i].frequency)
  {
    RankingIsStableDescending(frequency);
    HotIsHead(frequency, count);
    HeadMostFrequent(Ranking(frequency), frequency, GetHotColdNumbers(frequency, count).hot);
  }

  /** The cold numbers are the tail of the ranking read backwards. */
  lemma ColdIsReversedTail(frequency: map<int, nat>, count: int)
    requires HasDomainKeys(frequency)
    requires count >= 1
    ensures var cold := GetHotColdNumbers(frequency, count).cold;
            && |cold| == (if count < 60 then count else 60)
            && forall k :: 0 <= k < |cold| ==> cold[k] == Ranking(frequency)[59 - k]
  {
    var r := Ranking(frequency);
    var m := if count < 60 then count else 60;
    var tail := SliceFrom(r, -count);
    assert tail == r[60 - m..];
    ReverseLength(tail);
    forall k | 0 <= k < m ensures Reverse(tail)[k] == r[59 - k] {
      ReverseAt(tail, k);
    }
  }

  /** Cold frequencies are non-decreasing, and no number left out is less
      frequent than one taken. */
  lemma ColdAreLeastFrequent(frequency: map<int, nat>, count: int)
    requires HasDomainKeys(frequency)
    requires count >= 1
    ensures var cold := GetHotColdNumbers(frequency, count).cold;
            && (forall i, j :: 0 <= i < j < |cold| ==> cold[i].frequency <= cold[j].frequency)
            && (forall i, n :: 0 <= i < |cold| && InDomain(n) && (forall e :: e in cold ==> e.number != n)
                  ==> cold[i].frequency <= frequency[n])
  {
    RankingIsStableDescending(frequency);
    ColdIsReversedTail(frequency, count);
    TailLeastFrequent(Ranking(frequency), frequency, GetHotColdNumbers(frequency, count).cold);
  }
}
