/** `generateOverdueCombination`: the overdue numbers of a gap table ranked by
    how far their current gap exceeds their average gap, topped up with
    random new numbers. */
module Overdue {
  import opened Seqs
  import opened Sorting
  import opened Draws
  import opened Picking
  import opened Gaps

  /** `currentGap / averageGap` of an overdue entry, exactly: the average is
      num / den, so the quotient is currentGap * den / num, and Infinity when
      the average gap is 0. */
  datatype OverdueRatio = Finite(value: real) | Infinity

  /** One `{ number, overdueRatio }` entry; the `toFixed(2)` string of the
      details is kept as the exact ratio. */
  datatype Detail = Detail(number: int, overdueRatio: OverdueRatio)

  /** The returned object (`method` is a Dafny keyword). */
  datatype OverdueResult = OverdueResult(numbers: seq<int>, methodName: string, details: seq<Detail>)

  /** One `[num, stats]` pair of `Object.entries(gapStats)`. */
  datatype Candidate = Candidate(number: int, stat: GapStat)

  const OverdueTag := "Gap Analysis (Overdue)"

  /** An entry as `calculateGapAnalysis` builds it: a positive denominator,
      and `isOverdue` set exactly when the current gap exceeds the average. */
  predicate Consistent(s: GapStat)
  {
    s.averageGap.den > 0 && s.isOverdue == (s.currentGap * s.averageGap.den > s.averageGap.num)
  }

  /** A gap table keyed by 1..60 with consistent entries. */
  ghost predicate StatsTable(gapStats: map<int, GapStat>)
  {
    HasDomainKeys(gapStats) && forall n :: n in gapStats ==> Consistent(gapStats[n])
  }

  /** The ratio of an entry; an overdue entry with average 0 has a positive
      current gap, so its ratio is +Infinity. */
  function RatioOf(s: GapStat): OverdueRatio
  {
    if s.averageGap.num == 0 then Infinity
    else Finite((s.currentGap * s.averageGap.den) as real / s.averageGap.num as real)
  }

  /** x > y, where Infinity - Infinity is NaN and the comparator then treats
      the two as equal. */
  predicate Exceeds(x: OverdueRatio, y: OverdueRatio)
  {
    match (x, y)
    case (Infinity, Finite(_)) => true
    case (Finite(p), Finite(q)) => p > q
    case _ => false
  }

  /** The comparator `(a, b) => ratio(b) - ratio(a)`: a goes first when its
      ratio is larger. */
  predicate MoreOverdue(a: Candidate, b: Candidate)
  {
    Exceeds(RatioOf(a.stat), RatioOf(b.stat))
  }

  function CandidateNumber(c: Candidate): int
  {
    c.number
  }

  /** The overdue entries among the keys 1..hi, in ascending key order. */
  function OverdueUpTo(gapStats: map<int, GapStat>, hi: int): (cs: seq<Candidate>)
    requires HasDomainKeys(gapStats) && hi <= Highest
    ensures forall c :: c in cs <==> Lowest <= c.number <= hi && c.stat == gapStats[c.number] && c.stat.isOverdue
    ensures forall i, j :: 0 <= i < j < |cs| ==> cs[i].number < cs[j].number
    decreases hi
  {
    if hi < Lowest then []
    else
      var p := OverdueUpTo(gapStats, hi - 1);
      assert forall k :: 0 <= k < |p| ==> p[k] in p;
      if gapStats[hi].isOverdue then p + [Candidate(hi, gapStats[hi])] else p
  }

  /** `Object.entries(gapStats).filter(...).sort(...)`. */
  function Ranking(gapStats: map<int, GapStat>): seq<Candidate>
    requires HasDomainKeys(gapStats)
  {
    SortBy(OverdueUpTo(gapStats, Highest), MoreOverdue)
  }

  function ToDetail(c: Candidate): Detail
  {
    Detail(c.number, RatioOf(c.stat))
  }

  /** `.map(([num, stats]) => ({ number, overdueRatio }))`. */
  function Details(cs: seq<Candidate>): (ds: seq<Detail>)
    ensures |ds| == |cs| && forall k :: 0 <= k < |cs| ==> ds[k] == ToDetail(cs[k])
  {
    seq(|cs|, k requires 0 <= k < |cs| => ToDetail(cs[k]))
  }

  /** `selected.map(s => s.number)`. */
  function Numbers(ds: seq<Detail>): (ns: seq<int>)
    ensures |ns| == |ds| && forall k :: 0 <= k < |ds| ==> ns[k] == ds[k].number
  {
    seq(|ds|, k requires 0 <= k < |ds| => ds[k].number)
  }

  /** `overdue.slice(0, Math.min(count, overdue.length))`. */
  function Selection(gapStats: map<int, GapStat>, count: int): seq<Detail>
    requires HasDomainKeys(gapStats)
  {
    var overdue := Details(Ranking(gapStats));
    Slice(overdue, 0, if count < |overdue| then count else |overdue|)
  }

  /** `Math.floor(Math.random() * 60) + 1`. */
  function PaddingNumber(u: real): int
    requires 0.0 <= u < 1.0
  {
    UniformIndex(u, Highest) + 1
  }

  /** The padding loop reading the stream us: a drawn number not yet selected
      is appended with ratio 0, until count entries are selected (or the
      stream ends). */
  function Pad(selected: seq<Detail>, us: seq<real>, count: int): seq<Detail>
    requires UnitReals(us)
    decreases |us|
  {
    if |selected| >= count || us == [] then selected
    else
      var num := PaddingNumber(us[0]);
      assert UnitReals(us[1..]) by {
        assert forall i :: 0 <= i < |us| - 1 ==> us[1..][i] == us[i + 1];
      }
      if num in Numbers(selected) then Pad(selected, us[1..], count)
      else Pad(selected + [Detail(num, Finite(0.0))], us[1..], count)
  }

  /** `generateOverdueCombination(gapStats, count)` when `Math.random()`
      yields the stream us. */
  function OverdueCombination(gapStats: map<int, GapStat>, count: int, us: seq<real>): OverdueResult
    requires HasDomainKeys(gapStats) && UnitReals(us)
  {
    var selected := Pad(Selection(gapStats, count), us, count);
    OverdueResult(SortAscending(Numbers(selected)), OverdueTag, Slice(selected, 0, count))
  }

  /** Every number of 1..60 is drawn somewhere in the stream: the padding
      loop then ends before the stream does. */
  ghost predicate Covers(us: seq<real>)
    requires UnitReals(us)
  {
    forall n :: InDomain(n) ==> exists i :: 0 <= i < |us| && PaddingNumber(us[i]) == n
  }

  // The ranking

  lemma MoreOverdueIsStrictWeakOrder()
    ensures StrictWeakOrder(MoreOverdue)
  {
  }

  /** The ranking holds exactly the overdue entries of 1..60. */
  lemma RankingMembers(gapStats: map<int, GapStat>)
    requires HasDomainKeys(gapStats)
    ensures forall c :: c in Ranking(gapStats) <==> InDomain(c.number) && c.stat == gapStats[c.number] && c.stat.isOverdue
  {
    var es := OverdueUpTo(gapStats, Highest);
    var r := Ranking(gapStats);
    forall c ensures c in r <==> c in es {
      assert c in r <==> c in multiset(r);
      assert c in es <==> c in multiset(es);
    }
  }

  /** Ratios never increase along the ranking, and equal ratios keep
      ascending number order. */
  lemma RankingOrder(gapStats: map<int, GapStat>)
    requires HasDomainKeys(gapStats)
    ensures var r := Ranking(gapStats);
            && (forall i, j :: 0 <= i < j < |r| ==> !Exceeds(RatioOf(r[j].stat), RatioOf(r[i].stat)))
            && (forall i, j :: 0 <= i < j < |r| ==>
                  Exceeds(RatioOf(r[i].stat), RatioOf(r[j].stat)) || r[i].number < r[j].number)
  {
    var es := OverdueUpTo(gapStats, Highest);
    MoreOverdueIsStrictWeakOrder();
    SortByRanked(es, MoreOverdue, CandidateNumber);
    SortBySorted(es, MoreOverdue);
  }

  /** The ranking holds every overdue number of 1..60 once, with its entry;
      ratios never increase along it, and equal ratios keep ascending number
      order. */
  lemma RankingFacts(gapStats: map<int, GapStat>)
    requires HasDomainKeys(gapStats)
    ensures var r := Ranking(gapStats);
            && (forall c :: c in r <==> InDomain(c.number) && c.stat == gapStats[c.number] && c.stat.isOverdue)
            && Distinct(r)
            && (forall i, j :: 0 <= i < j < |r| ==> !Exceeds(RatioOf(r[j].stat), RatioOf(r[i].stat)))
            && (forall i, j :: 0 <= i < j < |r| ==>
                  Exceeds(RatioOf(r[i].stat), RatioOf(r[j].stat)) || r[i].number < r[j].number)
  {
    RankingMembers(gapStats);
    RankingOrder(gapStats);
  }

  /** The ranked numbers are distinct numbers of 1..60. */
  lemma RankedNumbers(gapStats: map<int, GapStat>)
    requires HasDomainKeys(gapStats)
    ensures var ns := Numbers(Details(Ranking(gapStats)));
            Distinct(ns) && forall x :: x in ns ==> InDomain(x) && gapStats[x].isOverdue
  {
    RankingFacts(gapStats);
    var r := Ranking(gapStats);
    var ns := Numbers(Details(r));
    forall x | x in ns ensures InDomain(x) && gapStats[x].isOverdue {
      var k :| 0 <= k < |ns| && ns[k] == x;
      assert r[k] in r;
    }
    forall i, j | 0 <= i < j < |ns| ensures ns[i] != ns[j] {
      assert r[i] in r && r[j] in r;
    }
  }

  // The padding

  /** A sequence holding every number of lo..hi has at least hi - lo + 1
      entries. */
  lemma {:induction false} HoldsInterval(s: seq<int>, lo: int, hi: int)
    requires forall n :: lo <= n <= hi ==> n in s
    ensures |s| >= hi - lo + 1
    decreases hi - lo
  {
    if lo <= hi {
      assert hi in s;
      var k :| 0 <= k < |s| && s[k] == hi;
      var rest := s[..k] + s[k + 1..];
      forall n | lo <= n <= hi - 1 ensures n in rest {
        assert n in s;
        var j :| 0 <= j < |s| && s[j] == n;
        if j < k {
          assert rest[j] == n;
        } else {
          assert rest[j - 1] == n;
        }
      }
      HoldsInterval(rest, lo, hi - 1);
    }
  }

  /** A sequence holding all of 1..60 has at least 60 entries. */
  lemma HoldsDomain(s: seq<int>)
    requires forall n :: InDomain(n) ==> n in s
    ensures |s| >= Highest
  {
    HoldsInterval(s, Lowest, Highest);
  }

  /** The padding result, for a stream in which every number still missing
      from the selection is drawn: it extends the selection to count entries
      (when shorter), each new entry a number of 1..60 not selected before,
      with ratio 0, and no number occurs twice. */
  lemma {:induction false} PadFacts(selected: seq<Detail>, us: seq<real>, count: int)
    requires UnitReals(us) && count <= Highest
    requires Distinct(Numbers(selected)) && forall x :: x in Numbers(selected) ==> InDomain(x)
    requires forall n :: InDomain(n) ==> n in Numbers(selected) || exists i :: 0 <= i < |us| && PaddingNumber(us[i]) == n
    ensures var r := Pad(selected, us, count);
            && |r| == (if |selected| < count then count else |selected|)
            && selected <= r
            && Distinct(Numbers(r))
            && (forall i :: |selected| <= i < |r| ==>
                  InDomain(r[i].number) && r[i].number !in Numbers(selected) && r[i].overdueRatio == Finite(0.0))
    decreases |us|
  {
    var ns := Numbers(selected);
    if |selected| >= count {
    } else if us == [] {
      assert forall n :: InDomain(n) ==> n in ns;
      HoldsDomain(ns);
    } else {
      var num := PaddingNumber(us[0]);
      var rest := us[1..];
      assert UnitReals(rest) by {
        assert forall i :: 0 <= i < |us| - 1 ==> rest[i] == us[i + 1];
      }
      var next := if num in ns then selected else selected + [Detail(num, Finite(0.0))];
      assert Pad(selected, us, count) == Pad(next, rest, count);
      if num !in ns {
        AddPadding(selected, num);
      }
      CoverRest(ns, Numbers(next), us);
      PadFacts(next, rest, count);
      var r := Pad(next, rest, count);
      forall i | |selected| <= i < |r|
        ensures InDomain(r[i].number) && r[i].number !in ns && r[i].overdueRatio == Finite(0.0)
      {
        if i < |next| {
          assert next != selected && r[i] == next[i] == Detail(num, Finite(0.0));
        }
      }
    }
  }

  /** Appending a number not yet selected keeps the numbers distinct and in
      1..60, and adds just that number. */
  lemma AddPadding(selected: seq<Detail>, num: int)
    requires Distinct(Numbers(selected)) && forall x :: x in Numbers(selected) ==> InDomain(x)
    requires InDomain(num) && num !in Numbers(selected)
    ensures var ns := Numbers(selected);
            var ms := Numbers(selected + [Detail(num, Finite(0.0))]);
            && ms == ns + [num]
            && Distinct(ms)
            && (forall x :: x in ms ==> InDomain(x))
  {
    var ns := Numbers(selected);
    var ms := Numbers(selected + [Detail(num, Finite(0.0))]);
    assert ms == ns + [num];
    forall i, j | 0 <= i < j < |ms| ensures ms[i] != ms[j] {
      if j == |ms| - 1 {
        assert ns[i] == ms[i];
      } else {
        assert ns[i] == ms[i] && ns[j] == ms[j];
      }
    }
  }

  /** Once the first number of the stream is selected, the rest of the
      stream still draws every number not selected. */
  lemma CoverRest(ns: seq<int>, ms: seq<int>, us: seq<real>)
    requires UnitReals(us) && us != [] && PaddingNumber(us[0]) in ms
    requires forall x :: x in ns ==> x in ms
    requires forall n :: InDomain(n) ==> n in ns || exists i :: 0 <= i < |us| && PaddingNumber(us[i]) == n
    ensures UnitReals(us[1..])
    ensures forall n :: InDomain(n) ==> n in ms || exists i :: 0 <= i < |us[1..]| && PaddingNumber(us[1..][i]) == n
  {
    var rest := us[1..];
    assert forall i :: 0 <= i < |rest| ==> rest[i] == us[i + 1];
    forall n | InDomain(n) ensures n in ms || exists i :: 0 <= i < |rest| && PaddingNumber(rest[i]) == n {
      if n !in ms {
        var i :| 0 <= i < |us| && PaddingNumber(us[i]) == n;
        assert rest[i - 1] == us[i];
      }
    }
  }

  // The result

  /** Before padding, the selection is a head of the ranking (the first
      min(count, #overdue) entries when count is not negative): distinct
      overdue numbers of 1..60. */
  lemma SelectionFacts(gapStats: map<int, GapStat>, count: int)
    requires HasDomainKeys(gapStats)
    ensures var ranked := Details(Ranking(gapStats));
            var s := Selection(gapStats, count);
            && s <= ranked
            && (count >= 0 ==> |s| == if count < |ranked| then count else |ranked|)
            && Distinct(Numbers(s))
            && (forall x :: x in Numbers(s) ==> InDomain(x) && gapStats[x].isOverdue)
  {
    RankedNumbers(gapStats);
    HeadFacts(Details(Ranking(gapStats)), count, gapStats);
  }

  /** The head `ranked.slice(0, Math.min(count, ranked.length))` of a list of
      distinct overdue numbers. */
  lemma HeadFacts(ranked: seq<Detail>, count: int, gapStats: map<int, GapStat>)
    requires HasDomainKeys(gapStats)
    requires Distinct(Numbers(ranked)) && forall x :: x in Numbers(ranked) ==> InDomain(x) && gapStats[x].isOverdue
    ensures var s := Slice(ranked, 0, if count < |ranked| then count else |ranked|);
            && s <= ranked
            && (count >= 0 ==> |s| == if count < |ranked| then count else |ranked|)
            && Distinct(Numbers(s))
            && (forall x :: x in Numbers(s) ==> InDomain(x) && gapStats[x].isOverdue)
  {
    var s := Slice(ranked, 0, if count < |ranked| then count else |ranked|);
    assert s == ranked[..|s|];
    var ns := Numbers(s);
    var all := Numbers(ranked);
    assert forall k :: 0 <= k < |s| ==> ns[k] == all[k];
    forall x | x in ns ensures InDomain(x) && gapStats[x].isOverdue {
      var k :| 0 <= k < |s| && ns[k] == x;
      assert all[k] == x;
    }
  }

  /** Every overdue number of 1..60 is ranked. */
  lemma OverdueRanked(gapStats: map<int, GapStat>, n: int)
    requires HasDomainKeys(gapStats) && InDomain(n) && gapStats[n].isOverdue
    ensures n in Numbers(Details(Ranking(gapStats)))
  {
    RankingMembers(gapStats);
    NumberOfMember(Ranking(gapStats), Candidate(n, gapStats[n]));
  }

  /** The number of every candidate listed shows among the listed numbers. */
  lemma NumberOfMember(r: seq<Candidate>, c: Candidate)
    requires c in r
    ensures c.number in Numbers(Details(r))
  {
    var k :| 0 <= k < |r| && r[k] == c;
    assert Numbers(Details(r))[k] == c.number;
  }

  /** The padded selection: count entries with distinct numbers of 1..60,
      starting with the selection; each added entry is a number that is not
      overdue, with ratio 0. */
  lemma PaddedFacts(gapStats: map<int, GapStat>, count: int, us: seq<real>)
    requires HasDomainKeys(gapStats) && UnitReals(us) && Covers(us)
    requires 0 <= count <= Highest
    ensures var s := Selection(gapStats, count);
            var padded := Pad(s, us, count);
            && |padded| == count
            && s <= padded
            && Distinct(Numbers(padded))
            && (forall x :: x in Numbers(padded) ==> InDomain(x))
            && (forall i :: 0 <= i < count ==> InDomain(padded[i].number))
            && (forall i :: |s| <= i < count ==>
                  !gapStats[padded[i].number].isOverdue && padded[i].overdueRatio == Finite(0.0))
  {
    var s := Selection(gapStats, count);
    SelectionFacts(gapStats, count);
    PadFacts(s, us, count);
    var padded := Pad(s, us, count);
    forall x | x in Numbers(padded) ensures InDomain(x) {
      var k :| 0 <= k < |padded| && Numbers(padded)[k] == x;
      if k < |s| {
        assert Numbers(s)[k] == x;
      }
    }
    forall i | 0 <= i < count ensures InDomain(padded[i].number) {
      assert Numbers(padded)[i] in Numbers(padded);
    }
    assert |s| < count ==> s == Details(Ranking(gapStats));
    forall i | |s| <= i < count
      ensures !gapStats[padded[i].number].isOverdue
    {
      var n := padded[i].number;
      if gapStats[n].isOverdue {
        OverdueRanked(gapStats, n);
      }
    }
  }

  /** `generateOverdueCombination` returns count distinct numbers of 1..60 in
      ascending order, for a count in 0..60: the numbers of its details. */
  lemma OverdueNumbers(gapStats: map<int, GapStat>, count: int, us: seq<real>)
    requires StatsTable(gapStats) && UnitReals(us) && Covers(us)
    requires 0 <= count <= Highest
    ensures var r := OverdueCombination(gapStats, count, us);
            && |r.numbers| == count
            && (forall i, j :: 0 <= i < j < count ==> r.numbers[i] < r.numbers[j])
            && (forall x :: x in r.numbers ==> InDomain(x))
            && multiset(r.numbers) == multiset(Numbers(r.details))
  {
    PaddedNumbers(gapStats, count, us);
    SortedDetails(Pad(Selection(gapStats, count), us, count), count);
  }

  /** The combination made of count details with distinct numbers of 1..60. */
  lemma SortedDetails(padded: seq<Detail>, count: int)
    requires |padded| == count && Distinct(Numbers(padded))
    requires forall x :: x in Numbers(padded) ==> InDomain(x)
    ensures var ns := SortAscending(Numbers(padded));
            && |ns| == count
            && (forall i, j :: 0 <= i < j < count ==> ns[i] < ns[j])
            && (forall x :: x in ns ==> InDomain(x))
            && multiset(ns) == multiset(Numbers(Slice(padded, 0, count)))
  {
    assert Slice(padded, 0, count) == padded;
    SortedNumbers(Numbers(padded));
  }

  lemma PaddedNumbers(gapStats: map<int, GapStat>, count: int, us: seq<real>)
    requires HasDomainKeys(gapStats) && UnitReals(us) && Covers(us)
    requires 0 <= count <= Highest
    ensures var padded := Pad(Selection(gapStats, count), us, count);
            && |padded| == count
            && Distinct(Numbers(padded))
            && (forall x :: x in Numbers(padded) ==> InDomain(x))
  {
    PaddedFacts(gapStats, count, us);
  }

  /** Distinct numbers of 1..60, sorted: strictly ascending and still in 1..60. */
  lemma SortedNumbers(ns: seq<int>)
    requires Distinct(ns) && forall x :: x in ns ==> InDomain(x)
    ensures var r := SortAscending(ns);
            && |r| == |ns|
            && (forall i, j :: 0 <= i < j < |r| ==> r[i] < r[j])
            && (forall x :: x in r ==> InDomain(x))
  {
    SortedStrictly(ns);
    forall x | x in SortAscending(ns) ensures InDomain(x) {
      assert x in multiset(ns);
    }
  }

  /** The details of `generateOverdueCombination` are count entries that start
      with the min(count, #overdue) best ranked overdue numbers and their
      ratios; every further entry is a number that is not overdue, with
      ratio 0. */
  lemma OverdueDetails(gapStats: map<int, GapStat>, count: int, us: seq<real>)
    requires StatsTable(gapStats) && UnitReals(us) && Covers(us)
    requires 0 <= count <= Highest
    ensures var r := OverdueCombination(gapStats, count, us);
            var ranked := Details(Ranking(gapStats));
            var m := if count < |ranked| then count else |ranked|;
            && |r.details| == count
            && r.details[..m] == ranked[..m]
            && (forall i :: m <= i < count ==>
                  && InDomain(r.details[i].number)
                  && !gapStats[r.details[i].number].isOverdue
                  && r.details[i].overdueRatio == Finite(0.0))
  {
    PaddedFacts(gapStats, count, us);
    SelectionFacts(gapStats, count);
    var ranked := Details(Ranking(gapStats));
    var s := Selection(gapStats, count);
    PaddedHead(Pad(s, us, count), s, ranked, count);
  }

  /** count details that start with a head of the ranking. */
  lemma PaddedHead(padded: seq<Detail>, s: seq<Detail>, ranked: seq<Detail>, count: int)
    requires |padded| == count && s <= padded && s <= ranked
    requires |s| == if count < |ranked| then count else |ranked|
    ensures var m := if count < |ranked| then count else |ranked|;
            Slice(padded, 0, count) == padded && padded[..m] == ranked[..m]
  {
    assert padded[..|s|] == s == ranked[..|s|];
  }

  /** In a list whose ratios never increase, an entry whose number is
      not among the first m numbers taken has no larger ratio than any
      of the first m entries. */
  lemma HeadIsTop(r: seq<Candidate>, ns: seq<int>, m: nat, c: Candidate)
    requires m <= |r| && m <= |ns| && c in r && c.number !in ns
    requires forall k :: 0 <= k < m ==> ns[k] == r[k].number
    requires forall j, k :: 0 <= j < k < |r| ==> !Exceeds(RatioOf(r[k].stat), RatioOf(r[j].stat))
    ensures forall i :: 0 <= i < m ==> !Exceeds(RatioOf(c.stat), RatioOf(r[i].stat))
  {
    var k :| 0 <= k < |r| && r[k] == c;
  }

  /** Details agreeing with a ranking on their first m entries carry its
      first m numbers. */
  lemma HeadNumbers(ds: seq<Detail>, rk: seq<Candidate>, m: nat)
    requires m <= |ds| && m <= |rk| && ds[..m] == Details(rk)[..m]
    ensures forall k :: 0 <= k < m ==> Numbers(ds)[k] == rk[k].number
  {
    forall k | 0 <= k < m ensures Numbers(ds)[k] == rk[k].number {
      assert ds[..m][k] == Details(rk)[..m][k];
    }
  }

  /** The overdue numbers taken are the best ranked: an overdue number left
      out never has a larger `currentGap / averageGap` than one taken. */
  lemma OverdueAreTop(gapStats: map<int, GapStat>, count: int, us: seq<real>)
    requires StatsTable(gapStats) && UnitReals(us) && Covers(us)
    requires 0 <= count <= Highest
    ensures var r := OverdueCombination(gapStats, count, us);
            var m := if count < |Ranking(gapStats)| then count else |Ranking(gapStats)|;
            forall i, n :: 0 <= i < m && InDomain(n) && gapStats[n].isOverdue && n !in Numbers(r.details)
              ==> !Exceeds(RatioOf(gapStats[n]), RatioOf(Ranking(gapStats)[i].stat))
  {
    OverdueDetails(gapStats, count, us);
    var r := OverdueCombination(gapStats, count, us);
    var ranked := Details(Ranking(gapStats));
    var m := if count < |ranked| then count else |ranked|;
    RankingMembers(gapStats);
    RankingOrder(gapStats);
    var rk := Ranking(gapStats);
    var ns := Numbers(r.details);
    HeadNumbers(r.details, rk, m);
    forall n | InDomain(n) && gapStats[n].isOverdue && n !in ns
      ensures forall i :: 0 <= i < m ==> !Exceeds(RatioOf(gapStats[n]), RatioOf(rk[i].stat))
    {
      HeadIsTop(rk, ns, m, Candidate(n, gapStats[n]));
    }
  }

  /** The table `calculateGapAnalysis` builds is one the generator accepts. */
  lemma GapStatsAreConsistent(draws: seq<Draw>)
    ensures StatsTable(GapStats(draws))
  {
  }

  // The loop

  /** The padding loop `while (selected.length < count)`. */
  method PadSelection(selection: seq<Detail>, us: seq<real>, count: int) returns (selected: seq<Detail>)
    requires UnitReals(us) && count <= Highest
    requires Distinct(Numbers(selection)) && forall x :: x in Numbers(selection) ==> InDomain(x)
    requires forall n :: InDomain(n) ==> n in Numbers(selection) || exists i :: 0 <= i < |us| && PaddingNumber(us[i]) == n
    ensures selected == Pad(selection, us, count)
  {
    selected := selection;
    var t := 0;
    assert us[t..] == us;
    while |selected| < count
      invariant t <= |us|
      invariant Pad(selected, us[t..], count) == Pad(selection, us, count)
      invariant Distinct(Numbers(selected)) && forall x :: x in Numbers(selected) ==> InDomain(x)
      invariant forall n :: InDomain(n) ==> n in Numbers(selected) || exists i :: t <= i < |us| && PaddingNumber(us[i]) == n
      decreases |us| - t
    {
      if t == |us| {
        HoldsDomain(Numbers(selected));
        assert false;
      }
      PadStep(selected, us, t, count);
      var num := PaddingNumber(us[t]);
      ghost var before := selected;
      if num !in Numbers(selected) {
        DistinctSnoc(selected, Detail(num, Finite(0.0)));
        selected := selected + [Detail(num, Finite(0.0))];
      }
      assert num in Numbers(selected) && forall x :: x in Numbers(before) ==> x in Numbers(selected);
      forall n | InDomain(n) && n !in Numbers(selected)
        ensures exists i :: t + 1 <= i < |us| && PaddingNumber(us[i]) == n
      {
        var i :| t <= i < |us| && PaddingNumber(us[i]) == n;
        assert i != t;
      }
      t := t + 1;
    }
  }

  /** `generateOverdueCombination(gapStats, count)`; the padding reads its
      `Math.random()` values from us. */
  method GenerateOverdueCombination(gapStats: map<int, GapStat>, count: int, us: seq<real>) returns (r: OverdueResult)
    requires StatsTable(gapStats) && UnitReals(us) && Covers(us)
    requires count <= Highest
    ensures r == OverdueCombination(gapStats, count, us)
  {
    var overdue := Details(Ranking(gapStats));
    var selected := Slice(overdue, 0, if count < |overdue| then count else |overdue|);
    SelectionFacts(gapStats, count);
    selected := PadSelection(selected, us, count);
    r := OverdueResult(SortAscending(Numbers(selected)), OverdueTag, Slice(selected, 0, count));
  }

  /** One turn of the padding loop. */
  lemma PadStep(selected: seq<Detail>, us: seq<real>, t: nat, count: int)
    requires UnitReals(us) && t < |us| && |selected| < count
    ensures UnitReals(us[t..]) && UnitReals(us[t + 1..])
    ensures var num := PaddingNumber(us[t]);
            Pad(selected, us[t..], count)
            == if num in Numbers(selected) then Pad(selected, us[t + 1..], count)
               else Pad(selected + [Detail(num, Finite(0.0))], us[t + 1..], count)
  {
    assert us[t..][1..] == us[t + 1..];
  }

  /** Appending a new number keeps the numbers distinct and in 1..60. */
  lemma DistinctSnoc(selected: seq<Detail>, d: Detail)
    requires Distinct(Numbers(selected)) && forall x :: x in Numbers(selected) ==> InDomain(x)
    requires d.number !in Numbers(selected) && InDomain(d.number)
    ensures var s := selected + [d];
            && Numbers(s) == Numbers(selected) + [d.number]
            && Distinct(Numbers(s))
            && forall x :: x in Numbers(s) ==> InDomain(x)
  {
    var s := selected + [d];
    var ns := Numbers(selected);
    var ms := Numbers(s);
    forall x | x in ms ensures InDomain(x) {
      var k :| 0 <= k < |ms| && ms[k] == x;
      if k < |ns| {
        assert ns[k] == x;
      }
    }
    forall i, j | 0 <= i < j < |ms| ensures ms[i] != ms[j] {
      assert ms[i] == ns[i];
      if j < |ns| {
        assert ms[j] == ns[j];
      }
    }
  }
}
