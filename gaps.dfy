/** Gap analysis: for every number 1..60, the intervals (in draws) between its
    successive occurrences, the draws since it was last seen, and whether that
    current gap exceeds its average interval ("overdue"). */
module Gaps {
  import opened Wrappers
  import opened Seqs
  import opened Counting
  import opened Draws

  /** One step of the walk over the draws: the index of a usable draw and one
      entry of its `numbers`, in the order `forEach` visits them. */
  datatype Visit = Visit(index: nat, num: int)

  /** The visits of one draw at index i. */
  function Tag(i: nat, nums: seq<int>): (r: seq<Visit>)
    ensures |r| == |nums|
    ensures forall k :: 0 <= k < |r| ==> r[k] == Visit(i, nums[k])
  {
    seq(|nums|, k requires 0 <= k < |nums| => Visit(i, nums[k]))
  }

  /** Every visit of the walk, draw by draw. */
  function Visits(draws: seq<Draw>): seq<Visit>
  {
    if draws == [] then []
    else
      var last := draws[|draws| - 1];
      Visits(draws[..|draws| - 1]) + (if last.numbers.Some? then Tag(|draws| - 1, last.numbers.value) else [])
  }

  /** The draw indices at which n was visited, in walk order (an index repeats
      when n occurs twice in one draw). */
  function Positions(vs: seq<Visit>, n: int): seq<nat>
  {
    if vs == [] then []
    else Positions(vs[..|vs| - 1], n) + (if vs[|vs| - 1].num == n then [vs[|vs| - 1].index] else [])
  }

  /** The gaps recorded for a number seen at positions ps: each occurrence after
      the first records its index minus the index of the previous occurrence. */
  function Gaps(ps: seq<nat>): seq<int>
  {
    if |ps| < 2 then []
    else
      var gap := ps[|ps| - 1] as int - ps[|ps| - 2] as int;
      Gaps(ps[..|ps| - 1]) + [gap]
  }

  /** `lastSeen[n]`: the last position, or -1 when the number was never seen. */
  function LastSeen(ps: seq<nat>): int
  {
    if ps == [] then -1 else ps[|ps| - 1]
  }

  /** One entry of `gapStats`. `averageGap` is the exact quotient of the float
      average; `isOverdue` compares the current gap with it. */
  datatype GapStat = GapStat(averageGap: Ratio, currentGap: int, maxGap: int, minGap: int, isOverdue: bool)

  /** The entry built from a number's recorded gaps and last position in a
      history of totalDraws draws; with no gaps the average and the maximum
      default to totalDraws and the minimum to 0. */
  function StatFrom(numGaps: seq<int>, lastSeen: int, totalDraws: nat): GapStat
  {
    var avgGap := if |numGaps| > 0 then Ratio(Sum(numGaps), |numGaps|) else Ratio(totalDraws, 1);
    var currentGap := if lastSeen != -1 then totalDraws - 1 - lastSeen else totalDraws;
    GapStat(avgGap, currentGap,
            if |numGaps| > 0 then Max(numGaps) else totalDraws,
            if |numGaps| > 0 then Min(numGaps) else 0,
            currentGap * avgGap.den > avgGap.num)
  }

  /** The statistics of a number seen at positions ps in a history of total draws. */
  function StatOf(ps: seq<nat>, total: nat): GapStat
  {
    StatFrom(Gaps(ps), LastSeen(ps), total)
  }

  /** The entry of every number 1..60 after the walk vs over total draws. */
  function StatsOf(vs: seq<Visit>, total: nat): map<int, GapStat>
  {
    map n: int | Lowest <= n <= Highest :: StatOf(Positions(vs, n), total)
  }

  /** The table `calculateGapAnalysis` returns for draws already in date order. */
  function GapStats(draws: seq<Draw>): map<int, GapStat>
  {
    StatsOf(Visits(draws), |draws|)
  }

  /** The walk has visited vs, every visited number was in 1..60, and the two
      tables hold the gaps and last positions of every number. */
  ghost predicate Walked(gaps: map<int, seq<int>>, lastSeen: map<int, int>, vs: seq<Visit>)
  {
    && HasDomainKeys(gaps)
    && HasDomainKeys(lastSeen)
    && (forall v :: v in vs ==> InDomain(v.num))
    && (forall n :: n in gaps ==> gaps[n] == Gaps(Positions(vs, n)))
    && (forall n :: n in lastSeen ==> lastSeen[n] == LastSeen(Positions(vs, n)))
  }

  lemma PositionsSnoc(vs: seq<Visit>, v: Visit, n: int)
    ensures Positions(vs + [v], n) == Positions(vs, n) + (if v.num == n then [v.index] else [])
  {
    assert (vs + [v])[..|vs|] == vs;
  }

  lemma {:induction false} GapsSnoc(ps: seq<nat>, i: nat)
    ensures Gaps(ps + [i]) == if ps == [] then [] else Gaps(ps) + [i - ps[|ps| - 1]]
  {
    var qs := ps + [i];
    if ps != [] {
      assert qs[..|qs| - 1] == ps;
      assert qs[|qs| - 1] == i && qs[|qs| - 2] == ps[|ps| - 1];
    }
  }

  /** Recording a sighting at index i: it becomes the last sighting, and
      it adds a gap exactly when the number had been seen before. */
  lemma RecordSighting(ps: seq<nat>, i: nat)
    ensures LastSeen(ps + [i]) == i
    ensures Gaps(ps + [i]) == if LastSeen(ps) != -1 then Gaps(ps) + [i - LastSeen(ps)] else Gaps(ps)
  {
    GapsSnoc(ps, i);
  }

  /** One visit v seen from a single number n: n's gaps and last sighting
      follow its positions when v is a sighting of n, and stay put otherwise. */
  lemma WalkStepAt(vs: seq<Visit>, v: Visit, n: int, g: seq<int>, l: int, g': seq<int>, l': int)
    requires g == Gaps(Positions(vs, n)) && l == LastSeen(Positions(vs, n))
    requires n == v.num ==> g' == (if l != -1 then g + [v.index - l] else g) && l' == v.index
    requires n != v.num ==> g' == g && l' == l
    ensures g' == Gaps(Positions(vs + [v], n)) && l' == LastSeen(Positions(vs + [v], n))
  {
    PositionsSnoc(vs, v, n);
    var ps := Positions(vs, n);
    if n == v.num {
      assert Positions(vs + [v], n) == ps + [v.index];
      RecordSighting(ps, v.index);
    } else {
      assert Positions(vs + [v], n) == ps + [];
      assert ps + [] == ps;
    }
  }

  /** One visit of an in-range number keeps the tables in step with the walk. */
  lemma WalkStep(gaps: map<int, seq<int>>, lastSeen: map<int, int>, vs: seq<Visit>, v: Visit,
                 gaps': map<int, seq<int>>, lastSeen': map<int, int>)
    requires Walked(gaps, lastSeen, vs)
    requires InDomain(v.num)
    requires gaps' == if lastSeen[v.num] != -1 then gaps[v.num := gaps[v.num] + [v.index - lastSeen[v.num]]] else gaps
    requires lastSeen' == lastSeen[v.num := v.index]
    ensures Walked(gaps', lastSeen', vs + [v])
  {
    WalkStepTables(gaps, lastSeen, vs, v, gaps', lastSeen');
    assert forall w :: w in vs + [v] ==> w in vs || w == v;
  }

  /** The per-number half of WalkStep: every entry of the updated tables
      follows the positions of its number in the longer walk. */
  lemma WalkStepTables(gaps: map<int, seq<int>>, lastSeen: map<int, int>, vs: seq<Visit>, v: Visit,
                       gaps': map<int, seq<int>>, lastSeen': map<int, int>)
    requires Walked(gaps, lastSeen, vs)
    requires InDomain(v.num)
    requires gaps' == if lastSeen[v.num] != -1 then gaps[v.num := gaps[v.num] + [v.index - lastSeen[v.num]]] else gaps
    requires lastSeen' == lastSeen[v.num := v.index]
    ensures HasDomainKeys(gaps') && HasDomainKeys(lastSeen')
    ensures forall n :: n in gaps' ==> gaps'[n] == Gaps(Positions(vs + [v], n))
    ensures forall n :: n in lastSeen' ==> lastSeen'[n] == LastSeen(Positions(vs + [v], n))
  {
    forall n | InDomain(n)
      ensures gaps'[n] == Gaps(Positions(vs + [v], n))
      ensures lastSeen'[n] == LastSeen(Positions(vs + [v], n))
    {
      WalkStepAt(vs, v, n, gaps[n], lastSeen[n], gaps'[n], lastSeen'[n]);
    }
  }

  /** A walk that has visited nothing yet. */
  lemma WalkStart(gaps: map<int, seq<int>>, lastSeen: map<int, int>)
    requires HasDomainKeys(gaps) && HasDomainKeys(lastSeen)
    requires forall n :: n in gaps ==> gaps[n] == []
    requires forall n :: n in lastSeen ==> lastSeen[n] == -1
    ensures Walked(gaps, lastSeen, [])
  {
  }

  lemma VisitsSnoc(draws: seq<Draw>, d: nat)
    requires d < |draws|
    ensures Visits(draws[..d + 1])
         == Visits(draws[..d]) + (if draws[d].numbers.Some? then Tag(d, draws[d].numbers.value) else [])
  {
    assert draws[..d + 1][..d] == draws[..d];
  }

  /** The visits of a prefix of the draws are a prefix of all the visits. */
  lemma {:induction false} VisitsPrefix(draws: seq<Draw>, d: nat)
    requires d <= |draws|
    ensures Visits(draws[..d]) <= Visits(draws)
    decreases |draws| - d
  {
    if d < |draws| {
      VisitsPrefix(draws, d + 1);
      VisitsSnoc(draws, d);
    } else {
      assert draws[..d] == draws;
    }
  }

  lemma TagSnoc(d: nat, nums: seq<int>, j: nat)
    requires j < |nums|
    ensures Tag(d, nums[..j + 1]) == Tag(d, nums[..j]) + [Visit(d, nums[j])]
  {
  }

  /** The body of the inner `forEach` for entry j of the draw at index d:
      an entry outside 1..60 throws (ok false); otherwise the entry records
      a gap when its number was seen before and becomes its last sighting. */
  method VisitEntry(gaps0: map<int, seq<int>>, lastSeen0: map<int, int>, d: nat, nums: seq<int>, j: nat, ghost walked0: seq<Visit>)
    returns (gaps: map<int, seq<int>>, lastSeen: map<int, int>, ok: bool)
    requires j < |nums|
    requires Walked(gaps0, lastSeen0, walked0 + Tag(d, nums[..j]))
    ensures ok <==> InDomain(nums[j])
    ensures ok ==> Walked(gaps, lastSeen, walked0 + Tag(d, nums[..j + 1]))
  {
    var num := nums[j];
    if !(1 <= num <= 60) {
      return gaps0, lastSeen0, false;
    }
    gaps, lastSeen := gaps0, lastSeen0;
    if lastSeen[num] != -1 {
      gaps := gaps[num := gaps[num] + [d - lastSeen[num]]];
    }
    lastSeen := lastSeen[num := d];
    WalkStep(gaps0, lastSeen0, walked0 + Tag(d, nums[..j]), Visit(d, num), gaps, lastSeen);
    WalkedSnoc(walked0, d, nums, j);
    ok := true;
  }

  /** Visiting one more entry of a draw extends the visits of its prefix. */
  lemma WalkedSnoc(walked0: seq<Visit>, d: nat, nums: seq<int>, j: nat)
    requires j < |nums|
    ensures walked0 + Tag(d, nums[..j + 1]) == (walked0 + Tag(d, nums[..j])) + [Visit(d, nums[j])]
  {
    TagSnoc(d, nums, j);
  }

  /** The `forEach` over the entries of the usable draw at index d: each
      in-range entry records its gap (when seen before) and becomes the last
      sighting of its number; an entry outside 1..60 throws (ok false). */
  method WalkDraw(gaps0: map<int, seq<int>>, lastSeen0: map<int, int>, d: nat, nums: seq<int>, ghost walked0: seq<Visit>)
    returns (gaps: map<int, seq<int>>, lastSeen: map<int, int>, ok: bool)
    requires Walked(gaps0, lastSeen0, walked0)
    ensures !ok <==> exists k :: 0 <= k < |nums| && !InDomain(nums[k])
    ensures ok ==> Walked(gaps, lastSeen, walked0 + Tag(d, nums))
  {
    gaps, lastSeen := gaps0, lastSeen0;
    var j := 0;
    assert walked0 + Tag(d, nums[..j]) == walked0;
    while j < |nums|
      invariant 0 <= j <= |nums|
      invariant Walked(gaps, lastSeen, walked0 + Tag(d, nums[..j]))
      invariant forall k :: 0 <= k < j ==> InDomain(nums[k])
    {
      gaps, lastSeen, ok := VisitEntry(gaps, lastSeen, d, nums, j, walked0);
      if !ok {
        return;
      }
      j := j + 1;
    }
    assert nums[..j] == nums;
    ok := true;
  }

  /** The tables before the walk: every number 1..60 with no gaps and
      `lastSeen` -1. */
  method FreshTables() returns (gaps: map<int, seq<int>>, lastSeen: map<int, int>)
    ensures Walked(gaps, lastSeen, [])
  {
    gaps := map[];
    lastSeen := map[];
    for i := 1 to 61
      invariant forall n :: n in gaps <==> 1 <= n < i
      invariant forall n :: n in lastSeen <==> 1 <= n < i
      invariant forall n :: n in gaps ==> gaps[n] == []
      invariant forall n :: n in lastSeen ==> lastSeen[n] == -1
    {
      gaps := gaps[i := []];
      lastSeen := lastSeen[i := -1];
    }
    WalkStart(gaps, lastSeen);
  }

  /** The outer `forEach` step for the draw at index d: an unusable draw is
      skipped, a usable one has its entries walked; an entry outside 1..60
      stops the walk (ok false). */
  method WalkDrawAt(gaps0: map<int, seq<int>>, lastSeen0: map<int, int>, draws: seq<Draw>, d: nat)
    returns (gaps: map<int, seq<int>>, lastSeen: map<int, int>, ok: bool)
    requires d < |draws|
    requires Walked(gaps0, lastSeen0, Visits(draws[..d]))
    ensures !ok ==> exists v :: v in Visits(draws) && !InDomain(v.num)
    ensures ok ==> Walked(gaps, lastSeen, Visits(draws[..d + 1]))
  {
    VisitsSnoc(draws, d);
    if draws[d].numbers.None? {
      assert Visits(draws[..d + 1]) == Visits(draws[..d]) + [];
      assert Visits(draws[..d]) + [] == Visits(draws[..d]);
      return gaps0, lastSeen0, true;
    }
    var nums := draws[d].numbers.value;
    gaps, lastSeen, ok := WalkDraw(gaps0, lastSeen0, d, nums, Visits(draws[..d]));
    if !ok {
      var k :| 0 <= k < |nums| && !InDomain(nums[k]);
      VisitOfEntry(draws, d, k);
    }
  }

  /** Entry k of the usable draw at index d is one of the visits of the walk. */
  lemma VisitOfEntry(draws: seq<Draw>, d: nat, k: nat)
    requires d < |draws| && draws[d].numbers.Some? && k < |draws[d].numbers.value|
    ensures Visit(d, draws[d].numbers.value[k]) in Visits(draws)
  {
    VisitsSnoc(draws, d);
    var v := Tag(d, draws[d].numbers.value)[k];
    assert v in Visits(draws[..d + 1]);
    VisitsPrefix(draws, d + 1);
  }

  /** The walk of `calculateGapAnalysis`: start every number with no gaps and
      `lastSeen` -1, then visit every entry of every usable draw in order. It
      stops (ok false) at the first entry outside 1..60. */
  method WalkDraws(draws: seq<Draw>) returns (gaps: map<int, seq<int>>, lastSeen: map<int, int>, ok: bool)
    ensures !ok <==> exists v :: v in Visits(draws) && !InDomain(v.num)
    ensures ok ==> Walked(gaps, lastSeen, Visits(draws))
  {
    gaps, lastSeen := FreshTables();
    var d := 0;
    assert draws[..d] == [];
    while d < |draws|
      invariant 0 <= d <= |draws|
      invariant Walked(gaps, lastSeen, Visits(draws[..d]))
    {
      gaps, lastSeen, ok := WalkDrawAt(gaps, lastSeen, draws, d);
      if !ok {
        return;
      }
      d := d + 1;
    }
    assert draws[..d] == draws;
    ok := true;
  }

  /** `calculateGapAnalysis(draws, false)`, i.e. on draws already in date order.
      A usable draw holding a number outside 1..60 makes the walk throw a
      TypeError (None here); otherwise the result is the table of GapStats. */
  method CalculateGapAnalysis(draws: seq<Draw>) returns (r: Option<map<int, GapStat>>)
    ensures r.None? <==> exists v :: v in Visits(draws) && !InDomain(v.num)
    ensures r.Some? ==> r.value == GapStats(draws)
  {
    var gaps, lastSeen, ok := WalkDraws(draws);
    if !ok {
      return None;
    }
    var gapStats := StatTable(gaps, lastSeen, |draws|);
    TableIsStats(gaps, lastSeen, Visits(draws), |draws|, gapStats);
    r := Some(gapStats);
  }

  /** The last loop of `calculateGapAnalysis`: the entry of every number
      1..60 built from its recorded gaps and last sighting. */
  method StatTable(gaps: map<int, seq<int>>, lastSeen: map<int, int>, totalDraws: nat) returns (gapStats: map<int, GapStat>)
    requires HasDomainKeys(gaps) && HasDomainKeys(lastSeen)
    ensures HasDomainKeys(gapStats)
    ensures forall n :: n in gapStats ==> gapStats[n] == StatFrom(gaps[n], lastSeen[n], totalDraws)
  {
    gapStats := map[];
    for i := 1 to 61
      invariant forall n :: n in gapStats <==> 1 <= n < i
      invariant forall n :: n in gapStats ==> gapStats[n] == StatFrom(gaps[n], lastSeen[n], totalDraws)
    {
      gapStats := gapStats[i := StatFrom(gaps[i], lastSeen[i], totalDraws)];
    }
  }

  /** After the walk vs, the table built from the two maps is StatsOf(vs). */
  lemma TableIsStats(gaps: map<int, seq<int>>, lastSeen: map<int, int>, vs: seq<Visit>, total: nat, gapStats: map<int, GapStat>)
    requires Walked(gaps, lastSeen, vs)
    requires HasDomainKeys(gapStats)
    requires forall n :: n in gapStats ==> gapStats[n] == StatFrom(gaps[n], lastSeen[n], total)
    ensures gapStats == StatsOf(vs, total)
  {
    assert gapStats.Keys == StatsOf(vs, total).Keys;
  }

  /** Non-decreasing. */
  ghost predicate Ascending(ps: seq<nat>)
  {
    forall i, j :: 0 <= i < j < |ps| ==> ps[i] <= ps[j]
  }

  lemma AscendingSnoc(ps: seq<nat>, x: nat)
    requires Ascending(ps)
    requires forall p :: p in ps ==> p <= x
    ensures Ascending(ps + [x])
  {
    forall i, j | 0 <= i < j < |ps| + 1 ensures (ps + [x])[i] <= (ps + [x])[j] {
      if j == |ps| {
        assert ps[i] in ps;
      }
    }
  }

  /** The walk visits the draws in index order, and every index is a draw's. */
  lemma {:induction false} VisitsOrdered(draws: seq<Draw>)
    ensures forall i, j :: 0 <= i < j < |Visits(draws)| ==> Visits(draws)[i].index <= Visits(draws)[j].index
    ensures forall v :: v in Visits(draws) ==> v.index < |draws|
  {
    if draws != [] {
      var p := draws[..|draws| - 1];
      VisitsOrdered(p);
      VisitsSnoc(draws, |draws| - 1);
      assert draws[..|draws| - 1 + 1] == draws;
    }
  }

  /** Positions of a walk in index order are ascending, below the bound, and
      none exceeds the index of the last visit. */
  lemma {:induction false} PositionsOrdered(vs: seq<Visit>, n: int, bound: nat)
    requires forall i, j :: 0 <= i < j < |vs| ==> vs[i].index <= vs[j].index
    requires forall v :: v in vs ==> v.index < bound
    ensures Ascending(Positions(vs, n))
    ensures forall p :: p in Positions(vs, n) ==> p < bound
    ensures vs != [] ==> forall p :: p in Positions(vs, n) ==> p <= vs[|vs| - 1].index
  {
    if vs != [] {
      var pre := vs[..|vs| - 1];
      assert forall v :: v in pre ==> v in vs;
      PositionsOrdered(pre, n, bound);
      var last := vs[|vs| - 1];
      assert last in vs;
      if pre != [] {
        assert pre[|pre| - 1] == vs[|vs| - 2];
        assert vs[|vs| - 2].index <= last.index;
      }
      assert forall p :: p in Positions(pre, n) ==> p <= last.index;
      if last.num == n {
        AscendingSnoc(Positions(pre, n), last.index);
      } else {
        assert Positions(vs, n) == Positions(pre, n);
      }
    }
  }

  /** The positions of n in the walk over the draws: ascending draw indices. */
  lemma DrawPositionsOrdered(draws: seq<Draw>, n: int)
    ensures Ascending(Positions(Visits(draws), n))
    ensures forall p :: p in Positions(Visits(draws), n) ==> p < |draws|
  {
    VisitsOrdered(draws);
    PositionsOrdered(Visits(draws), n, |draws|);
  }

  lemma {:induction false} PositionsAppend(a: seq<Visit>, b: seq<Visit>, n: int)
    ensures Positions(a + b, n) == Positions(a, n) + Positions(b, n)
    decreases |b|
  {
    if b == [] {
      assert a + b == a;
    } else {
      var b' := b[..|b| - 1];
      PositionsAppend(a, b', n);
      assert (a + b)[..|a + b| - 1] == a + b';
    }
  }

  lemma {:induction false} PositionsOfTag(i: nat, nums: seq<int>, n: int)
    ensures |Positions(Tag(i, nums), n)| == Count(nums, n)
  {
    if nums != [] {
      var p := nums[..|nums| - 1];
      PositionsOfTag(i, p, n);
      assert Tag(i, nums)[..|nums| - 1] == Tag(i, p);
    }
  }

  /** A number is visited once per occurrence in the usable draws: as many
      times as the frequency table counts it. */
  lemma {:induction false} PositionsCount(draws: seq<Draw>, n: int)
    ensures |Positions(Visits(draws), n)| == Count(AllNumbers(draws), n)
  {
    if draws != [] {
      var p := draws[..|draws| - 1];
      var last := draws[|draws| - 1];
      PositionsCount(p, n);
      var t := if last.numbers.Some? then Tag(|draws| - 1, last.numbers.value) else [];
      PositionsAppend(Visits(p), t, n);
      CountAppend(AllNumbers(p), if last.numbers.Some? then last.numbers.value else [], n);
      if last.numbers.Some? {
        PositionsOfTag(|draws| - 1, last.numbers.value, n);
      }
    }
  }

  /** Each recorded gap is an occurrence's index minus the previous occurrence's:
      one gap per occurrence after the first. */
  lemma {:induction false} GapsShape(ps: seq<nat>)
    ensures |Gaps(ps)| == if |ps| < 2 then 0 else |ps| - 1
    ensures forall k :: 0 <= k < |Gaps(ps)| ==> Gaps(ps)[k] == ps[k + 1] as int - ps[k] as int
  {
    if |ps| >= 2 {
      GapsShape(ps[..|ps| - 1]);
    }
  }

  /** The gaps telescope: they add up to the distance from the first to the
      last occurrence. */
  lemma {:induction false} GapsTelescope(ps: seq<nat>)
    requires |ps| >= 1
    ensures Sum(Gaps(ps)) == ps[|ps| - 1] as int - ps[0] as int
  {
    if |ps| >= 2 {
      GapsTelescope(ps[..|ps| - 1]);
    }
  }

  /** Gaps of ascending positions lie between 0 and the span first..last. */
  lemma GapsBounded(ps: seq<nat>)
    requires Ascending(ps) && |ps| >= 2
    ensures forall g :: g in Gaps(ps) ==> 0 <= g <= ps[|ps| - 1] as int - ps[0] as int
  {
    GapsShape(ps);
    forall g | g in Gaps(ps) ensures 0 <= g <= ps[|ps| - 1] as int - ps[0] as int {
      var k :| 0 <= k < |Gaps(ps)| && Gaps(ps)[k] == g;
      assert ps[0] <= ps[k] && ps[k + 1] <= ps[|ps| - 1];
    }
  }

  /** The entry of n in the gap table is the statistics of its positions,
      which are ascending draw indices, one per occurrence. */
  lemma GapStatAt(draws: seq<Draw>, n: int)
    requires InDomain(n)
    ensures var ps := Positions(Visits(draws), n);
            && GapStats(draws)[n] == StatOf(ps, |draws|)
            && Ascending(ps)
            && (forall p :: p in ps ==> p < |draws|)
            && |ps| == Count(AllNumbers(draws), n)
  {
    DrawPositionsOrdered(draws, n);
    PositionsCount(draws, n);
  }

  /** The current gap of a number seen at ascending positions below total. */
  lemma StatOfCurrentGap(ps: seq<nat>, total: nat)
    requires forall p :: p in ps ==> p < total
    ensures var s := StatOf(ps, total);
            && 0 <= s.currentGap <= total
            && (s.currentGap == total <==> ps == [])
            && (ps != [] ==> s.currentGap == total - 1 - ps[|ps| - 1])
  {
    if ps != [] {
      assert ps[|ps| - 1] in ps;
    }
  }

  /** The statistics of a number seen at most once. */
  lemma StatOfNeverRepeated(ps: seq<nat>, total: nat)
    requires |ps| <= 1
    requires forall p :: p in ps ==> p < total
    ensures var s := StatOf(ps, total);
            && s.averageGap == Ratio(total, 1)
            && s.maxGap == total
            && s.minGap == 0
            && !s.isOverdue
  {
    GapsShape(ps);
    StatOfCurrentGap(ps, total);
  }

  /** The statistics of a number seen at ascending positions ps, k = |ps| >= 2
      times, in a history of total draws. */
  lemma {:induction false} StatOfRepeated(ps: seq<nat>, total: nat)
    requires Ascending(ps) && |ps| >= 2
    requires forall p :: p in ps ==> p < total
    ensures var s := StatOf(ps, total);
            var span := ps[|ps| - 1] as int - ps[0] as int;
            && s.averageGap == Ratio(span, |ps| - 1)
            && 0 <= s.minGap <= s.maxGap <= span < total
            && s.minGap * (|ps| - 1) <= span <= s.maxGap * (|ps| - 1)
  {
    var gaps := Gaps(ps);
    GapsShape(ps);
    GapsTelescope(ps);
    GapsBounded(ps);
    assert ps[|ps| - 1] in ps;
    var lo, hi := Min(gaps), Max(gaps);
    assert lo in gaps && hi in gaps;
    SumBounds(gaps, lo, hi);
  }

  /** Seen k >= 2 times, and the draws since the last sighting, times k - 1,
      exceed the span from the first to the last sighting: the current gap
      exceeds the average gap, cross-multiplied. */
  predicate OverdueCondition(ps: seq<nat>, total: nat)
  {
    && |ps| >= 2
    && (total - 1 - ps[|ps| - 1]) * (|ps| - 1) > ps[|ps| - 1] as int - ps[0] as int
  }

  /** The overdue flag of a number seen at ascending positions below total. */
  lemma StatOfOverdue(ps: seq<nat>, total: nat)
    requires Ascending(ps)
    requires forall p :: p in ps ==> p < total
    ensures StatOf(ps, total).isOverdue <==> OverdueCondition(ps, total)
  {
    StatOfCurrentGap(ps, total);
    if |ps| >= 2 {
      StatOfRepeated(ps, total);
    } else {
      StatOfNeverRepeated(ps, total);
    }
  }

  /** The current gap counts the draws after the last sighting: it is between
      0 and the number of draws, and equals the number of draws exactly when
      the number was never drawn. */
  lemma CurrentGapBounds(draws: seq<Draw>, n: int)
    requires InDomain(n)
    ensures var ps := Positions(Visits(draws), n);
            var s := GapStats(draws)[n];
            && 0 <= s.currentGap <= |draws|
            && (s.currentGap == |draws| <==> Count(AllNumbers(draws), n) == 0)
            && (ps != [] ==> s.currentGap == |draws| - 1 - ps[|ps| - 1])
  {
    GapStatAt(draws, n);
    StatOfCurrentGap(Positions(Visits(draws), n), |draws|);
  }

  /** A number drawn at most once has no gaps: its average and maximum gap
      default to the number of draws, its minimum to 0, and it is never
      overdue. In particular a number never drawn, and every number of an
      empty history, is not overdue. */
  lemma NeverRepeated(draws: seq<Draw>, n: int)
    requires InDomain(n) && Count(AllNumbers(draws), n) <= 1
    ensures var s := GapStats(draws)[n];
            && s.averageGap == Ratio(|draws|, 1)
            && s.maxGap == |draws|
            && s.minGap == 0
            && !s.isOverdue
  {
    GapStatAt(draws, n);
    StatOfNeverRepeated(Positions(Visits(draws), n), |draws|);
  }

  /** A number drawn k >= 2 times averages (last - first) / (k - 1) draws
      between sightings, with the minimum and the maximum gap in
      0..last - first (StatOfRepeated adds minimum <= average <= maximum). */
  lemma RepeatedStats(draws: seq<Draw>, n: int)
    requires InDomain(n)
    requires Count(AllNumbers(draws), n) >= 2
    ensures var ps := Positions(Visits(draws), n);
            var s := GapStats(draws)[n];
            && |ps| == Count(AllNumbers(draws), n)
            && s.averageGap == Ratio(ps[|ps| - 1] as int - ps[0] as int, |ps| - 1)
            && 0 <= s.minGap <= s.maxGap <= ps[|ps| - 1] as int - ps[0] as int < |draws|
  {
    GapStatAt(draws, n);
    StatOfRepeated(Positions(Visits(draws), n), |draws|);
  }

  /** `isOverdue` holds exactly when the number was drawn k >= 2 times and the
      draws since its last sighting, times k - 1, exceed the span between its
      first and last sightings. */
  lemma OverdueMeaning(draws: seq<Draw>, n: int)
    requires InDomain(n)
    ensures GapStats(draws)[n].isOverdue <==> OverdueCondition(Positions(Visits(draws), n), |draws|)
  {
    GapStatAt(draws, n);
    StatOfOverdue(Positions(Visits(draws), n), |draws|);
  }

  /** Number 7 drawn in draws 0 and 2 of three: one gap of 2, so average 2,
      current gap 0, and not overdue. */
  lemma GapExample()
    ensures var draws := [Draw(1, "2024-01-01", Some([7, 12])),
                          Draw(2, "2024-01-08", Some([30])),
                          Draw(3, "2024-01-15", Some([7]))];
            GapStats(draws)[7] == GapStat(Ratio(2, 1), 0, 2, 2, false)
  {
    var draws := [Draw(1, "2024-01-01", Some([7, 12])),
                  Draw(2, "2024-01-08", Some([30])),
                  Draw(3, "2024-01-15", Some([7]))];
    assert draws[..2] == [draws[0], draws[1]];
    assert draws[..1] == [draws[0]];
    assert Visits(draws[..1]) == [Visit(0, 7), Visit(0, 12)];
    assert Visits(draws[..2]) == [Visit(0, 7), Visit(0, 12), Visit(1, 30)];
    var vs := Visits(draws);
    assert vs == [Visit(0, 7), Visit(0, 12), Visit(1, 30), Visit(2, 7)];
    assert vs[..3] == [Visit(0, 7), Visit(0, 12), Visit(1, 30)];
    assert vs[..2] == [Visit(0, 7), Visit(0, 12)];
    assert vs[..1] == [Visit(0, 7)];
    assert Positions(vs[..1], 7) == [0];
    assert Positions(vs[..2], 7) == [0];
    assert Positions(vs[..3], 7) == [0];
    assert Positions(vs, 7) == [0, 2];
    assert Gaps([0, 2]) == [2];
  }

  /** An entry whose average gap is a true quotient (positive denominator,
      non-negative numerator), whose current gap is non-negative, and whose
      overdue flag is current gap > average gap. */
  predicate WellFormedStat(s: GapStat)
  {
    && s.averageGap.den > 0
    && s.averageGap.num >= 0
    && s.currentGap >= 0
    && (s.isOverdue <==> s.currentGap * s.averageGap.den > s.averageGap.num)
  }

  /** Every entry of the gap table is well formed. */
  lemma GapStatsWellFormed(draws: seq<Draw>)
    ensures forall n :: n in GapStats(draws) ==> WellFormedStat(GapStats(draws)[n])
  {
    forall n | n in GapStats(draws) ensures WellFormedStat(GapStats(draws)[n]) {
      CurrentGapBounds(draws, n);
      if Count(AllNumbers(draws), n) >= 2 {
        RepeatedStats(draws, n);
      } else {
        NeverRepeated(draws, n);
      }
    }
  }
}
