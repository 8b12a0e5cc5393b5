/** Per-draw distributions: even/odd and low/high splits, consecutive pairs,
    sums with their histogram, and decades. */
module Distribution {
  import opened Wrappers
  import opened Seqs
  import opened Counting
  import opened Sorting
  import opened Draws

  /** `numbers.filter(n => n % 2 === 0).length`; for negative n JavaScript's
      remainder is negative, but it is 0 exactly when Dafny's is. */
  function EvenCount(nums: seq<int>): nat
  {
    if nums == [] then 0 else EvenCount(nums[..|nums| - 1]) + (if nums[|nums| - 1] % 2 == 0 then 1 else 0)
  }

  /** `numbers.filter(n => n <= 30).length`. */
  function LowCount(nums: seq<int>): nat
  {
    if nums == [] then 0 else LowCount(nums[..|nums| - 1]) + (if nums[|nums| - 1] <= 30 then 1 else 0)
  }

  /** The key `${evenCount}E/${6 - evenCount}O` as a pair; the odd count is
      always 6 minus the even count, whatever the length of the array. */
  function EvenOddKey(nums: seq<int>): (int, int)
  {
    (EvenCount(nums), 6 - EvenCount(nums))
  }

  /** The key `${lowCount}L/${6 - lowCount}H` as a pair. */
  function LowHighKey(nums: seq<int>): (int, int)
  {
    (LowCount(nums), 6 - LowCount(nums))
  }

  lemma {:induction false} KeysSumToSix(draws: seq<Draw>, key: seq<int> -> (int, int), k: (int, int))
    requires forall nums :: key(nums).0 + key(nums).1 == 6
    requires k in KeysOf(draws, key)
    ensures k.0 + k.1 == 6
  {
    KeysOfValid(draws, key);
  }

  /** One loop step of a split tally: a usable draw bumps its key, an
      unusable one leaves the tally as it was. */
  lemma TallyStep(draws: seq<Draw>, d: nat, key: seq<int> -> (int, int), keys: seq<(int, int)>, next: seq<(int, int)>)
    requires d < |draws|
    requires keys == KeysOf(draws[..d], key) && next == KeysOf(draws[..d + 1], key)
    ensures draws[d].numbers.Some? ==> Bump(Tally(keys), key(draws[d].numbers.value)) == Tally(next)
    ensures draws[d].numbers.None? ==> Tally(keys) == Tally(next)
  {
    KeysOfSnoc(draws, d, key);
    if draws[d].numbers.Some? {
      var k := key(draws[d].numbers.value);
      assert next[..|keys|] == keys && next[|keys|] == k;
    } else {
      assert next == keys;
    }
  }

  /** What a finished split tally over the keys of `draws` holds: exactly
      the keys met, each with its count, and one count per usable draw. */
  lemma SplitTally(draws: seq<Draw>, key: seq<int> -> (int, int), keys: seq<(int, int)>)
    requires keys == KeysOf(draws, key)
    ensures forall k :: k in Tally(keys) <==> k in keys
    ensures forall k :: k in Tally(keys) ==> Tally(keys)[k] == Count(keys, k)
    ensures MapSum(Tally(keys)) == |ValidNumbers(draws)|
  {
    TallyCounts(keys);
    TallyTotal(keys);
    KeysOfValid(draws, key);
  }

  /** Every key of a split tally splits the six numbers in two. */
  lemma SplitsSix(draws: seq<Draw>, key: seq<int> -> (int, int), keys: seq<(int, int)>)
    requires forall nums :: key(nums).0 + key(nums).1 == 6
    requires keys == KeysOf(draws, key)
    ensures forall k :: k in Tally(keys) ==> k.0 + k.1 == 6
  {
    TallyCounts(keys);
    forall k | k in keys ensures k.0 + k.1 == 6 {
      KeysSumToSix(draws, key, k);
    }
  }

  /** `analyzeEvenOddDistribution`: one count per usable draw, under its even/odd key. */
  method AnalyzeEvenOddDistribution(draws: seq<Draw>) returns (distribution: map<(int, int), nat>)
    ensures forall k :: k in distribution <==> k in KeysOf(draws, EvenOddKey)
    ensures forall k :: k in distribution ==> distribution[k] == Count(KeysOf(draws, EvenOddKey), k)
    ensures forall k :: k in distribution ==> k.0 + k.1 == 6
    ensures MapSum(distribution) == |ValidNumbers(draws)|
  {
    distribution := map[];
    var d := 0;
    while d < |draws|
      invariant 0 <= d <= |draws|
      invariant distribution == Tally(KeysOf(draws[..d], EvenOddKey))
    {
      TallyStep(draws, d, EvenOddKey, KeysOf(draws[..d], EvenOddKey), KeysOf(draws[..d + 1], EvenOddKey));
      if draws[d].numbers.Some? {
        var evenCount: int := EvenCount(draws[d].numbers.value);
        var oddCount: int := 6 - evenCount;
        var key := (evenCount, oddCount);
        assert key == EvenOddKey(draws[d].numbers.value);
        distribution := distribution[key := (if key in distribution then distribution[key] else 0) + 1];
      }
      d := d + 1;
    }
    assert draws[..d] == draws;
    SplitTally(draws, EvenOddKey, KeysOf(draws, EvenOddKey));
    SplitsSix(draws, EvenOddKey, KeysOf(draws, EvenOddKey));
  }

  /** `analyzeLowHighDistribution`: one count per usable draw, under its low/high key. */
  method AnalyzeLowHighDistribution(draws: seq<Draw>) returns (distribution: map<(int, int), nat>)
    ensures forall k :: k in distribution <==> k in KeysOf(draws, LowHighKey)
    ensures forall k :: k in distribution ==> distribution[k] == Count(KeysOf(draws, LowHighKey), k)
    ensures forall k :: k in distribution ==> k.0 + k.1 == 6
    ensures MapSum(distribution) == |ValidNumbers(draws)|
  {
    distribution := map[];
    var d := 0;
    while d < |draws|
      invariant 0 <= d <= |draws|
      invariant distribution == Tally(KeysOf(draws[..d], LowHighKey))
    {
      TallyStep(draws, d, LowHighKey, KeysOf(draws[..d], LowHighKey), KeysOf(draws[..d + 1], LowHighKey));
      if draws[d].numbers.Some? {
        var lowCount: int := LowCount(draws[d].numbers.value);
        var highCount: int := 6 - lowCount;
        var key := (lowCount, highCount);
        assert key == LowHighKey(draws[d].numbers.value);
        distribution := distribution[key := (if key in distribution then distribution[key] else 0) + 1];
      }
      d := d + 1;
    }
    assert draws[..d] == draws;
    SplitTally(draws, LowHighKey, KeysOf(draws, LowHighKey));
    SplitsSix(draws, LowHighKey, KeysOf(draws, LowHighKey));
  }

  /** Number of adjacent pairs of s that differ by exactly 1. */
  function ConsecutivePairs(s: seq<int>): nat
  {
    if |s| < 2 then 0
    else ConsecutivePairs(s[..|s| - 1]) + (if s[|s| - 1] - s[|s| - 2] == 1 then 1 else 0)
  }

  /** The bucket of a draw: its consecutive pairs once sorted ascending. */
  function ConsecutiveKey(nums: seq<int>): nat
  {
    ConsecutivePairs(SortAscending(nums))
  }

  lemma {:induction false} ConsecutivePairsBound(s: seq<int>)
    requires |s| > 0
    ensures ConsecutivePairs(s) < |s|
  {
    if |s| >= 2 {
      ConsecutivePairsBound(s[..|s| - 1]);
    }
  }

  /** The inner loop of `analyzeConsecutivePatterns` over a sorted draw. */
  method CountConsecutivePairs(sorted: seq<int>) returns (consecutivePairs: nat)
    ensures consecutivePairs == ConsecutivePairs(sorted)
    ensures |sorted| > 0 ==> consecutivePairs < |sorted|
  {
    consecutivePairs := 0;
    var i := 0;
    while i < |sorted| - 1
      invariant 0 <= i <= if |sorted| > 0 then |sorted| - 1 else 0
      invariant |sorted| > 0 ==> consecutivePairs == ConsecutivePairs(sorted[..i + 1])
      invariant |sorted| == 0 ==> consecutivePairs == 0
    {
      assert sorted[..i + 2][..i + 1] == sorted[..i + 1];
      if sorted[i + 1] - sorted[i] == 1 {
        consecutivePairs := consecutivePairs + 1;
      }
      i := i + 1;
    }
    assert |sorted| > 0 ==> sorted[..i + 1] == sorted;
    if |sorted| > 0 {
      ConsecutivePairsBound(sorted);
    }
  }

  /** A counter of the `patterns` object: `patterns[k]++` on a key that was
      never set stores NaN (undefined + 1), and NaN stays NaN. */
  datatype JsCount = Num(n: nat) | NaN

  /** `analyzeConsecutivePatterns`: keys 0..5 start at 0 and count the draws
      with that many consecutive pairs; a larger pair count (only possible with
      more than six numbers) leaves NaN under its key. */
  method AnalyzeConsecutivePatterns(draws: seq<Draw>) returns (patterns: map<int, JsCount>)
    ensures PatternsHold(patterns, KeysOf(draws, ConsecutiveKey))
  {
    patterns := map[0 := Num(0), 1 := Num(0), 2 := Num(0), 3 := Num(0), 4 := Num(0), 5 := Num(0)];
    assert KeysOf(draws[..0], ConsecutiveKey) == [];
    PatternsStart(patterns);
    var d := 0;
    while d < |draws|
      invariant 0 <= d <= |draws|
      invariant PatternsHold(patterns, KeysOf(draws[..d], ConsecutiveKey))
    {
      if draws[d].numbers.Some? {
        var sorted := SortAscending(draws[d].numbers.value);
        var consecutivePairs := CountConsecutivePairs(sorted);
        var k := consecutivePairs;
        ConsecutiveStep(draws, d, patterns, k);
        patterns := patterns[k := if k in patterns && patterns[k].Num? then Num(patterns[k].n + 1) else NaN];
      } else {
        KeysOfSnoc(draws, d, ConsecutiveKey);
        assert KeysOf(draws[..d + 1], ConsecutiveKey) == KeysOf(draws[..d], ConsecutiveKey);
      }
      d := d + 1;
    }
    assert draws[..d] == draws;
  }

  /** What the `patterns` object holds after the draws with the given keys:
      the keys 0..5 and every key tallied, 0..5 counting their occurrences and
      any larger key NaN. */
  ghost predicate PatternsHold(patterns: map<int, JsCount>, keys: seq<int>)
  {
    && (forall k :: k in patterns <==> 0 <= k <= 5 || k in keys)
    && (forall k :: 0 <= k <= 5 ==> patterns[k] == Num(Count(keys, k)))
    && (forall k :: k in patterns && k > 5 ==> patterns[k] == NaN)
  }

  /** One more usable draw, with k consecutive pairs. */
  lemma ConsecutiveStep(draws: seq<Draw>, d: nat, patterns: map<int, JsCount>, k: int)
    requires d < |draws| && draws[d].numbers.Some?
    requires k == ConsecutivePairs(SortAscending(draws[d].numbers.value))
    requires PatternsHold(patterns, KeysOf(draws[..d], ConsecutiveKey))
    ensures PatternsHold(patterns[k := if k in patterns && patterns[k].Num? then Num(patterns[k].n + 1) else NaN],
                         KeysOf(draws[..d + 1], ConsecutiveKey))
  {
    KeysOfSnoc(draws, d, ConsecutiveKey);
    assert k == ConsecutiveKey(draws[d].numbers.value);
    PatternsStep(patterns, KeysOf(draws[..d], ConsecutiveKey), k);
  }

  lemma PatternsStart(patterns: map<int, JsCount>)
    requires patterns == map[0 := Num(0), 1 := Num(0), 2 := Num(0), 3 := Num(0), 4 := Num(0), 5 := Num(0)]
    ensures PatternsHold(patterns, [])
  {
  }

  lemma PatternsStep(patterns: map<int, JsCount>, keys: seq<int>, k: int)
    requires PatternsHold(patterns, keys)
    ensures PatternsHold(patterns[k := if k in patterns && patterns[k].Num? then Num(patterns[k].n + 1) else NaN], keys + [k])
  {
    assert (keys + [k])[..|keys|] == keys;
    assert forall j :: j in keys + [k] <==> j in keys || j == k;
  }

  /** When every usable draw holds at most six numbers, every draw lands in one
      of the buckets 0..5 and the six buckets add up to the number of usable draws. */
  lemma ConsecutiveBucketsTotal(draws: seq<Draw>)
    requires forall ns :: ns in ValidNumbers(draws) ==> |ns| <= 6
    ensures forall k :: k in KeysOf(draws, ConsecutiveKey) ==> 0 <= k <= 5
    ensures SumOfCounts(KeysOf(draws, ConsecutiveKey), 0, 5) == |ValidNumbers(draws)|
  {
    var keys := KeysOf(draws, ConsecutiveKey);
    KeysOfValid(draws, ConsecutiveKey);
    forall i | 0 <= i < |keys| ensures 0 <= keys[i] <= 5 {
      var ns := ValidNumbers(draws)[i];
      assert ns in ValidNumbers(draws);
      if |ns| > 0 {
        ConsecutivePairsBound(SortAscending(ns));
      }
    }
    SumOfCountsIsCountInRange(keys, 0, 5);
    CountInRangeBound(keys, 0, 5);
  }

  /** `Math.floor(sum / size) * size`: the first value of the bin holding sum. */
  function BinStart(sum: int, size: int): int
    requires size > 0
  {
    (sum / size) * size
  }

  lemma {:induction false} MulStep(a: int, b: int, c: int)
    requires a < b && c > 0
    ensures a * c + c <= b * c
    decreases b - a
  {
    if b > a + 1 {
      MulStep(a, b - 1, c);
    }
    assert (b - 1) * c + c == b * c;
  }

  /** A multiple of size is its own bin start. */
  lemma MultipleDiv(q: int, size: int)
    requires size > 0
    ensures (q * size) / size == q && (q * size) % size == 0
  {
    var x := q * size;
    var d, m := x / size, x % size;
    assert x == d * size + m && 0 <= m < size;
    if d < q {
      MulStep(d, q, size);
    } else if d > q {
      MulStep(q, d, size);
    }
  }

  /** A sum falls in the bin labelled `${start}-${start + size - 1}` exactly
      when start is BinStart(sum, size). */
  lemma BinStartIsBin(sum: int, size: int, start: int)
    requires size > 0
    requires start % size == 0
    ensures BinStart(sum, size) == start <==> start <= sum <= start + size - 1
    ensures BinStart(sum, size) % size == 0
    ensures BinStart(sum, size) <= sum < BinStart(sum, size) + size
  {
    var q, r := sum / size, sum % size;
    assert sum == q * size + r && 0 <= r < size;
    MultipleDiv(q, size);
    var p := start / size;
    assert start == p * size + start % size;
    assert start == p * size;
    if start <= sum <= start + size - 1 {
      if q < p {
        MulStep(q, p, size);
      } else if q > p {
        MulStep(p, q, size);
      }
    }
  }

  /** The bin starts of a sequence of sums. */
  function BinStarts(sums: seq<int>, size: int): (r: seq<int>)
    requires size > 0
    ensures |r| == |sums|
  {
    if sums == [] then [] else BinStarts(sums[..|sums| - 1], size) + [BinStart(sums[|sums| - 1], size)]
  }

  lemma {:induction false} BinCountIsRangeCount(sums: seq<int>, size: int, start: int)
    requires size > 0
    requires start % size == 0
    ensures Count(BinStarts(sums, size), start) == CountInRange(sums, start, start + size - 1)
  {
    if sums != [] {
      BinCountIsRangeCount(sums[..|sums| - 1], size, start);
      BinStartIsBin(sums[|sums| - 1], size, start);
    }
  }

  lemma {:induction false} BinStartsAreBins(sums: seq<int>, size: int)
    requires size > 0
    ensures forall k :: k in BinStarts(sums, size) ==> k % size == 0 && exists s :: s in sums && BinStart(s, size) == k
  {
    if sums != [] {
      var p := sums[..|sums| - 1];
      BinStartsAreBins(p, size);
      BinStartIsBin(sums[|sums| - 1], size, 0);
      assert forall s :: s in p ==> s in sums;
      assert sums[|sums| - 1] in sums;
    }
  }

  /** The histogram loop of `analyzeSumDistribution` (bin size 30) and of the
      sum chart (bin size 15): each key is a bin start, a multiple of the size,
      and counts the sums in its bin; the counts add up to the number of sums. */
  method SumHistogram(sums: seq<int>, size: int) returns (distribution: map<int, nat>)
    requires size > 0
    ensures IsHistogram(distribution, sums, size)
  {
    distribution := map[];
    var i := 0;
    while i < |sums|
      invariant 0 <= i <= |sums|
      invariant distribution == Tally(BinStarts(sums[..i], size))
    {
      assert sums[..i + 1][..i] == sums[..i];
      var rangeStart := BinStart(sums[i], size);
      assert BinStarts(sums[..i + 1], size) == BinStarts(sums[..i], size) + [rangeStart];
      distribution := distribution[rangeStart := (if rangeStart in distribution then distribution[rangeStart] else 0) + 1];
      i := i + 1;
    }
    assert sums[..i] == sums;
    HistogramMeaning(sums, size, distribution);
  }

  lemma {:induction false} BinStartOccurs(sums: seq<int>, size: int, s: int)
    requires size > 0 && s in sums
    ensures BinStart(s, size) in BinStarts(sums, size)
  {
    var p := sums[..|sums| - 1];
    assert sums == p + [sums[|sums| - 1]];
    if s != sums[|sums| - 1] {
      BinStartOccurs(p, size, s);
    }
  }

  /** A histogram of sums in bins of the given size: each key is a bin start
      that some sum falls in, a multiple of the size, and counts the sums in
      its bin; the counts add up to the number of sums. */
  ghost predicate IsHistogram(h: map<int, nat>, sums: seq<int>, size: int)
    requires size > 0
  {
    && (forall k :: k in h <==> exists s :: s in sums && BinStart(s, size) == k)
    && (forall k :: k in h ==> k % size == 0)
    && (forall k :: k in h ==> h[k] == CountInRange(sums, k, k + size - 1))
    && MapSum(h) == |sums|
  }

  /** The tally of the bin starts is the histogram SumHistogram promises. */
  lemma HistogramMeaning(sums: seq<int>, size: int, h: map<int, nat>)
    requires size > 0 && h == Tally(BinStarts(sums, size))
    ensures IsHistogram(h, sums, size)
  {
    HistogramKeys(sums, size);
    HistogramMods(sums, size);
    HistogramCounts(sums, size);
    TallyTotal(BinStarts(sums, size));
  }

  lemma HistogramKeys(sums: seq<int>, size: int)
    requires size > 0
    ensures forall k :: k in Tally(BinStarts(sums, size)) <==> exists s :: s in sums && BinStart(s, size) == k
  {
    var starts := BinStarts(sums, size);
    TallyCounts(starts);
    BinStartsAreBins(sums, size);
    forall s | s in sums ensures BinStart(s, size) in starts {
      BinStartOccurs(sums, size, s);
    }
  }

  lemma HistogramMods(sums: seq<int>, size: int)
    requires size > 0
    ensures forall k :: k in Tally(BinStarts(sums, size)) ==> k % size == 0
  {
    var starts := BinStarts(sums, size);
    TallyCounts(starts);
    BinStartsAreBins(sums, size);
  }

  lemma HistogramCounts(sums: seq<int>, size: int)
    requires size > 0
    ensures var h := Tally(BinStarts(sums, size));
      forall k :: k in h ==> h[k] == CountInRange(sums, k, k + size - 1)
  {
    var starts := BinStarts(sums, size);
    TallyCounts(starts);
    BinStartsAreBins(sums, size);
    forall k | k in starts ensures Count(starts, k) == CountInRange(sums, k, k + size - 1) {
      BinCountIsRangeCount(sums, size, k);
    }
  }

  lemma {:induction false} CountInRangePositive(xs: seq<int>, x: int, lo: int, hi: int)
    requires x in xs && lo <= x <= hi
    ensures CountInRange(xs, lo, hi) > 0
  {
    var p := xs[..|xs| - 1];
    if xs[|xs| - 1] != x {
      assert x in p;
      CountInRangePositive(p, x, lo, hi);
    }
  }

  /** The result of `analyzeSumDistribution`. `avg` is the exact quotient of the
      float average; `sums` is None where the source leaves the field out. */
  datatype SumAnalysis = SumAnalysis(min: int, max: int, avg: Ratio, distribution: map<int, nat>, sums: Option<seq<int>>)

  /** The sum of each usable draw, in order. */
  function DrawSums(draws: seq<Draw>): seq<int>
  {
    KeysOf(draws, Sum)
  }

  /** `analyzeSumDistribution`: with no usable draw, zeros and an empty histogram;
      otherwise the extreme sums, their average, and the histogram with bins of 30. */
  method AnalyzeSumDistribution(draws: seq<Draw>) returns (r: SumAnalysis)
    ensures |ValidNumbers(draws)| == 0 ==> r == SumAnalysis(0, 0, Ratio(0, 1), map[], None)
    ensures |ValidNumbers(draws)| > 0 ==>
              && r.sums == Some(DrawSums(draws))
              && |DrawSums(draws)| == |ValidNumbers(draws)|
              && r.min in DrawSums(draws) && r.max in DrawSums(draws)
              && (forall s :: s in DrawSums(draws) ==> r.min <= s <= r.max)
              && r.avg == Ratio(Sum(DrawSums(draws)), |ValidNumbers(draws)|)
              && IsHistogram(r.distribution, DrawSums(draws), 30)
  {
    var sums := DrawSums(draws);
    KeysOfValid(draws, Sum);
    if |sums| == 0 {
      return SumAnalysis(0, 0, Ratio(0, 1), map[], None);
    }
    var min := Min(sums);
    var max := Max(sums);
    var avg := Ratio(Sum(sums), |sums|);
    var rangeSize := 30;
    var distribution := SumHistogram(sums, rangeSize);
    r := SumAnalysis(min, max, avg, distribution, Some(sums));
  }

  /** The decade bucket of a number: 0 for `01-10` up to 5 for `51-60`. There is
      no range check, so a number below 1 counts as `01-10` and one above 60 as `51-60`. */
  function DecadeIndex(n: int): int
  {
    if n <= 10 then 0
    else if n <= 20 then 1
    else if n <= 30 then 2
    else if n <= 40 then 3
    else if n <= 50 then 4
    else 5
  }

  function DecadeIndexes(xs: seq<int>): seq<int>
  {
    if xs == [] then [] else DecadeIndexes(xs[..|xs| - 1]) + [DecadeIndex(xs[|xs| - 1])]
  }

  lemma {:induction false} DecadeIndexesInRange(xs: seq<int>)
    ensures |DecadeIndexes(xs)| == |xs|
    ensures forall b :: b in DecadeIndexes(xs) ==> 0 <= b <= 5
  {
    if xs != [] {
      DecadeIndexesInRange(xs[..|xs| - 1]);
    }
  }

  /** d[0] + ... + d[5]. */
  function SixSum(d: seq<nat>): nat
    requires |d| == 6
  {
    d[0] + d[1] + d[2] + d[3] + d[4] + d[5]
  }

  /** `analyzeDecadeDistribution`: the six buckets `01-10` .. `51-60` (as
      indexes 0..5) count the entries of the usable draws, and `total` counts
      them all, so the buckets add up to `total`. */
  method AnalyzeDecadeDistribution(draws: seq<Draw>) returns (decades: seq<nat>, total: nat)
    ensures |decades| == 6
    ensures total == |AllNumbers(draws)|
    ensures forall b :: 0 <= b < 6 ==> decades[b] == Count(DecadeIndexes(AllNumbers(draws)), b)
    ensures SixSum(decades) == total
  {
    decades := [0, 0, 0, 0, 0, 0];
    total := 0;
    assert AllNumbers(draws[..0]) == [];
    var d := 0;
    while d < |draws|
      invariant 0 <= d <= |draws|
      invariant |decades| == 6
      invariant total == |AllNumbers(draws[..d])|
      invariant forall b :: 0 <= b < 6 ==> decades[b] == Count(DecadeIndexes(AllNumbers(draws[..d])), b)
    {
      assert draws[..d + 1][..d] == draws[..d];
      if draws[d].numbers.Some? {
        var nums := draws[d].numbers.value;
        var seen := AllNumbers(draws[..d]);
        var j := 0;
        assert seen + nums[..0] == seen;
        while j < |nums|
          invariant 0 <= j <= |nums|
          invariant |decades| == 6
          invariant total == |seen + nums[..j]|
          invariant forall b :: 0 <= b < 6 ==> decades[b] == Count(DecadeIndexes(seen + nums[..j]), b)
        {
          var num := nums[j];
          assert (seen + nums[..j + 1])[..|seen + nums[..j + 1]| - 1] == seen + nums[..j];
          total := total + 1;
          var b := DecadeIndex(num);
          decades := decades[b := decades[b] + 1];
          j := j + 1;
        }
        assert nums[..j] == nums;
        assert AllNumbers(draws[..d + 1]) == seen + nums;
      } else {
        assert AllNumbers(draws[..d + 1]) == AllNumbers(draws[..d]);
      }
      d := d + 1;
    }
    assert draws[..d] == draws;
    var idx := DecadeIndexes(AllNumbers(draws));
    DecadeIndexesInRange(AllNumbers(draws));
    SumOfCountsIsCountInRange(idx, 0, 5);
    CountInRangeBound(idx, 0, 5);
  }
}
