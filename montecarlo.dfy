/** The Monte Carlo generator: `weightedRandomSelection` draws six numbers
    with probability proportional to their frequency, `calculateCombinationScore`
    rates a combination, and `monteCarloGeneration` keeps the first distinct
    combinations. Weights are exact reals and `Math.random()` is a stream of
    reals in [0, 1). */
module MonteCarlo {
  import opened Seqs
  import opened Sorting
  import opened Draws
  import opened Frequency
  import opened Picking

  /** A weight table: every key 1..60 with a weight of at least 0. */
  ghost predicate ValidWeights(weights: map<int, real>)
  {
    HasDomainKeys(weights) && forall n :: n in weights ==> weights[n] >= 0.0
  }

  /** Every key of keys has a weight of at least 0. */
  predicate Weighted(keys: seq<int>, weights: map<int, real>)
  {
    forall i :: 0 <= i < |keys| ==> keys[i] in weights && weights[keys[i]] >= 0.0
  }

  /** `Object.values(available).reduce((a, b) => a + b, 0)` for the keys left in available. */
  function Weight(keys: seq<int>, weights: map<int, real>): (w: real)
    requires Weighted(keys, weights)
    ensures w >= 0.0
    ensures keys == [] ==> w == 0.0
  {
    if keys == [] then 0.0 else weights[keys[0]] + Weight(keys[1..], weights)
  }

  /** The entry scan of `weightedRandomSelection`: subtract each weight from
      random, in key order, and stop at the first entry where it drops to 0 or
      below. With 0 <= random <= the total weight the scan always stops. */
  function Pick(keys: seq<int>, weights: map<int, real>, random: real): (j: nat)
    requires |keys| > 0 && Weighted(keys, weights)
    requires 0.0 <= random <= Weight(keys, weights)
    ensures j < |keys|
  {
    if random - weights[keys[0]] <= 0.0 then 0
    else
      assert keys[1..] != [];
      1 + Pick(keys[1..], weights, random - weights[keys[0]])
  }

  /** Sum of the weights of the first j keys. */
  function PrefixWeight(keys: seq<int>, weights: map<int, real>, j: nat): real
    requires j <= |keys| && Weighted(keys, weights)
  {
    Weight(keys[..j], weights)
  }

  /** The scan stops at the first key whose running weight total reaches
      random: the cumulative-distribution rule. */
  lemma {:induction false} PickIsCumulative(keys: seq<int>, weights: map<int, real>, random: real)
    requires |keys| > 0 && Weighted(keys, weights)
    requires 0.0 <= random <= Weight(keys, weights)
    ensures var j := Pick(keys, weights, random);
            && random <= PrefixWeight(keys, weights, j + 1)
            && (j > 0 ==> PrefixWeight(keys, weights, j) < random)
  {
    var j := Pick(keys, weights, random);
    var w := weights[keys[0]];
    assert keys[..1][1..] == [];
    if random - w > 0.0 {
      PickIsCumulative(keys[1..], weights, random - w);
      assert keys[..j + 1][1..] == keys[1..][..j];
      assert keys[..j][1..] == keys[1..][..j - 1];
    }
  }

  /** A positive random value never lands on a key of weight 0: a number that
      was never drawn is not chosen unless `Math.random()` returns exactly 0. */
  lemma {:induction false} PickHasWeight(keys: seq<int>, weights: map<int, real>, random: real)
    requires |keys| > 0 && Weighted(keys, weights)
    requires 0.0 < random <= Weight(keys, weights)
    ensures weights[keys[Pick(keys, weights, random)]] > 0.0
  {
    var w := weights[keys[0]];
    if random - w > 0.0 {
      PickHasWeight(keys[1..], weights, random - w);
    }
  }

  lemma ScaledInRange(u: real, total: real)
    requires 0.0 <= u < 1.0 && total >= 0.0
    ensures 0.0 <= u * total <= total
  {
  }

  /** `Math.random() * totalWeight`: a value between 0 and totalWeight. */
  function Scale(u: real, total: real): (r: real)
    requires 0.0 <= u < 1.0 && total >= 0.0
    ensures 0.0 <= r <= total
  {
    ScaledInRange(u, total);
    u * total
  }

  /** The positions the successive scans stop at: scan t reads us[t] and
      runs over the keys not yet selected. */
  function Scans(keys: seq<int>, weights: map<int, real>, us: seq<real>, t: nat, count: nat): (js: seq<nat>)
    requires Weighted(keys, weights)
    requires UnitReals(us) && t + count <= |us| && count <= |keys|
    ensures ValidPicks(js, |keys|) && |js| == count
    decreases count
  {
    if count == 0 then []
    else
      var j := Pick(keys, weights, Scale(us[t], Weight(keys, weights)));
      RemoveAtWeighted(keys, weights, j);
      [j] + Scans(RemoveAt(keys, j), weights, us, t + 1, count - 1)
  }

  /** Each pick is a position among the keys still left. */
  predicate ValidPicks(js: seq<nat>, n: nat)
  {
    |js| <= n && forall i :: 0 <= i < |js| ==> js[i] < n - i
  }

  /** The keys taken, in order, when the successive picks are the positions js
      among the keys still left: the `selected.push(...)` / `delete
      available[num]` pair of `weightedRandomSelection`. */
  function Choose(keys: seq<int>, js: seq<nat>): seq<int>
    requires ValidPicks(js, |keys|)
    decreases |js|
  {
    if js == [] then []
    else [keys[js[0]]] + Choose(RemoveAt(keys, js[0]), js[1..])
  }

  /** What `weightedRandomSelection(weights, count)` returns when the keys are
      keys and `Math.random()` yields us[t], us[t + 1], .... */
  function Select(keys: seq<int>, weights: map<int, real>, us: seq<real>, t: nat, count: nat): seq<int>
    requires Weighted(keys, weights)
    requires UnitReals(us) && t + count <= |us| && count <= |keys|
  {
    Choose(keys, Scans(keys, weights, us, t, count))
  }

  /** Deleting an entry keeps the rest weighted. */
  lemma RemoveAtWeighted(keys: seq<int>, weights: map<int, real>, j: nat)
    requires Weighted(keys, weights) && j < |keys|
    ensures Weighted(RemoveAt(keys, j), weights)
  {
    var r := RemoveAt(keys, j);
    assert forall i :: 0 <= i < |r| ==> r[i] == if i < j then keys[i] else keys[i + 1];
  }

  /** Whatever the picks, the keys taken are distinct keys, one per pick. */
  lemma {:induction false} ChooseFacts(keys: seq<int>, js: seq<nat>)
    requires ValidPicks(js, |keys|) && Distinct(keys)
    ensures var r := Choose(keys, js);
            |r| == |js| && Distinct(r) && forall x :: x in r ==> x in keys
    decreases |js|
  {
    if js != [] {
      var j := js[0];
      var rest := Choose(RemoveAt(keys, j), js[1..]);
      RemoveAtDistinct(keys, j);
      ChooseFacts(RemoveAt(keys, j), js[1..]);
      var r := [keys[j]] + rest;
      assert keys[j] !in rest;
      forall a, b | 0 <= a < b < |r| ensures r[a] != r[b] {
        if a == 0 {
          assert r[b] in rest;
        } else {
          assert r[a] == rest[a - 1] && r[b] == rest[b - 1];
        }
      }
      forall x | x in r ensures x in keys {
        if x != keys[j] {
          assert x in rest;
        }
      }
    }
  }

  /** One scan over the entries of available: the index it stops at. */
  method ScanEntries(available: seq<int>, weights: map<int, real>, random0: real) returns (k: nat)
    requires |available| > 0 && Weighted(available, weights)
    requires 0.0 <= random0 <= Weight(available, weights)
    ensures k == Pick(available, weights, random0)
  {
    var random := random0;
    k := 0;
    while true
      invariant k < |available|
      invariant 0.0 <= random <= Weight(available[k..], weights)
      invariant Pick(available, weights, random0) == k + Pick(available[k..], weights, random)
      decreases |available| - k
    {
      assert available[k..][0] == available[k];
      assert available[k..][1..] == available[k + 1..];
      random := random - weights[available[k]];
      if random <= 0.0 {
        break;
      }
      k := k + 1;
    }
  }

  /** One round of the selection loop: total the remaining weights, scale
      the random value and scan the entries. */
  method SelectOne(available: seq<int>, weights: map<int, real>, u: real) returns (k: nat)
    requires |available| > 0 && Weighted(available, weights)
    requires 0.0 <= u < 1.0
    ensures k == Pick(available, weights, Scale(u, Weight(available, weights)))
  {
    var totalWeight := Weight(available, weights);
    var random := Scale(u, totalWeight);
    k := ScanEntries(available, weights, random);
  }

  /** One more round of the loop: the scan at t picks k, whose key is taken. */
  lemma SelectStep(keys: seq<int>, weights: map<int, real>, us: seq<real>, t: nat, n: nat, k: nat)
    requires Weighted(keys, weights)
    requires UnitReals(us) && t + n <= |us| && 0 < n <= |keys|
    requires k == Pick(keys, weights, Scale(us[t], Weight(keys, weights)))
    ensures Weighted(RemoveAt(keys, k), weights)
    ensures Select(keys, weights, us, t, n) == [keys[k]] + Select(RemoveAt(keys, k), weights, us, t + 1, n - 1)
  {
    RemoveAtWeighted(keys, weights, k);
    var js := Scans(keys, weights, us, t, n);
    assert js == [k] + Scans(RemoveAt(keys, k), weights, us, t + 1, n - 1);
    assert js[1..] == Scans(RemoveAt(keys, k), weights, us, t + 1, n - 1);
  }

  /** `weightedRandomSelection(weights, count)`, `Math.random()` reading us:
      `available` starts as a copy of the 60 weighted keys, in key order. */
  method WeightedRandomSelection(weights: map<int, real>, count: nat, us: seq<real>) returns (selected: seq<int>)
    requires ValidWeights(weights)
    requires count <= Highest
    requires UnitReals(us) && |us| >= count
    ensures Weighted(Range(Lowest, Highest), weights)
    ensures selected == Select(Range(Lowest, Highest), weights, us, 0, count)
  {
    RangeWeighted(weights);
    selected := SelectLoop(Range(Lowest, Highest), weights, us, count);
  }

  /** The `while (selected.length < count)` loop over the keys in available. */
  method SelectLoop(keys: seq<int>, weights: map<int, real>, us: seq<real>, count: nat) returns (selected: seq<int>)
    requires Weighted(keys, weights)
    requires UnitReals(us) && count <= |us| && count <= |keys|
    ensures selected == Select(keys, weights, us, 0, count)
  {
    selected := [];
    var available := keys;
    var t := 0;
    while |selected| < count
      invariant t == |selected| <= count
      invariant |available| == |keys| - t
      invariant Weighted(available, weights)
      invariant selected + Select(available, weights, us, t, count - t) == Select(keys, weights, us, 0, count)
      decreases count - t
    {
      var k := SelectOne(available, weights, us[t]);
      SelectStep(available, weights, us, t, count - t, k);
      selected := selected + [available[k]];
      available := RemoveAt(available, k);
      t := t + 1;
    }
  }

  /** `weights[i] = frequency[i] / totalFreq` for i in 1..60. */
  function Weights(frequency: map<int, nat>): (w: map<int, real>)
    requires HasDomainKeys(frequency)
    requires TableSum(frequency, Highest) > 0
    ensures ValidWeights(w)
  {
    var total := TableSum(frequency, Highest) as real;
    map n: int | Lowest <= n <= Highest :: frequency[n] as real / total
  }

  /** A weight is positive exactly when its number has been drawn. */
  lemma WeightsPositive(frequency: map<int, nat>, n: int)
    requires HasDomainKeys(frequency) && TableSum(frequency, Highest) > 0
    requires InDomain(n)
    ensures Weights(frequency)[n] > 0.0 <==> frequency[n] > 0
  {
    var total := TableSum(frequency, Highest) as real;
    assert Weights(frequency)[n] == frequency[n] as real / total;
    QuotientPositive(frequency[n] as real, total);
  }

  lemma QuotientPositive(a: real, total: real)
    requires a >= 0.0 && total > 0.0
    ensures a / total > 0.0 <==> a > 0.0
  {
    if a > 0.0 {
      assert a / total * total == a;
    }
  }

  /** The sum of the frequencies of the numbers of combo. */
  function FrequencySum(combo: seq<int>, frequency: map<int, nat>): nat
    requires forall i :: 0 <= i < |combo| ==> combo[i] in frequency
  {
    if combo == [] then 0 else FrequencySum(combo[..|combo| - 1], frequency) + frequency[combo[|combo| - 1]]
  }

  /** `Math.min(100, Math.round(1000 * S / T))` in integers, where S is the
      combination's frequency sum and T the total frequency: rounding half up
      is `floor(x + 1/2)`. */
  function Confidence(s: nat, total: nat): int
    requires total > 0
  {
    var rounded := (2000 * s + total) / (2 * total);
    if rounded < 100 then rounded else 100
  }

  /** The confidence is the nearest integer to 1000 * S / T (halves rounded
      up), capped at 100. */
  lemma ConfidenceMeaning(s: nat, total: nat)
    requires total > 0
    ensures 0 <= Confidence(s, total) <= 100
    ensures Confidence(s, total) < 100 ==>
              2 * total * Confidence(s, total) <= 2000 * s + total < 2 * total * (Confidence(s, total) + 1)
    ensures Confidence(s, total) == 100 <==> 2000 * s + total >= 200 * total
  {
    var q := (2000 * s + total) / (2 * total);
    var m := (2000 * s + total) % (2 * total);
    assert 2000 * s + total == 2 * total * q + m;
    if q >= 100 {
      assert 2 * total * q >= 2 * total * 100;
    } else {
      assert 2 * total * (q + 1) >= 2 * total * 100 ==> q + 1 >= 100;
    }
  }

  lemma FractionBelowOne(a: real, b: real)
    requires 0.0 <= a < b
    ensures 0.0 <= a / b < 1.0
  {
    assert a / b * b == a;
  }

  /** `Math.round(x)` for a non-negative x is `floor(x + 0.5)`; for
      x = 1000 * s / total it is the integer quotient of Confidence. */
  lemma RoundIsQuotient(s: nat, total: nat)
    requires total > 0
    ensures ((1000.0 * s as real / total as real) + 0.5).Floor == (2000 * s + total) / (2 * total)
  {
    var q := (2000 * s + total) / (2 * total);
    var m := (2000 * s + total) % (2 * total);
    assert 2000 * s + total == 2 * total * q + m;
    var t := total as real;
    var x := (1000.0 * s as real / t) + 0.5;
    assert x == (2000 * s + total) as real / (2.0 * t);
    assert (2000 * s + total) as real == 2.0 * t * q as real + m as real;
    assert x == q as real + m as real / (2.0 * t);
    FractionBelowOne(m as real, 2.0 * t);
  }

  lemma DivideSum(a: real, b: real, c: real)
    requires c > 0.0
    ensures a / c + b / c == (a + b) / c
  {
  }

  /** (score / 6) * 100 with score = s / (t / 60) is 1000 * s / t. */
  lemma ScoreScale(s: real, t: real)
    requires t > 0.0
    ensures ((s / (t / 60.0)) / 6.0) * 100.0 == 1000.0 * s / t
  {
    assert s / (t / 60.0) == 60.0 * s / t;
  }

  /** `calculateCombinationScore(combo, frequency, totalFreq)`: add up
      frequency[num] / avgFreq over the combination, then round
      (score / 6) * 100 and cap it at 100. */
  method CalculateCombinationScore(combo: seq<int>, frequency: map<int, nat>, totalFreq: nat) returns (confidence: int)
    requires forall i :: 0 <= i < |combo| ==> combo[i] in frequency
    requires |combo| == 6 && totalFreq > 0
    ensures confidence == Confidence(FrequencySum(combo, frequency), totalFreq)
  {
    var avgFreq := totalFreq as real / 60.0;
    var score := 0.0;
    for i := 0 to |combo|
      invariant score == FrequencySum(combo[..i], frequency) as real / avgFreq
    {
      assert combo[..i + 1][..i] == combo[..i];
      DivideSum(FrequencySum(combo[..i], frequency) as real, frequency[combo[i]] as real, avgFreq);
      score := score + frequency[combo[i]] as real / avgFreq;
    }
    assert combo[..|combo|] == combo;
    var s := FrequencySum(combo, frequency);
    ScoreScale(s as real, totalFreq as real);
    RoundIsQuotient(s, totalFreq);
    var rounded := ((score / 6.0) * 100.0 + 0.5).Floor;
    confidence := if 100 < rounded then 100 else rounded;
  }

  /** One result of `monteCarloGeneration`. */
  datatype Scored = Scored(numbers: seq<int>, methodName: string, confidence: int)

  function NumbersOf(rs: seq<Scored>): seq<seq<int>>
  {
    if rs == [] then [] else NumbersOf(rs[..|rs| - 1]) + [rs[|rs| - 1].numbers]
  }

  /** A sorted key: six numbers of 1..60 in strictly ascending order. */
  predicate KeyShape(key: seq<int>)
  {
    && |key| == 6
    && (forall i :: 0 <= i < 6 ==> InDomain(key[i]))
    && (forall a, b :: 0 <= a < b < 6 ==> key[a] < key[b])
  }

  /** The sorted key of simulation sim: the six weighted picks, sorted. */
  function SimulationKey(weights: map<int, real>, roll: seq<real>): (key: seq<int>)
    requires ValidWeights(weights) && UnitReals(roll) && |roll| >= 6
  {
    RangeWeighted(weights);
    SortAscending(Select(Range(Lowest, Highest), weights, roll, 0, 6))
  }

  /** The 60 keys of a weight table, in order. */
  lemma RangeWeighted(weights: map<int, real>)
    requires ValidWeights(weights)
    ensures Weighted(Range(Lowest, Highest), weights)
  {
    var r := Range(Lowest, Highest);
    forall i | 0 <= i < |r| ensures r[i] in weights && weights[r[i]] >= 0.0 {
      assert InDomain(r[i]);
    }
  }

  /** The keys 1..60 are distinct numbers of 1..60. */
  lemma DomainKeys()
    ensures var r := Range(Lowest, Highest);
            Distinct(r) && forall x :: x in r ==> InDomain(x)
  {
    var r := Range(Lowest, Highest);
    forall x | x in r ensures InDomain(x) {
      var k :| 0 <= k < |r| && r[k] == x;
    }
  }

  /** Six weighted picks among 1..60 are six distinct numbers of 1..60. */
  lemma PicksInDomain(weights: map<int, real>, us: seq<real>)
    requires ValidWeights(weights) && UnitReals(us) && |us| >= 6
    ensures Weighted(Range(Lowest, Highest), weights)
    ensures var picks := Select(Range(Lowest, Highest), weights, us, 0, 6);
            |picks| == 6 && Distinct(picks) && forall i :: 0 <= i < |picks| ==> InDomain(picks[i])
  {
    RangeWeighted(weights);
    DomainKeys();
    var r := Range(Lowest, Highest);
    var picks := Select(r, weights, us, 0, 6);
    ChooseFacts(r, Scans(r, weights, us, 0, 6));
    forall i | 0 <= i < |picks| ensures InDomain(picks[i]) {
      assert picks[i] in picks;
    }
  }

  /** Sorting keeps the numbers, so it keeps them in 1..60. */
  lemma SortedInDomain(s: seq<int>)
    requires forall i :: 0 <= i < |s| ==> InDomain(s[i])
    ensures var r := SortAscending(s);
            |r| == |s| && forall i :: 0 <= i < |r| ==> InDomain(r[i])
  {
    var r := SortAscending(s);
    forall i | 0 <= i < |r| ensures InDomain(r[i]) {
      assert r[i] in multiset(s);
      var k :| 0 <= k < |s| && s[k] == r[i];
    }
  }

  /** A simulated key is six distinct numbers in 1..60, ascending. */
  lemma KeyFacts(weights: map<int, real>, roll: seq<real>)
    requires ValidWeights(weights) && UnitReals(roll) && |roll| >= 6
    ensures KeyShape(SimulationKey(weights, roll))
  {
    PicksInDomain(weights, roll);
    var picks := Select(Range(Lowest, Highest), weights, roll, 0, 6);
    SortedInDomain(picks);
    SortedStrictly(picks);
  }

  /** The random streams the generator reads: one per simulation. */
  ghost predicate Rolls(rolls: seq<seq<real>>, sims: nat)
  {
    |rolls| >= sims && forall s :: 0 <= s < |rolls| ==> UnitReals(rolls[s]) && |rolls[s]| >= 6
  }

  /** The keys of the first sims simulations, in order. */
  function SimulationKeys(weights: map<int, real>, rolls: seq<seq<real>>, sims: nat): (ks: seq<seq<int>>)
    requires ValidWeights(weights) && Rolls(rolls, sims)
    ensures |ks| == sims && forall s :: 0 <= s < sims ==> ks[s] == SimulationKey(weights, rolls[s])
  {
    seq(sims, s requires 0 <= s < sims => SimulationKey(weights, rolls[s]))
  }

  /** Every simulated key is a sorted key. */
  lemma SimulationKeysShaped(weights: map<int, real>, rolls: seq<seq<real>>, sims: nat)
    requires ValidWeights(weights) && Rolls(rolls, sims)
    ensures forall s :: 0 <= s < sims ==> KeyShape(SimulationKeys(weights, rolls, sims)[s])
  {
    forall s | 0 <= s < sims ensures KeyShape(SimulationKeys(weights, rolls, sims)[s]) {
      KeyFacts(weights, rolls[s]);
    }
  }

  /** `calculateCombinationScore(key, frequency, totalFreq)`. */
  function Score(frequency: map<int, nat>, key: seq<int>): int
    requires HasDomainKeys(frequency) && TableSum(frequency, Highest) > 0
    requires KeyShape(key)
  {
    Confidence(FrequencySum(key, frequency), TableSum(frequency, Highest))
  }

  /** The combinations kept from the simulated keys ks: a key not seen
      before is appended while fewer than limit results exist. */
  function Collect(frequency: map<int, nat>, ks: seq<seq<int>>, limit: int): seq<Scored>
    requires HasDomainKeys(frequency) && TableSum(frequency, Highest) > 0
    requires forall s :: 0 <= s < |ks| ==> KeyShape(ks[s])
  {
    if ks == [] then []
    else
      var prev := Collect(frequency, ks[..|ks| - 1], limit);
      var key := ks[|ks| - 1];
      if |prev| >= limit || key in NumbersOf(prev) then prev
      else prev + [Scored(key, "Monte Carlo", Score(frequency, key))]
  }

  /** `monteCarloGeneration(frequency, numSimulations, numCombinations)`
      when simulation sim reads the stream rolls[sim]. */
  function MonteCarloResults(frequency: map<int, nat>, numSimulations: int, numCombinations: int, rolls: seq<seq<real>>): seq<Scored>
    requires HasDomainKeys(frequency) && TableSum(frequency, Highest) > 0
    requires Rolls(rolls, if numSimulations < 0 then 0 else numSimulations)
  {
    var sims := if numSimulations < 0 then 0 else numSimulations;
    var weights := Weights(frequency);
    SimulationKeysShaped(weights, rolls, sims);
    Slice(Collect(frequency, SimulationKeys(weights, rolls, sims), numCombinations), 0, numCombinations)
  }

  lemma NumbersOfSnoc(rs: seq<Scored>, r: Scored)
    ensures NumbersOf(rs + [r]) == NumbersOf(rs) + [r.numbers]
  {
    assert (rs + [r])[..|rs|] == rs;
  }

  lemma {:induction false} NumbersOfShape(rs: seq<Scored>)
    ensures |NumbersOf(rs)| == |rs|
    ensures forall i :: 0 <= i < |rs| ==> NumbersOf(rs)[i] == rs[i].numbers
  {
    if rs != [] {
      NumbersOfShape(rs[..|rs| - 1]);
    }
  }

  /** Once limit results exist, later keys change nothing. */
  lemma {:induction false} CollectSaturates(frequency: map<int, nat>, ks: seq<seq<int>>, k: nat, j: nat, limit: int)
    requires HasDomainKeys(frequency) && TableSum(frequency, Highest) > 0
    requires forall s :: 0 <= s < |ks| ==> KeyShape(ks[s])
    requires k <= j <= |ks|
    requires |Collect(frequency, ks[..k], limit)| >= limit
    ensures Collect(frequency, ks[..j], limit) == Collect(frequency, ks[..k], limit)
    decreases j
  {
    if j > k {
      CollectSaturates(frequency, ks, k, j - 1, limit);
      assert ks[..j][..j - 1] == ks[..j - 1];
    }
  }

  /** One more simulated key. */
  lemma CollectSnoc(frequency: map<int, nat>, ks: seq<seq<int>>, key: seq<int>, limit: int)
    requires HasDomainKeys(frequency) && TableSum(frequency, Highest) > 0
    requires forall s :: 0 <= s < |ks| ==> KeyShape(ks[s])
    requires KeyShape(key)
    ensures forall s :: 0 <= s < |ks + [key]| ==> KeyShape((ks + [key])[s])
    ensures var prev := Collect(frequency, ks, limit);
            Collect(frequency, ks + [key], limit)
            == if |prev| >= limit || key in NumbersOf(prev) then prev
               else prev + [Scored(key, "Monte Carlo", Score(frequency, key))]
  {
    assert (ks + [key])[..|ks|] == ks;
  }

  /** What the results kept from the keys ks are: at most one per key and at
      most limit (none when limit is not positive), pairwise different keys,
      each a sorted key of ks tagged 'Monte Carlo' with its score, and every
      key of ks among them unless the limit was reached. */
  ghost predicate Collected(frequency: map<int, nat>, ks: seq<seq<int>>, limit: int, rs: seq<Scored>)
    requires HasDomainKeys(frequency) && TableSum(frequency, Highest) > 0
    requires forall s :: 0 <= s < |ks| ==> KeyShape(ks[s])
  {
    && |rs| <= |ks|
    && (|rs| <= limit || rs == [])
    && Distinct(NumbersOf(rs))
    && (forall i :: 0 <= i < |rs| ==>
          && rs[i].methodName == "Monte Carlo"
          && rs[i].numbers in ks
          && KeyShape(rs[i].numbers)
          && rs[i].confidence == Score(frequency, rs[i].numbers))
    && (|rs| < limit ==> forall s :: 0 <= s < |ks| ==> ks[s] in NumbersOf(rs))
  }

  lemma CollectFacts(frequency: map<int, nat>, ks: seq<seq<int>>, limit: int)
    requires HasDomainKeys(frequency) && TableSum(frequency, Highest) > 0
    requires forall s :: 0 <= s < |ks| ==> KeyShape(ks[s])
    ensures Collected(frequency, ks, limit, Collect(frequency, ks, limit))
  {
    CollectKept(frequency, ks, limit);
    CollectDistinct(frequency, ks, limit);
    CollectComplete(frequency, ks, limit);
  }

  /** The results come from ks, one per key at most, within the limit. */
  lemma {:induction false} CollectKept(frequency: map<int, nat>, ks: seq<seq<int>>, limit: int)
    requires HasDomainKeys(frequency) && TableSum(frequency, Highest) > 0
    requires forall s :: 0 <= s < |ks| ==> KeyShape(ks[s])
    ensures var rs := Collect(frequency, ks, limit);
            && |rs| <= |ks|
            && (|rs| <= limit || rs == [])
            && (forall i :: 0 <= i < |rs| ==>
                  && rs[i].methodName == "Monte Carlo"
                  && rs[i].numbers in ks
                  && KeyShape(rs[i].numbers)
                  && rs[i].confidence == Score(frequency, rs[i].numbers))
  {
    if ks != [] {
      var p := ks[..|ks| - 1];
      CollectKept(frequency, p, limit);
      var prev := Collect(frequency, p, limit);
      assert forall i :: 0 <= i < |prev| ==> prev[i].numbers in p;
      assert forall x :: x in p ==> x in ks;
    }
  }

  /** No key is kept twice. */
  lemma {:induction false} CollectDistinct(frequency: map<int, nat>, ks: seq<seq<int>>, limit: int)
    requires HasDomainKeys(frequency) && TableSum(frequency, Highest) > 0
    requires forall s :: 0 <= s < |ks| ==> KeyShape(ks[s])
    ensures Distinct(NumbersOf(Collect(frequency, ks, limit)))
  {
    if ks != [] {
      var p := ks[..|ks| - 1];
      var key := ks[|ks| - 1];
      CollectDistinct(frequency, p, limit);
      var prev := Collect(frequency, p, limit);
      if |prev| < limit && key !in NumbersOf(prev) {
        NumbersOfSnoc(prev, Scored(key, "Monte Carlo", Score(frequency, key)));
        DistinctSnoc(NumbersOf(prev), key);
      }
    }
  }

  /** Below the limit every key of ks has been kept. */
  lemma {:induction false} CollectComplete(frequency: map<int, nat>, ks: seq<seq<int>>, limit: int)
    requires HasDomainKeys(frequency) && TableSum(frequency, Highest) > 0
    requires forall s :: 0 <= s < |ks| ==> KeyShape(ks[s])
    ensures var rs := Collect(frequency, ks, limit);
            |rs| < limit ==> forall s :: 0 <= s < |ks| ==> ks[s] in NumbersOf(rs)
  {
    if ks != [] {
      var p := ks[..|ks| - 1];
      var key := ks[|ks| - 1];
      CollectComplete(frequency, p, limit);
      var prev := Collect(frequency, p, limit);
      var rs := Collect(frequency, ks, limit);
      if |rs| < limit {
        assert |prev| < limit;
        assert key in NumbersOf(rs) by {
          if key !in NumbersOf(prev) {
            NumbersOfSnoc(prev, Scored(key, "Monte Carlo", Score(frequency, key)));
          }
        }
        assert forall x :: x in NumbersOf(prev) ==> x in NumbersOf(rs) by {
          if rs != prev {
            NumbersOfSnoc(prev, Scored(key, "Monte Carlo", Score(frequency, key)));
          }
        }
        forall s | 0 <= s < |ks| ensures ks[s] in NumbersOf(rs) {
          if s < |p| {
            assert ks[s] == p[s] && p[s] in NumbersOf(prev);
          } else {
            assert ks[s] == key;
          }
        }
      }
    }
  }

  lemma DistinctSnoc<T>(s: seq<T>, x: T)
    requires Distinct(s) && x !in s
    ensures Distinct(s + [x])
  {
    var t := s + [x];
    forall i, j | 0 <= i < j < |t| ensures t[i] != t[j] {
      if j == |s| {
        assert t[i] in s;
      }
    }
  }

  /** `monteCarloGeneration` returns all the kept combinations: the final
      `slice(0, numCombinations)` removes nothing. */
  lemma ResultsAreCollected(frequency: map<int, nat>, numSimulations: int, numCombinations: int, rolls: seq<seq<real>>)
    requires HasDomainKeys(frequency) && TableSum(frequency, Highest) > 0
    requires Rolls(rolls, if numSimulations < 0 then 0 else numSimulations)
    ensures var ks := SimulationKeys(Weights(frequency), rolls, if numSimulations < 0 then 0 else numSimulations);
            && (forall s :: 0 <= s < |ks| ==> KeyShape(ks[s]))
            && Slice(Collect(frequency, ks, numCombinations), 0, numCombinations) == Collect(frequency, ks, numCombinations)
            && MonteCarloResults(frequency, numSimulations, numCombinations, rolls) == Collect(frequency, ks, numCombinations)
  {
    var sims := if numSimulations < 0 then 0 else numSimulations;
    var ks := SimulationKeys(Weights(frequency), rolls, sims);
    SimulationKeysShaped(Weights(frequency), rolls, sims);
    var all := Collect(frequency, ks, numCombinations);
    CollectKept(frequency, ks, numCombinations);
    SliceWhole(all, numCombinations);
  }

  /** A head at least as long as the sequence is the whole sequence. */
  lemma SliceWhole<T>(s: seq<T>, n: int)
    requires |s| <= n || s == []
    ensures Slice(s, 0, n) == s
  {
    if s != [] {
      assert s[0..|s|] == s;
    }
  }

  /** The promises of `monteCarloGeneration`: at most numCombinations results
      and at most one per simulation, pairwise different keys, each six
      distinct sorted numbers of 1..60 drawn by one of the simulations, tagged
      'Monte Carlo', with a confidence between 0 and 100; and every simulated
      key is present when fewer results than requested came back. */
  lemma MonteCarloFacts(frequency: map<int, nat>, numSimulations: int, numCombinations: int, rolls: seq<seq<real>>)
    requires HasDomainKeys(frequency) && TableSum(frequency, Highest) > 0
    requires Rolls(rolls, if numSimulations < 0 then 0 else numSimulations)
    ensures var ks := SimulationKeys(Weights(frequency), rolls, if numSimulations < 0 then 0 else numSimulations);
            var rs := MonteCarloResults(frequency, numSimulations, numCombinations, rolls);
            && (forall s :: 0 <= s < |ks| ==> KeyShape(ks[s]))
            && Collected(frequency, ks, numCombinations, rs)
            && (forall i :: 0 <= i < |rs| ==> 0 <= rs[i].confidence <= 100)
  {
    var sims := if numSimulations < 0 then 0 else numSimulations;
    var ks := SimulationKeys(Weights(frequency), rolls, sims);
    ResultsAreCollected(frequency, numSimulations, numCombinations, rolls);
    var all := Collect(frequency, ks, numCombinations);
    CollectFacts(frequency, ks, numCombinations);
    forall i | 0 <= i < |all| ensures 0 <= all[i].confidence <= 100 {
      ScoreBounds(frequency, all[i].numbers);
    }
  }

  /** A score is a percentage. */
  lemma ScoreBounds(frequency: map<int, nat>, key: seq<int>)
    requires HasDomainKeys(frequency) && TableSum(frequency, Highest) > 0
    requires KeyShape(key)
    ensures 0 <= Score(frequency, key) <= 100
  {
    ConfidenceMeaning(FrequencySum(key, frequency), TableSum(frequency, Highest));
  }

  /** The weight loop of `monteCarloGeneration`. */
  method BuildWeights(frequency: map<int, nat>, totalFreq: nat) returns (weights: map<int, real>)
    requires HasDomainKeys(frequency)
    requires totalFreq == TableSum(frequency, Highest) > 0
    ensures weights == Weights(frequency)
  {
    weights := map[];
    for i := 1 to 61
      invariant forall n :: n in weights <==> 1 <= n < i
      invariant forall n :: n in weights ==> weights[n] == frequency[n] as real / totalFreq as real
    {
      weights := weights[i := frequency[i] as real / totalFreq as real];
    }
  }

  /** One simulation: six weighted picks, sorted in place by
      `combo.sort((a, b) => a - b)`. */
  method SimulateOnce(weights: map<int, real>, roll: seq<real>) returns (key: seq<int>)
    requires ValidWeights(weights) && UnitReals(roll) && |roll| >= 6
    ensures key == SimulationKey(weights, roll)
  {
    var combo := WeightedRandomSelection(weights, 6, roll);
    key := SortAscending(combo);
  }

  /** The score of a simulated key, as the generator computes it. */
  method ScoreKey(key: seq<int>, frequency: map<int, nat>, totalFreq: nat) returns (confidence: int)
    requires HasDomainKeys(frequency) && totalFreq == TableSum(frequency, Highest) > 0
    requires KeyShape(key)
    ensures confidence == Score(frequency, key)
  {
    confidence := CalculateCombinationScore(key, frequency, totalFreq);
  }

  /** The keys of the first sim simulations, and one more. */
  lemma ShapedPrefix(all: seq<seq<int>>, sim: nat)
    requires sim < |all| && forall s :: 0 <= s < |all| ==> KeyShape(all[s])
    ensures forall s :: 0 <= s < sim ==> KeyShape(all[..sim][s])
    ensures all[..sim + 1] == all[..sim] + [all[sim]]
  {
  }

  /** The state of the simulation loop after sim simulations: the results
      kept from their keys, and the set of those keys. */
  ghost predicate Simulated(frequency: map<int, nat>, all: seq<seq<int>>, limit: int, sim: nat,
                            found: seq<Scored>, seen: set<seq<int>>)
    requires HasDomainKeys(frequency) && TableSum(frequency, Highest) > 0
    requires forall s :: 0 <= s < |all| ==> KeyShape(all[s])
  {
    && sim <= |all|
    && found == Collect(frequency, all[..sim], limit)
    && (forall k :: k in seen <==> k in NumbersOf(found))
  }

  /** One pass of the simulation loop: simulation sim draws its key, and
      the key is kept when it is new. */
  method SimulationStep(frequency: map<int, nat>, weights: map<int, real>, totalFreq: nat, roll: seq<real>,
                        ghost all: seq<seq<int>>, ghost limit: int, sim: nat, found: seq<Scored>, seen: set<seq<int>>)
    returns (found': seq<Scored>, seen': set<seq<int>>)
    requires HasDomainKeys(frequency) && totalFreq == TableSum(frequency, Highest) > 0
    requires ValidWeights(weights) && UnitReals(roll) && |roll| >= 6
    requires forall s :: 0 <= s < |all| ==> KeyShape(all[s])
    requires sim < |all| && all[sim] == SimulationKey(weights, roll)
    requires Simulated(frequency, all, limit, sim, found, seen) && |found| < limit
    ensures Simulated(frequency, all, limit, sim + 1, found', seen')
  {
    var key := SimulateOnce(weights, roll);
    ShapedPrefix(all, sim);
    CollectSnoc(frequency, all[..sim], key, limit);
    found', seen' := found, seen;
    if key !in seen {
      seen' := seen + {key};
      var confidence := ScoreKey(key, frequency, totalFreq);
      NumbersOfSnoc(found, Scored(key, "Monte Carlo", confidence));
      found' := found + [Scored(key, "Monte Carlo", confidence)];
    }
  }

  /** The simulation loop of `monteCarloGeneration`: run the simulations in
      order, keep each new key with its score, and stop early once
      numCombinations keys are kept; all lists the keys the simulations draw. */
  method RunSimulations(frequency: map<int, nat>, weights: map<int, real>, totalFreq: nat, rolls: seq<seq<real>>,
                        ghost all: seq<seq<int>>, numSimulations: int, numCombinations: int)
    returns (found: seq<Scored>)
    requires HasDomainKeys(frequency) && totalFreq == TableSum(frequency, Highest) > 0
    requires ValidWeights(weights)
    requires |all| == (if numSimulations < 0 then 0 else numSimulations) && Rolls(rolls, |all|)
    requires forall s :: 0 <= s < |all| ==> KeyShape(all[s])
    requires forall s {:trigger SimulationKey(weights, rolls[s])} :: 0 <= s < |all| ==> all[s] == SimulationKey(weights, rolls[s])
    ensures found == Collect(frequency, all, numCombinations)
  {
    found := [];
    var seen: set<seq<int>> := {};
    var sim := 0;
    while sim < numSimulations && |found| < numCombinations
      invariant Simulated(frequency, all, numCombinations, sim, found, seen)
      decreases numSimulations - sim
    {
      found, seen := SimulationStep(frequency, weights, totalFreq, rolls[sim], all, numCombinations, sim, found, seen);
      sim := sim + 1;
    }
    if sim < |all| {
      CollectSaturates(frequency, all, sim, |all|, numCombinations);
    }
    assert all[..|all|] == all;
  }

  /** `monteCarloGeneration(frequency, numSimulations, numCombinations)`:
      simulation sim reads its `Math.random()` values from rolls[sim]. */
  method MonteCarloGeneration(frequency: map<int, nat>, numSimulations: int, numCombinations: int, rolls: seq<seq<real>>)
    returns (combinations: seq<Scored>)
    requires HasDomainKeys(frequency) && TableSum(frequency, Highest) > 0
    requires Rolls(rolls, if numSimulations < 0 then 0 else numSimulations)
    ensures combinations == MonteCarloResults(frequency, numSimulations, numCombinations, rolls)
  {
    var totalFreq := TableSum(frequency, Highest);
    var weights := BuildWeights(frequency, totalFreq);
    ghost var sims := if numSimulations < 0 then 0 else numSimulations;
    ghost var all := SimulationKeys(weights, rolls, sims);
    SimulationKeysShaped(weights, rolls, sims);
    var found := RunSimulations(frequency, weights, totalFreq, rolls, all, numSimulations, numCombinations);
    ResultsAreCollected(frequency, numSimulations, numCombinations, rolls);
    combinations := Slice(found, 0, numCombinations);
  }
}
