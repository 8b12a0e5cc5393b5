/** `generateBalancedCombination`: rejection sampling of random combinations
    against even/odd, low/high and sum constraints, with at most 10000
    attempts and a tagged random fallback. */
module Balanced {
  import opened Wrappers
  import opened Seqs
  import opened Sorting
  import opened Draws
  import opened Picking
  import opened Distribution

  /** `maxAttempts`. */
  const MaxAttempts: nat := 10000

  /** The options object; the two ratios are `[even, odd]` and `[low, high]`,
      the sum range `[min, max]`. */
  datatype BalanceOptions = BalanceOptions(
    evenOddRatio: (int, int),
    lowHighRatio: (int, int),
    sumRange: (int, int),
    excludeNumbers: seq<int>,
    preferNumbers: seq<int>)

  /** The defaults of the destructuring `options = {}`. */
  const DefaultOptions := BalanceOptions((3, 3), (3, 3), (150, 220), [], [])

  /** The `constraints` object of an accepted combination; the strings
      `${e}E/${o}O` and `${l}L/${h}H` are kept as pairs. */
  datatype Constraints = Constraints(evenOdd: (int, int), lowHigh: (int, int), sum: int)

  /** The returned object: `method` is a Dafny keyword, hence `methodName`;
      `constraints: null` is None. */
  datatype BalancedResult = BalancedResult(numbers: seq<int>, methodName: string, constraints: Option<Constraints>)

  const BalancedTag := "Balanced Constraints"
  const FallbackTag := "Random (constraints too strict)"

  // Sums over a sequence, and why sorting keeps them

  /** g(s[0]) + g(s[1]) + ... + g(s[|s| - 1]). */
  function Total(s: seq<int>, g: int -> int): int
  {
    if s == [] then 0 else Total(s[..|s| - 1], g) + g(s[|s| - 1])
  }

  lemma {:induction false} TotalAppend(s: seq<int>, t: seq<int>, g: int -> int)
    ensures Total(s + t, g) == Total(s, g) + Total(t, g)
    decreases |t|
  {
    if t == [] {
      assert s + t == s;
    } else {
      var p := t[..|t| - 1];
      assert s + t == (s + p) + [t[|t| - 1]];
      assert (s + t)[..|s + t| - 1] == s + p;
      TotalAppend(s, p, g);
    }
  }

  /** Taking out the entry at k takes its term out of the total. */
  lemma {:induction false} TotalRemove(b: seq<int>, k: nat, g: int -> int)
    requires k < |b|
    ensures Total(b, g) == Total(b[..k] + b[k + 1..], g) + g(b[k])
  {
    var p, q := b[..k], b[k + 1..];
    assert b == (p + [b[k]]) + q;
    TotalAppend(p + [b[k]], q, g);
    TotalAppend(p, [b[k]], g);
    TotalAppend(p, q, g);
    assert [b[k]][..0] == [];
  }

  /** Taking out the entry at k takes one copy of it out of the multiset. */
  lemma MultisetRemove(b: seq<int>, k: nat)
    requires k < |b|
    ensures multiset(b[..k] + b[k + 1..]) == multiset(b) - multiset{b[k]}
  {
    assert b == b[..k] + [b[k]] + b[k + 1..];
  }

  /** Reordering a sequence keeps its total. */
  lemma {:induction false} TotalPermutation(a: seq<int>, b: seq<int>, g: int -> int)
    requires multiset(a) == multiset(b)
    ensures Total(a, g) == Total(b, g)
    decreases |a|
  {
    if a == [] {
      assert |b| == |multiset(b)| == 0;
    } else {
      var x := a[|a| - 1];
      var p := a[..|a| - 1];
      assert a == p + [x];
      assert multiset(p) == multiset(a) - multiset{x};
      assert x in multiset(b);
      var k :| 0 <= k < |b| && b[k] == x;
      MultisetRemove(b, k);
      TotalPermutation(p, b[..k] + b[k + 1..], g);
      TotalRemove(b, k, g);
    }
  }

  function EvenOne(n: int): int
  {
    if n % 2 == 0 then 1 else 0
  }

  function LowOne(n: int): int
  {
    if n <= 30 then 1 else 0
  }

  function Itself(n: int): int
  {
    n
  }

  lemma {:induction false} EvenCountTotal(s: seq<int>)
    ensures EvenCount(s) == Total(s, EvenOne)
  {
    if s != [] {
      EvenCountTotal(s[..|s| - 1]);
    }
  }

  lemma {:induction false} LowCountTotal(s: seq<int>)
    ensures LowCount(s) == Total(s, LowOne)
  {
    if s != [] {
      LowCountTotal(s[..|s| - 1]);
    }
  }

  lemma {:induction false} SumTotal(s: seq<int>)
    ensures Sum(s) == Total(s, Itself)
  {
    if s != [] {
      SumTotal(s[..|s| - 1]);
    }
  }

  /** Sorting a combination keeps its even count, low count and sum: the
      checks made on the unsorted `combo` hold for the returned numbers. */
  lemma SortKeepsCounts(s: seq<int>)
    ensures EvenCount(SortAscending(s)) == EvenCount(s)
    ensures LowCount(SortAscending(s)) == LowCount(s)
    ensures Sum(SortAscending(s)) == Sum(s)
  {
    var r := SortAscending(s);
    EvenCountTotal(s);
    EvenCountTotal(r);
    TotalPermutation(r, s, EvenOne);
    LowCountTotal(s);
    LowCountTotal(r);
    TotalPermutation(r, s, LowOne);
    SumTotal(s);
    SumTotal(r);
    TotalPermutation(r, s, Itself);
  }

  // The specification

  /** The three checks of one attempt, in the order the loop makes them. */
  predicate Accepts(o: BalanceOptions, combo: seq<int>)
  {
    && EvenCount(combo) == o.evenOddRatio.0
    && LowCount(combo) == o.lowHighRatio.0
    && !(Sum(combo) < o.sumRange.0 || Sum(combo) > o.sumRange.1)
  }

  /** The `Math.random()` streams: attempt a reads rolls[a]; the fallback
      reads rolls[MaxAttempts]. At least six numbers must remain available. */
  ghost predicate Attempts(o: BalanceOptions, rolls: seq<seq<real>>)
  {
    && |Available(o.excludeNumbers)| >= 6
    && |rolls| > MaxAttempts
    && forall a :: 0 <= a < |rolls| ==> UnitReals(rolls[a]) && |rolls[a]| >= 6
  }

  /** The combination drawn by attempt a. */
  function Attempt(o: BalanceOptions, rolls: seq<seq<real>>, a: nat): seq<int>
    requires Attempts(o, rolls) && a <= MaxAttempts
  {
    RandomCombination(o.excludeNumbers, o.preferNumbers, rolls[a])
  }

  /** The combinations of the 10000 attempts followed by the fallback's. */
  function Combos(o: BalanceOptions, rolls: seq<seq<real>>): (combos: seq<seq<int>>)
    requires Attempts(o, rolls)
    ensures |combos| == MaxAttempts + 1
    ensures forall a :: 0 <= a <= MaxAttempts ==> combos[a] == Attempt(o, rolls, a)
  {
    seq(MaxAttempts + 1, a requires 0 <= a <= MaxAttempts => Attempt(o, rolls, a))
  }

  /** The result returned for an accepted combination. */
  function Accepted(o: BalanceOptions, combo: seq<int>): BalancedResult
  {
    BalancedResult(SortAscending(combo), BalancedTag, Some(Constraints(o.evenOddRatio, o.lowHighRatio, Sum(combo))))
  }

  /** The result returned after the last attempt. */
  function Fallback(combo: seq<int>): BalancedResult
  {
    BalancedResult(SortAscending(combo), FallbackTag, None)
  }

  /** What the loop returns when the attempts drawing combos[a], combos[a + 1],
      ... are still to come; the last entry is the fallback's. */
  function BalancedFrom(o: BalanceOptions, combos: seq<seq<int>>, a: nat): BalancedResult
    requires a < |combos|
    decreases |combos| - a
  {
    if a == |combos| - 1 then Fallback(combos[a])
    else if Accepts(o, combos[a]) then Accepted(o, combos[a])
    else BalancedFrom(o, combos, a + 1)
  }

  /** `generateBalancedCombination(options)`. */
  function BalancedCombination(o: BalanceOptions, rolls: seq<seq<real>>): BalancedResult
    requires Attempts(o, rolls)
  {
    BalancedFrom(o, Combos(o, rolls), 0)
  }

  /** Entry b is the first of a, ..., b to pass the checks. */
  ghost predicate FirstAccepted(o: BalanceOptions, combos: seq<seq<int>>, a: nat, b: nat)
    requires a <= b < |combos|
  {
    && Accepts(o, combos[b])
    && forall c :: a <= c < b ==> !Accepts(o, combos[c])
  }

  /** From entry a on, the loop either returns the first accepted attempt or
      rejects every attempt and falls back on the last entry. */
  lemma {:induction false} BalancedFromCases(o: BalanceOptions, combos: seq<seq<int>>, a: nat)
    requires a < |combos|
    ensures var r := BalancedFrom(o, combos, a);
            || (exists b :: a <= b < |combos| - 1 && FirstAccepted(o, combos, a, b) && r == Accepted(o, combos[b]))
            || ((forall c :: a <= c < |combos| - 1 ==> !Accepts(o, combos[c])) && r == Fallback(combos[|combos| - 1]))
    decreases |combos| - a
  {
    if a < |combos| - 1 {
      if Accepts(o, combos[a]) {
        assert FirstAccepted(o, combos, a, a);
      } else {
        BalancedFromCases(o, combos, a + 1);
        var r := BalancedFrom(o, combos, a + 1);
        if b :| a + 1 <= b < |combos| - 1 && FirstAccepted(o, combos, a + 1, b) && r == Accepted(o, combos[b]) {
          assert FirstAccepted(o, combos, a, b);
        }
      }
    }
  }

  /** BalancedFromCases from the first attempt on, stated per attempt. */
  lemma BalancedOutcome(o: BalanceOptions, rolls: seq<seq<real>>)
    requires Attempts(o, rolls)
    ensures var r := BalancedCombination(o, rolls);
            || (exists b :: 0 <= b < MaxAttempts && Accepts(o, Attempt(o, rolls, b))
                  && (forall c :: 0 <= c < b ==> !Accepts(o, Attempt(o, rolls, c)))
                  && r == Accepted(o, Attempt(o, rolls, b)))
            || ((forall c :: 0 <= c < MaxAttempts ==> !Accepts(o, Attempt(o, rolls, c)))
                  && r == Fallback(Attempt(o, rolls, MaxAttempts)))
  {
    var combos := Combos(o, rolls);
    BalancedFromCases(o, combos, 0);
    var r := BalancedFrom(o, combos, 0);
    if b :| 0 <= b < MaxAttempts && FirstAccepted(o, combos, 0, b) && r == Accepted(o, combos[b]) {
      assert forall c :: 0 <= c < b ==> !Accepts(o, Attempt(o, rolls, c)) by {
        forall c | 0 <= c < b ensures !Accepts(o, Attempt(o, rolls, c)) {
          assert combos[c] == Attempt(o, rolls, c);
        }
      }
    } else {
      forall c | 0 <= c < MaxAttempts ensures !Accepts(o, Attempt(o, rolls, c)) {
        assert combos[c] == Attempt(o, rolls, c);
      }
    }
  }

  /** The result is tagged 'Balanced Constraints' exactly when one of the
      10000 attempts passes the checks; it is then the first such attempt,
      sorted, and its numbers meet the requested even count, low count and
      sum range, with the sum recorded in the constraints. */
  lemma BalancedWhenAccepted(o: BalanceOptions, rolls: seq<seq<real>>)
    requires Attempts(o, rolls)
    ensures var r := BalancedCombination(o, rolls);
            && (r.methodName == BalancedTag <==> exists b :: 0 <= b < MaxAttempts && Accepts(o, Attempt(o, rolls, b)))
            && (r.methodName == BalancedTag ==>
                  && (exists b :: 0 <= b < MaxAttempts && Accepts(o, Attempt(o, rolls, b))
                        && (forall c :: 0 <= c < b ==> !Accepts(o, Attempt(o, rolls, c)))
                        && r.numbers == SortAscending(Attempt(o, rolls, b)))
                  && EvenCount(r.numbers) == o.evenOddRatio.0
                  && LowCount(r.numbers) == o.lowHighRatio.0
                  && o.sumRange.0 <= Sum(r.numbers) <= o.sumRange.1
                  && r.constraints == Some(Constraints(o.evenOddRatio, o.lowHighRatio, Sum(r.numbers))))
  {
    BalancedOutcome(o, rolls);
    var r := BalancedCombination(o, rolls);
    if b :| 0 <= b < MaxAttempts && Accepts(o, Attempt(o, rolls, b))
           && (forall c :: 0 <= c < b ==> !Accepts(o, Attempt(o, rolls, c)))
           && r == Accepted(o, Attempt(o, rolls, b)) {
      SortKeepsCounts(Attempt(o, rolls, b));
    }
  }

  /** The result is tagged 'Random (constraints too strict)', without
      constraints, exactly when all 10000 attempts fail; its numbers are then
      the sorted extra combination drawn after the loop. */
  lemma BalancedWhenRejected(o: BalanceOptions, rolls: seq<seq<real>>)
    requires Attempts(o, rolls)
    ensures var r := BalancedCombination(o, rolls);
            && (r.methodName == FallbackTag <==> forall c :: 0 <= c < MaxAttempts ==> !Accepts(o, Attempt(o, rolls, c)))
            && (r.methodName == FallbackTag ==>
                  r.constraints == None && r.numbers == SortAscending(Attempt(o, rolls, MaxAttempts)))
  {
    BalancedOutcome(o, rolls);
  }

  /** A sorted attempt is six distinct numbers of 1..60 in ascending order,
      none of them excluded. */
  lemma SortedAttempt(o: BalanceOptions, rolls: seq<seq<real>>, b: nat)
    requires Attempts(o, rolls) && b <= MaxAttempts
    ensures var numbers := SortAscending(Attempt(o, rolls, b));
            && |numbers| == 6
            && (forall i, j :: 0 <= i < j < 6 ==> numbers[i] < numbers[j])
            && (forall x :: x in numbers ==> InDomain(x) && x !in o.excludeNumbers)
  {
    RandomCombinationFacts(o.excludeNumbers, o.preferNumbers, rolls[b]);
    SortedCombination(Attempt(o, rolls, b), o.excludeNumbers);
  }

  lemma SortedCombination(combo: seq<int>, exclude: seq<int>)
    requires |combo| == 6 && Distinct(combo)
    requires forall x :: x in combo ==> InDomain(x) && x !in exclude
    ensures var numbers := SortAscending(combo);
            && |numbers| == 6
            && (forall i, j :: 0 <= i < j < 6 ==> numbers[i] < numbers[j])
            && (forall x :: x in numbers ==> InDomain(x) && x !in exclude)
  {
    var numbers := SortAscending(combo);
    SortedStrictly(combo);
    forall x | x in numbers ensures InDomain(x) && x !in exclude {
      assert x in multiset(numbers);
    }
  }

  /** Whatever the outcome, the numbers are six distinct numbers of 1..60 in
      ascending order, none of them excluded. */
  lemma BalancedNumbers(o: BalanceOptions, rolls: seq<seq<real>>)
    requires Attempts(o, rolls)
    ensures var r := BalancedCombination(o, rolls);
            && |r.numbers| == 6
            && (forall i, j :: 0 <= i < j < 6 ==> r.numbers[i] < r.numbers[j])
            && (forall x :: x in r.numbers ==> InDomain(x) && x !in o.excludeNumbers)
  {
    BalancedOutcome(o, rolls);
    var r := BalancedCombination(o, rolls);
    if b :| 0 <= b < MaxAttempts && Accepts(o, Attempt(o, rolls, b)) && r == Accepted(o, Attempt(o, rolls, b)) {
      SortedAttempt(o, rolls, b);
    } else {
      SortedAttempt(o, rolls, MaxAttempts);
    }
  }

  // The loop

  /** `generateBalancedCombination(options)`: attempt a reads rolls[a], the
      fallback rolls[MaxAttempts]. */
  method GenerateBalancedCombination(o: BalanceOptions, rolls: seq<seq<real>>) returns (r: BalancedResult)
    requires Attempts(o, rolls)
    ensures r == BalancedCombination(o, rolls)
  {
    ghost var combos := Combos(o, rolls);
    var attempts := 0;
    while attempts < MaxAttempts
      invariant 0 <= attempts <= MaxAttempts
      invariant BalancedFrom(o, combos, attempts) == BalancedCombination(o, rolls)
    {
      attempts := attempts + 1;
      var combo := GenerateRandomCombination(o.excludeNumbers, o.preferNumbers, rolls[attempts - 1]);
      var evenCount := EvenCount(combo);
      if evenCount != o.evenOddRatio.0 {
        continue;
      }
      var lowCount := LowCount(combo);
      if lowCount != o.lowHighRatio.0 {
        continue;
      }
      var sum := Sum(combo);
      if sum < o.sumRange.0 || sum > o.sumRange.1 {
        continue;
      }
      return BalancedResult(SortAscending(combo), BalancedTag, Some(Constraints(o.evenOddRatio, o.lowHighRatio, sum)));
    }
    var combo := GenerateRandomCombination(o.excludeNumbers, o.preferNumbers, rolls[MaxAttempts]);
    r := BalancedResult(SortAscending(combo), FallbackTag, None);
  }
}
