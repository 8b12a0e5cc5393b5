/** Random combinations: `generateRandomCombination` draws six numbers from
    those not excluded, preferred numbers first, the rest by `Math.random()`.
    The random values are an explicit stream of reals in [0, 1). */
module Picking {
  import opened Seqs
  import opened Draws

  /** A stream of `Math.random()` results. */
  predicate UnitReals(us: seq<real>)
  {
    forall i :: 0 <= i < |us| ==> 0.0 <= us[i] < 1.0
  }

  /** `Math.floor(u * len)`: a valid index of an array of length len. */
  function UniformIndex(u: real, len: nat): (i: nat)
    requires 0.0 <= u < 1.0 && len > 0
    ensures i < len
  {
    var x := u * len as real;
    assert 0.0 <= x < len as real;
    x.Floor
  }

  /** `s.indexOf(x)` for an x that occurs in s. */
  function IndexOf(s: seq<int>, x: int): (i: nat)
    requires x in s
    ensures i < |s| && s[i] == x
    ensures forall j :: 0 <= j < i ==> s[j] != x
  {
    if s[0] == x then 0 else 1 + IndexOf(s[1..], x)
  }

  /** `s.splice(i, 1)`: s without its element at i. */
  function RemoveAt(s: seq<int>, i: nat): (r: seq<int>)
    requires i < |s|
    ensures |r| == |s| - 1
    ensures forall x :: x in r ==> x in s
  {
    s[..i] + s[i + 1..]
  }

  /** Removing from a sequence without repetitions removes exactly that element. */
  lemma RemoveAtDistinct(s: seq<int>, i: nat)
    requires i < |s| && Distinct(s)
    ensures Distinct(RemoveAt(s, i))
    ensures forall x :: x in RemoveAt(s, i) <==> x in s && x != s[i]
  {
    var r := RemoveAt(s, i);
    assert forall k :: 0 <= k < |r| ==> r[k] == if k < i then s[k] else s[k + 1];
    forall x | x in s && x != s[i] ensures x in r {
      var k :| 0 <= k < |s| && s[k] == x;
      if k < i {
        assert r[k] == x;
      } else {
        assert r[k - 1] == x;
      }
    }
  }

  /** The first n elements of s, or all of s when it is shorter. */
  function Take(s: seq<int>, n: nat): (r: seq<int>)
    ensures |r| == if |s| <= n then |s| else n
    ensures r <= s
  {
    if |s| <= n then s else s[..n]
  }

  /** The numbers 1..hi not in exclude, ascending. */
  function AvailableUpTo(exclude: seq<int>, hi: int): (a: seq<int>)
    decreases hi
    ensures forall x {:trigger x in a} :: x in a <==> 1 <= x <= hi && x !in exclude
    ensures forall i, j :: 0 <= i < j < |a| ==> a[i] < a[j]
  {
    if hi < 1 then []
    else
      var p := AvailableUpTo(exclude, hi - 1);
      assert forall k :: 0 <= k < |p| ==> p[k] in p;
      p + (if hi in exclude then [] else [hi])
  }

  /** The `available` array: the numbers 1..60 not excluded, ascending. */
  function Available(exclude: seq<int>): (a: seq<int>)
    ensures Distinct(a)
    ensures forall x {:trigger x in a} :: x in a <==> InDomain(x) && x !in exclude
  {
    AvailableUpTo(exclude, Highest)
  }

  /** The numbers of prefer that are in avail, each at its first occurrence,
      in prefer order. */
  function FirstOccurrences(prefer: seq<int>, avail: seq<int>): seq<int>
  {
    if prefer == [] then []
    else
      var p := prefer[..|prefer| - 1];
      var x := prefer[|prefer| - 1];
      FirstOccurrences(p, avail) + (if x in avail && x !in p then [x] else [])
  }

  /** The two arrays `generateRandomCombination` works on. */
  datatype Picked = Picked(combo: seq<int>, available: seq<int>)

  /** One preferred number: taken (and spliced out of `available`) while the
      combination has fewer than six numbers and the number is available. */
  function PreferStep(s: Picked, num: int): (r: Picked)
    ensures |s.combo| <= 6 ==> |r.combo| <= 6
    ensures |r.combo| + |r.available| == |s.combo| + |s.available|
  {
    if |s.combo| < 6 && num in s.available then
      Picked(s.combo + [num], RemoveAt(s.available, IndexOf(s.available, num)))
    else s
  }

  /** `prefer.forEach(...)` from an empty combination. */
  function AfterPrefer(available: seq<int>, prefer: seq<int>): (r: Picked)
    ensures |r.combo| <= 6
    ensures |r.combo| + |r.available| == |available|
  {
    if prefer == [] then Picked([], available)
    else PreferStep(AfterPrefer(available, prefer[..|prefer| - 1]), prefer[|prefer| - 1])
  }

  /** The `while (combo.length < 6)` loop: each value of the stream picks an
      index of `available`, whose number moves to the combination. */
  function Fill(s: Picked, us: seq<real>): seq<int>
    requires UnitReals(us)
    requires |s.combo| + |s.available| >= 6
    requires |us| >= 6 - |s.combo|
    decreases 6 - |s.combo|
  {
    if |s.combo| >= 6 then s.combo
    else
      var idx := UniformIndex(us[0], |s.available|);
      Fill(Picked(s.combo + [s.available[idx]], RemoveAt(s.available, idx)), us[1..])
  }

  /** What `generateRandomCombination(exclude, prefer)` returns when
      `Math.random()` yields us. */
  function RandomCombination(exclude: seq<int>, prefer: seq<int>, us: seq<real>): seq<int>
    requires |Available(exclude)| >= 6
    requires UnitReals(us) && |us| >= 6
  {
    Fill(AfterPrefer(Available(exclude), prefer), us)
  }

  /** The combination and `available` split the pool between them, with no
      number repeated. */
  ghost predicate Pool(s: Picked, pool: seq<int>)
  {
    && Distinct(s.combo)
    && Distinct(s.available)
    && (forall x :: x in s.combo ==> x !in s.available)
    && (forall x :: x in s.combo || x in s.available <==> x in pool)
  }

  /** Moving one number from `available` to the combination keeps the split. */
  lemma PoolMove(s: Picked, pool: seq<int>, i: nat)
    requires Pool(s, pool) && i < |s.available|
    ensures Pool(Picked(s.combo + [s.available[i]], RemoveAt(s.available, i)), pool)
  {
    RemoveAtDistinct(s.available, i);
    var c := s.combo + [s.available[i]];
    forall j, k | 0 <= j < k < |c| ensures c[j] != c[k] {
      if k == |s.combo| {
        assert c[j] in s.combo;
      }
    }
  }

  lemma FirstOccurrencesMeaning(prefer: seq<int>, avail: seq<int>)
    ensures Distinct(FirstOccurrences(prefer, avail))
    ensures forall x :: x in FirstOccurrences(prefer, avail) <==> x in prefer && x in avail
  {
    if prefer != [] {
      var p := prefer[..|prefer| - 1];
      FirstOccurrencesMeaning(p, avail);
      assert prefer == p + [prefer[|prefer| - 1]];
    }
  }

  /** After the preferred pass the combination holds the first six available
      preferred numbers, in prefer order, and `available` the rest of the pool. */
  lemma {:induction false} AfterPreferPicks(avail: seq<int>, prefer: seq<int>)
    requires Distinct(avail)
    ensures Pool(AfterPrefer(avail, prefer), avail)
    ensures AfterPrefer(avail, prefer).combo == Take(FirstOccurrences(prefer, avail), 6)
  {
    if prefer != [] {
      var p := prefer[..|prefer| - 1];
      var num := prefer[|prefer| - 1];
      AfterPreferPicks(avail, p);
      FirstOccurrencesMeaning(p, avail);
      var s := AfterPrefer(avail, p);
      var fo := FirstOccurrences(p, avail);
      if |s.combo| < 6 {
        assert s.combo == fo;
        if num in s.available {
          PoolMove(s, avail, IndexOf(s.available, num));
        }
      }
    }
  }

  /** The fill keeps the split, ends with six numbers and only appends. */
  lemma {:induction false} FillPicks(s: Picked, us: seq<real>, pool: seq<int>)
    requires UnitReals(us) && |s.combo| <= 6 && |s.combo| + |s.available| >= 6 && |us| >= 6 - |s.combo|
    requires Pool(s, pool)
    ensures |Fill(s, us)| == 6
    ensures Distinct(Fill(s, us))
    ensures forall x :: x in Fill(s, us) ==> x in pool
    ensures s.combo <= Fill(s, us)
    decreases 6 - |s.combo|
  {
    if |s.combo| < 6 {
      var idx := UniformIndex(us[0], |s.available|);
      var s' := Picked(s.combo + [s.available[idx]], RemoveAt(s.available, idx));
      PoolMove(s, pool, idx);
      FillPicks(s', us[1..], pool);
    }
  }

  /** `generateRandomCombination` returns six distinct numbers in 1..60, none
      excluded, starting with the first six available preferred numbers. */
  lemma RandomCombinationFacts(exclude: seq<int>, prefer: seq<int>, us: seq<real>)
    requires |Available(exclude)| >= 6
    requires UnitReals(us) && |us| >= 6
    ensures var r := RandomCombination(exclude, prefer, us);
            && |r| == 6
            && Distinct(r)
            && (forall x :: x in r ==> InDomain(x) && x !in exclude)
            && Take(FirstOccurrences(prefer, Available(exclude)), 6) <= r
  {
    var avail := Available(exclude);
    AfterPreferPicks(avail, prefer);
    FillPicks(AfterPrefer(avail, prefer), us, avail);
  }

  /** Extending prefer by one number adds one preferred step. */
  lemma AfterPreferSnoc(available: seq<int>, prefer: seq<int>, k: nat)
    requires k < |prefer|
    ensures AfterPrefer(available, prefer[..k + 1]) == PreferStep(AfterPrefer(available, prefer[..k]), prefer[k])
  {
    assert prefer[..k + 1][..k] == prefer[..k];
  }

  /** The first loop of `generateRandomCombination`: `available` lists 1..60
      minus the excluded numbers. */
  method BuildAvailable(exclude: seq<int>) returns (available: seq<int>)
    ensures available == Available(exclude)
  {
    available := [];
    for i := 1 to 61
      invariant available == AvailableUpTo(exclude, i - 1)
    {
      if !(i in exclude) {
        available := available + [i];
      }
    }
  }

  /** The `prefer.forEach(...)` pass over an already built `available`. */
  method TakePreferred(avail: seq<int>, prefer: seq<int>) returns (combo: seq<int>, available: seq<int>)
    ensures Picked(combo, available) == AfterPrefer(avail, prefer)
  {
    combo := [];
    available := avail;
    for k := 0 to |prefer|
      invariant Picked(combo, available) == AfterPrefer(avail, prefer[..k])
    {
      var num := prefer[k];
      AfterPreferSnoc(avail, prefer, k);
      if |combo| < 6 && num in available {
        combo := combo + [num];
        available := RemoveAt(available, IndexOf(available, num));
      }
    }
    assert prefer[..|prefer|] == prefer;
  }

  /** The `while (combo.length < 6)` loop, started from the state s. */
  method FillCombination(s: Picked, us: seq<real>) returns (combo: seq<int>)
    requires UnitReals(us)
    requires |s.combo| <= 6 && |s.combo| + |s.available| >= 6
    requires |us| >= 6 - |s.combo|
    ensures combo == Fill(s, us)
  {
    combo := s.combo;
    var available := s.available;
    var t := 0;
    while |combo| < 6
      invariant 0 <= t <= |us|
      invariant t == |combo| - |s.combo|
      invariant |combo| <= 6
      invariant |combo| + |available| == |s.combo| + |s.available|
      invariant UnitReals(us[t..])
      invariant Fill(Picked(combo, available), us[t..]) == Fill(s, us)
      decreases 6 - |combo|
    {
      var idx := UniformIndex(us[t], |available|);
      assert us[t..][0] == us[t];
      assert us[t..][1..] == us[t + 1..];
      combo := combo + [available[idx]];
      available := RemoveAt(available, idx);
      t := t + 1;
    }
  }

  /** `generateRandomCombination(exclude, prefer)` with `Math.random()` reading us. */
  method GenerateRandomCombination(exclude: seq<int>, prefer: seq<int>, us: seq<real>) returns (combo: seq<int>)
    requires |Available(exclude)| >= 6
    requires UnitReals(us) && |us| >= 6
    ensures combo == RandomCombination(exclude, prefer, us)
  {
    var avail := BuildAvailable(exclude);
    var preferred, available := TakePreferred(avail, prefer);
    combo := FillCombination(Picked(preferred, available), us);
  }
}
