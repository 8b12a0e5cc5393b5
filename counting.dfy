/** Counting: occurrence counts and the `tally[key] = (tally[key] || 0) + 1`
    dictionaries that every distribution of the analysis builds. */
module Counting {

  /** Number of occurrences of x in s. */
  function Count<T(==)>(s: seq<T>, x: T): nat
  {
    if s == [] then 0 else Count(s[..|s| - 1], x) + (if s[|s| - 1] == x then 1 else 0)
  }

  lemma {:induction false} CountPositive<T>(s: seq<T>, x: T)
    ensures Count(s, x) > 0 <==> x in s
  {
    if s != [] {
      var p := s[..|s| - 1];
      CountPositive(p, x);
      assert s == p + [s[|s| - 1]];
    }
  }

  /** Number of elements of xs that lie in lo..hi. */
  function CountInRange(xs: seq<int>, lo: int, hi: int): nat
  {
    if xs == [] then 0
    else CountInRange(xs[..|xs| - 1], lo, hi) + (if lo <= xs[|xs| - 1] <= hi then 1 else 0)
  }

  /** Count(xs, lo) + Count(xs, lo + 1) + ... + Count(xs, hi). */
  function SumOfCounts(xs: seq<int>, lo: int, hi: int): nat
    decreases hi - lo
  {
    if hi < lo then 0 else SumOfCounts(xs, lo, hi - 1) + Count(xs, hi)
  }

  lemma {:induction false} CountAppend<T>(s: seq<T>, t: seq<T>, x: T)
    ensures Count(s + t, x) == Count(s, x) + Count(t, x)
    decreases |t|
  {
    if t == [] {
      assert s + t == s;
    } else {
      var t' := t[..|t| - 1];
      assert (s + t)[..|s + t| - 1] == s + t';
      CountAppend(s, t', x);
    }
  }

  lemma {:induction false} CountInRangeAppend(s: seq<int>, t: seq<int>, lo: int, hi: int)
    ensures CountInRange(s + t, lo, hi) == CountInRange(s, lo, hi) + CountInRange(t, lo, hi)
    decreases |t|
  {
    if t == [] {
      assert s + t == s;
    } else {
      var t' := t[..|t| - 1];
      assert (s + t)[..|s + t| - 1] == s + t';
      CountInRangeAppend(s, t', lo, hi);
    }
  }

  lemma {:induction false} CountInRangeBound(xs: seq<int>, lo: int, hi: int)
    ensures CountInRange(xs, lo, hi) <= |xs|
    ensures (forall x :: x in xs ==> lo <= x <= hi) ==> CountInRange(xs, lo, hi) == |xs|
  {
    if xs != [] {
      var p := xs[..|xs| - 1];
      assert forall x :: x in p ==> x in xs;
      assert xs[|xs| - 1] in xs;
      CountInRangeBound(p, lo, hi);
    }
  }

  lemma {:induction false} SumOfCountsEmpty(lo: int, hi: int)
    ensures SumOfCounts([], lo, hi) == 0
    decreases hi - lo
  {
    if hi >= lo {
      SumOfCountsEmpty(lo, hi - 1);
    }
  }

  lemma {:induction false} SumOfCountsSnoc(xs: seq<int>, x: int, lo: int, hi: int)
    ensures SumOfCounts(xs + [x], lo, hi) == SumOfCounts(xs, lo, hi) + (if lo <= x <= hi then 1 else 0)
    decreases hi - lo
  {
    if hi >= lo {
      SumOfCountsSnoc(xs, x, lo, hi - 1);
      assert (xs + [x])[..|xs|] == xs;
    }
  }

  /** Summing the per-value counts over lo..hi counts each element in lo..hi once. */
  lemma {:induction false} SumOfCountsIsCountInRange(xs: seq<int>, lo: int, hi: int)
    ensures SumOfCounts(xs, lo, hi) == CountInRange(xs, lo, hi)
  {
    if xs == [] {
      SumOfCountsEmpty(lo, hi);
    } else {
      var p := xs[..|xs| - 1];
      SumOfCountsIsCountInRange(p, lo, hi);
      assert xs == p + [xs[|xs| - 1]];
      SumOfCountsSnoc(p, xs[|xs| - 1], lo, hi);
    }
  }

  /** One more occurrence of k: `tally[k] = (tally[k] || 0) + 1`. */
  function Bump<K>(m: map<K, nat>, k: K): map<K, nat>
  {
    m[k := (if k in m then m[k] else 0) + 1]
  }

  /** The dictionary built by bumping every key of ks in turn. */
  function Tally<K>(ks: seq<K>): map<K, nat>
  {
    if ks == [] then map[] else Bump(Tally(ks[..|ks| - 1]), ks[|ks| - 1])
  }

  /** A tally holds exactly the keys that occur, each with its number of occurrences. */
  lemma {:induction false} TallyCounts<K>(ks: seq<K>)
    ensures forall k :: k in Tally(ks) <==> k in ks
    ensures forall k :: k in Tally(ks) ==> Tally(ks)[k] == Count(ks, k)
  {
    if ks != [] {
      var p := ks[..|ks| - 1];
      TallyCounts(p);
      assert ks == p + [ks[|ks| - 1]];
      assert forall k :: k in ks <==> k in p || k == ks[|ks| - 1];
      forall k | k in Tally(ks)
        ensures Tally(ks)[k] == Count(ks, k)
      {
        assert Count(ks, k) == Count(p, k) + (if ks[|ks| - 1] == k then 1 else 0);
        CountPositive(p, k);
      }
    }
  }

  /** Sum of m[k] over the keys in keys. */
  ghost function SumOver<K>(keys: set<K>, m: map<K, nat>): nat
    requires keys <= m.Keys
    decreases keys
  {
    if keys == {} then 0 else var k :| k in keys; m[k] + SumOver(keys - {k}, m)
  }

  /** Sum of all values of m. */
  ghost function MapSum<K>(m: map<K, nat>): nat
  {
    SumOver(m.Keys, m)
  }

  lemma SumOverRemove<K>(keys: set<K>, m: map<K, nat>, k: K)
    requires keys <= m.Keys && k in keys
    ensures SumOver(keys, m) == m[k] + SumOver(keys - {k}, m)
    decreases keys
  {
    var j :| j in keys && SumOver(keys, m) == m[j] + SumOver(keys - {j}, m);
    if j != k {
      SumOverRemove(keys - {j}, m, k);
      SumOverRemove(keys - {k}, m, j);
      assert keys - {j} - {k} == keys - {k} - {j};
    }
  }

  lemma SumOverAgree<K>(keys: set<K>, m1: map<K, nat>, m2: map<K, nat>)
    requires keys <= m1.Keys && keys <= m2.Keys
    requires forall k :: k in keys ==> m1[k] == m2[k]
    ensures SumOver(keys, m1) == SumOver(keys, m2)
    decreases keys
  {
    if keys != {} {
      var k :| k in keys;
      SumOverRemove(keys, m1, k);
      SumOverRemove(keys, m2, k);
      SumOverAgree(keys - {k}, m1, m2);
    }
  }

  lemma MapSumBump<K>(m: map<K, nat>, k: K)
    ensures MapSum(Bump(m, k)) == MapSum(m) + 1
  {
    var m' := Bump(m, k);
    SumOverRemove(m'.Keys, m', k);
    SumOverAgree(m'.Keys - {k}, m', m);
    if k in m {
      assert m'.Keys == m.Keys;
      SumOverRemove(m.Keys, m, k);
    } else {
      assert m'.Keys - {k} == m.Keys;
    }
  }

  /** Every key bumped adds one: the values of a tally sum to the number of keys tallied. */
  lemma {:induction false} TallyTotal<K>(ks: seq<K>)
    ensures MapSum(Tally(ks)) == |ks|
  {
    if ks == [] {
      assert Tally(ks).Keys == {};
    } else {
      TallyTotal(ks[..|ks| - 1]);
      MapSumBump(Tally(ks[..|ks| - 1]), ks[|ks| - 1]);
    }
  }
}
