/** The stable comparison sort of `Array.prototype.sort`, as an insertion sort:
    a stable sort under a strict weak order has exactly one possible result, so
    any stable algorithm gives the same array. */
module Sorting {
  import opened Seqs

  /** Puts x in front of the first element of s that x must precede; the elements
      that x does not precede stay ahead of it, which is what keeps the sort stable. */
  function Insert<T>(x: T, s: seq<T>, before: (T, T) -> bool): (r: seq<T>)
    ensures multiset(r) == multiset(s) + multiset{x}
  {
    if s == [] then [x]
    else if before(x, s[0]) then [x] + s
    else
      assert s == [s[0]] + s[1..];
      [s[0]] + Insert(x, s[1..], before)
  }

  /** `s.sort(cmp)` where `before(a, b)` is `cmp(a, b) < 0`. */
  function SortBy<T>(s: seq<T>, before: (T, T) -> bool): (r: seq<T>)
    ensures multiset(r) == multiset(s)
    ensures |r| == |s|
  {
    if s == [] then []
    else
      assert s == s[..|s| - 1] + [s[|s| - 1]];
      var r := Insert(s[|s| - 1], SortBy(s[..|s| - 1], before), before);
      assert |r| == |multiset(r)|;
      r
  }

  /** The orders a comparator must describe for sorting to be meaningful:
      asymmetric, and "a before c" forces any b to be after a or before c. */
  ghost predicate StrictWeakOrder<T(!new)>(before: (T, T) -> bool)
  {
    && (forall a, b :: before(a, b) ==> !before(b, a))
    && (forall a, b, c :: before(a, c) ==> before(a, b) || before(b, c))
  }

  /** No element is placed after one it must precede. */
  ghost predicate SortedBy<T>(r: seq<T>, before: (T, T) -> bool)
  {
    forall i, j :: 0 <= i < j < |r| ==> !before(r[j], r[i])
  }

  /** Sorted by `before`, ties kept in ascending id order. */
  ghost predicate RankedBy<T>(r: seq<T>, before: (T, T) -> bool, id: T -> int)
  {
    forall i, j :: 0 <= i < j < |r| ==> before(r[i], r[j]) || (!before(r[j], r[i]) && id(r[i]) < id(r[j]))
  }

  lemma {:induction false} InsertSorted<T(!new)>(x: T, r: seq<T>, before: (T, T) -> bool)
    requires StrictWeakOrder(before)
    requires SortedBy(r, before)
    ensures SortedBy(Insert(x, r, before), before)
  {
    if r == [] {
    } else if before(x, r[0]) {
      var q := [x] + r;
      forall i, j | 0 <= i < j < |q| ensures !before(q[j], q[i]) {
        if i == 0 {
          assert !before(r[j - 1], r[0]) by { if j - 1 > 0 { assert SortedBy(r, before); } }
          assert before(x, r[j - 1]);
        }
      }
    } else {
      var t := Insert(x, r[1..], before);
      InsertSorted(x, r[1..], before);
      var q := [r[0]] + t;
      forall i, j | 0 <= i < j < |q| ensures !before(q[j], q[i]) {
        if i == 0 {
          assert q[j] in multiset(t);
          assert q[j] == x || q[j] in r[1..];
        }
      }
    }
  }

  /** Sorting under a strict weak order never leaves an element behind one it precedes. */
  lemma {:induction false} SortBySorted<T(!new)>(s: seq<T>, before: (T, T) -> bool)
    requires StrictWeakOrder(before)
    ensures SortedBy(SortBy(s, before), before)
  {
    if s != [] {
      SortBySorted(s[..|s| - 1], before);
      InsertSorted(s[|s| - 1], SortBy(s[..|s| - 1], before), before);
    }
  }

  /** An element that must precede the head of a ranked sequence may go first. */
  lemma PrependRanked<T(!new)>(x: T, r: seq<T>, before: (T, T) -> bool, id: T -> int)
    requires StrictWeakOrder(before)
    requires RankedBy(r, before, id)
    requires r != [] && before(x, r[0])
    ensures RankedBy([x] + r, before, id)
  {
    var q := [x] + r;
    forall i, j | 0 <= i < j < |q|
      ensures before(q[i], q[j]) || (!before(q[j], q[i]) && id(q[i]) < id(q[j]))
    {
      if i == 0 && j > 1 {
        assert !before(r[j - 1], r[0]);
        assert before(x, r[j - 1]);
      }
    }
  }

  /** An element ranked ahead of every element of a ranked sequence may go first. */
  lemma ConsRanked<T>(y: T, t: seq<T>, before: (T, T) -> bool, id: T -> int)
    requires RankedBy(t, before, id)
    requires forall z :: z in t ==> before(y, z) || (!before(z, y) && id(y) < id(z))
    ensures RankedBy([y] + t, before, id)
  {
    var q := [y] + t;
    forall i, j | 0 <= i < j < |q|
      ensures before(q[i], q[j]) || (!before(q[j], q[i]) && id(q[i]) < id(q[j]))
    {
      if i == 0 {
        assert q[j] == t[j - 1];
        assert t[j - 1] in t;
      } else {
        assert q[i] == t[i - 1] && q[j] == t[j - 1];
      }
    }
  }

  lemma {:induction false} InsertRanked<T(!new)>(x: T, r: seq<T>, before: (T, T) -> bool, id: T -> int)
    requires StrictWeakOrder(before)
    requires RankedBy(r, before, id)
    requires forall y :: y in r ==> id(y) < id(x)
    ensures RankedBy(Insert(x, r, before), before, id)
  {
    if r == [] {
    } else if before(x, r[0]) {
      PrependRanked(x, r, before, id);
    } else {
      var t := Insert(x, r[1..], before);
      assert forall y :: y in r[1..] ==> y in r;
      InsertRanked(x, r[1..], before, id);
      forall z | z in t
        ensures before(r[0], z) || (!before(z, r[0]) && id(r[0]) < id(z))
      {
        assert z in multiset(t);
        assert z == x || z in r[1..];
        if z != x {
          var k :| 1 <= k < |r| && r[k] == z;
        }
      }
      ConsRanked(r[0], t, before, id);
    }
  }

  /** Stability: an input in ascending id order comes out sorted, with ties in ascending id order. */
  lemma {:induction false} SortByRanked<T(!new)>(s: seq<T>, before: (T, T) -> bool, id: T -> int)
    requires StrictWeakOrder(before)
    requires forall i, j :: 0 <= i < j < |s| ==> id(s[i]) < id(s[j])
    ensures RankedBy(SortBy(s, before), before, id)
  {
    if s != [] {
      var p := s[..|s| - 1];
      var r := SortBy(p, before);
      SortByRanked(p, before, id);
      forall y | y in r ensures id(y) < id(s[|s| - 1]) {
        assert y in multiset(p);
        var k :| 0 <= k < |p| && p[k] == y;
      }
      InsertRanked(s[|s| - 1], r, before, id);
    }
  }

  /** The numeric comparator `(a, b) => a - b`. */
  function Less(a: int, b: int): bool
  {
    a < b
  }

  /** `[...s].sort((a, b) => a - b)`. */
  function SortAscending(s: seq<int>): (r: seq<int>)
    ensures multiset(r) == multiset(s)
    ensures |r| == |s|
    ensures forall i, j :: 0 <= i < j < |r| ==> r[i] <= r[j]
  {
    var r := SortBy(s, Less);
    SortBySorted(s, Less);
    r
  }

  /** Sorting numbers without repetitions orders them strictly. */
  lemma SortedStrictly(s: seq<int>)
    requires Distinct(s)
    ensures var r := SortAscending(s);
            forall a, b :: 0 <= a < b < |r| ==> r[a] < r[b]
  {
    var r := SortAscending(s);
    forall a, b | 0 <= a < b < |r| ensures r[a] < r[b] {
      if r[a] == r[b] {
        TwiceInMultiset(r, a, b);
        DistinctOnce(s, r[a]);
      }
    }
  }

  lemma TwiceInMultiset(r: seq<int>, a: nat, b: nat)
    requires a < b < |r| && r[a] == r[b]
    ensures multiset(r)[r[a]] >= 2
  {
    assert r == r[..b] + [r[b]] + r[b + 1..];
    assert r[..b][a] == r[a];
    assert multiset(r[..b])[r[a]] >= 1;
  }

  /** In a sequence without repetitions every element occurs once. */
  lemma {:induction false} DistinctOnce(s: seq<int>, x: int)
    requires Distinct(s)
    ensures multiset(s)[x] <= 1
  {
    if s != [] {
      var p := s[..|s| - 1];
      assert s == p + [s[|s| - 1]];
      assert forall y :: y in p ==> y != s[|s| - 1];
      DistinctOnce(p, x);
      if x == s[|s| - 1] {
        assert x !in p;
      }
    }
  }

  predicate Ascending(s: seq<int>)
  {
    forall i, j :: 0 <= i < j < |s| ==> s[i] <= s[j]
  }

  /** Two ascending sequences holding the same numbers are equal. */
  lemma {:induction false} AscendingUnique(r: seq<int>, s: seq<int>)
    requires Ascending(r) && Ascending(s) && multiset(r) == multiset(s)
    ensures r == s
  {
    SameLength(r, s);
    if r != [] {
      HeadIsLeast(r, s);
      HeadIsLeast(s, r);
      DropHead(r);
      DropHead(s);
      AscendingUnique(r[1..], s[1..]);
      SameHeadAndTail(r, s);
    }
  }

  lemma SameLength(r: seq<int>, s: seq<int>)
    requires multiset(r) == multiset(s)
    ensures |r| == |s|
  {
    assert |s| == |multiset(s)| == |multiset(r)| == |r|;
  }

  lemma SameHeadAndTail(r: seq<int>, s: seq<int>)
    requires r != [] && s != [] && r[0] == s[0] && r[1..] == s[1..]
    ensures r == s
  {
    assert r == [r[0]] + r[1..] && s == [s[0]] + s[1..];
  }

  /** Dropping the head of an ascending sequence. */
  lemma DropHead(r: seq<int>)
    requires r != [] && Ascending(r)
    ensures Ascending(r[1..]) && multiset(r[1..]) == multiset(r) - multiset{r[0]}
  {
    assert r == [r[0]] + r[1..];
  }

  /** The head of an ascending sequence is at most every number of another
      sequence holding the same numbers. */
  lemma HeadIsLeast(r: seq<int>, s: seq<int>)
    requires r != [] && s != [] && Ascending(r) && multiset(r) == multiset(s)
    ensures r[0] <= s[0]
  {
    assert s[0] in multiset(r);
    var j :| 0 <= j < |r| && r[j] == s[0];
    assert j == 0 || r[0] <= r[j];
  }

  /** Sorting an ascending sequence leaves it as it is. */
  lemma SortAscendingKeeps(s: seq<int>)
    requires Ascending(s)
    ensures SortAscending(s) == s
  {
    AscendingUnique(SortAscending(s), s);
  }
}
