/** Small sequence operations shared by the analysers: the JavaScript
    `Array.prototype.slice` index rules, sums, extremes and distinctness. */
module Seqs {

  /** How `slice` turns a possibly negative index into a position in 0..len. */
  function RelativeIndex(i: int, len: nat): (r: nat)
    ensures r <= len
    ensures 0 <= i <= len ==> r == i
    ensures i < 0 && -i <= len ==> r == len + i
  {
    if i < 0 then (if len + i < 0 then 0 else len + i)
    else if i > len then len
    else i
  }

  /** `s.slice(start, end)`. */
  function Slice<T>(s: seq<T>, start: int, end: int): seq<T>
  {
    var a := RelativeIndex(start, |s|);
    var b := RelativeIndex(end, |s|);
    if a < b then s[a..b] else []
  }

  /** `s.slice(start)`. */
  function SliceFrom<T>(s: seq<T>, start: int): seq<T>
  {
    Slice(s, start, |s|)
  }

  function Reverse<T>(s: seq<T>): seq<T>
  {
    if s == [] then [] else [s[|s| - 1]] + Reverse(s[..|s| - 1])
  }

  lemma {:induction false} ReverseAt<T>(s: seq<T>, k: nat)
    requires k < |s|
    ensures |Reverse(s)| == |s| && Reverse(s)[k] == s[|s| - 1 - k]
  {
    ReverseLength(s);
    if k > 0 {
      ReverseAt(s[..|s| - 1], k - 1);
    }
  }

  lemma {:induction false} ReverseLength<T>(s: seq<T>)
    ensures |Reverse(s)| == |s|
  {
    if s != [] {
      ReverseLength(s[..|s| - 1]);
    }
  }

  /** `s.reduce((a, b) => a + b, 0)`. */
  function Sum(s: seq<int>): int
  {
    if s == [] then 0 else Sum(s[..|s| - 1]) + s[|s| - 1]
  }

  /** A sum of |s| values between lo and hi lies between |s| * lo and |s| * hi. */
  lemma {:induction false} SumBounds(s: seq<int>, lo: int, hi: int)
    requires forall x :: x in s ==> lo <= x <= hi
    ensures |s| * lo <= Sum(s) <= |s| * hi
  {
    if s != [] {
      var p := s[..|s| - 1];
      assert forall x :: x in p ==> x in s;
      assert s[|s| - 1] in s;
      SumBounds(p, lo, hi);
      assert |s| * lo == |p| * lo + lo;
      assert |s| * hi == |p| * hi + hi;
    }
  }

  /** `Math.max(...s)` on a non-empty array. */
  function Max(s: seq<int>): (m: int)
    requires |s| > 0
    ensures m in s
    ensures forall x :: x in s ==> x <= m
  {
    if |s| == 1 then s[0]
    else
      var p := Max(s[1..]);
      assert forall x :: x in s ==> x == s[0] || x in s[1..];
      if s[0] > p then s[0] else p
  }

  /** `Math.min(...s)` on a non-empty array. */
  function Min(s: seq<int>): (m: int)
    requires |s| > 0
    ensures m in s
    ensures forall x :: x in s ==> m <= x
  {
    if |s| == 1 then s[0]
    else
      var p := Min(s[1..]);
      assert forall x :: x in s ==> x == s[0] || x in s[1..];
      if s[0] < p then s[0] else p
  }

  predicate Distinct<T(==)>(s: seq<T>)
  {
    forall i, j :: 0 <= i < j < |s| ==> s[i] != s[j]
  }

  /** 1, 2, ..., 60: the numbers of the lottery, in the order `for (let i = 1; i <= 60; i++)` visits them. */
  function Range(lo: int, hi: int): (r: seq<int>)
    ensures |r| == if hi < lo then 0 else hi - lo + 1
    ensures forall k :: 0 <= k < |r| ==> r[k] == lo + k
  {
    if hi < lo then [] else seq(hi - lo + 1, k => lo + k)
  }

  /** An exact quotient num / den, standing for a JavaScript floating-point division. */
  datatype Ratio = Ratio(num: int, den: nat)
}
