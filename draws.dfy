/** The draw record shared by the importer and the analysers. */
module Draws {
  import opened Wrappers

  /** The smallest and largest lottery numbers. */
  const Lowest: int := 1
  const Highest: int := 60

  /** A stored draw. `numbers` is None when the record's `numbers` field is
      missing or is not an array; such a record is skipped by every analyser. */
  datatype Draw = Draw(drawNumber: int, drawDate: string, numbers: Option<seq<int>>)

  predicate InDomain(n: int)
  {
    Lowest <= n <= Highest
  }

  /** A per-number table holds exactly the keys 1..60. */
  ghost predicate HasDomainKeys<V>(m: map<int, V>)
  {
    forall n {:trigger n in m} :: n in m <==> InDomain(n)
  }

  /** The `numbers` arrays of the usable draws, in order. */
  function ValidNumbers(draws: seq<Draw>): seq<seq<int>>
  {
    if draws == [] then []
    else
      var last := draws[|draws| - 1];
      ValidNumbers(draws[..|draws| - 1]) + (if last.numbers.Some? then [last.numbers.value] else [])
  }

  /** Every entry of every usable draw, in order. */
  function AllNumbers(draws: seq<Draw>): seq<int>
  {
    if draws == [] then []
    else
      var last := draws[|draws| - 1];
      AllNumbers(draws[..|draws| - 1]) + (if last.numbers.Some? then last.numbers.value else [])
  }

  /** The value key(numbers) of each usable draw, in order. */
  function KeysOf<K>(draws: seq<Draw>, key: seq<int> -> K): seq<K>
  {
    if draws == [] then []
    else
      var last := draws[|draws| - 1];
      KeysOf(draws[..|draws| - 1], key) + (if last.numbers.Some? then [key(last.numbers.value)] else [])
  }

  /** Extending a prefix of the draws by one draw adds that draw's key, if it is usable. */
  lemma KeysOfSnoc<K>(draws: seq<Draw>, d: nat, key: seq<int> -> K)
    requires d < |draws|
    ensures KeysOf(draws[..d + 1], key)
         == KeysOf(draws[..d], key) + (if draws[d].numbers.Some? then [key(draws[d].numbers.value)] else [])
  {
    assert draws[..d + 1][..d] == draws[..d];
  }

  /** One key per usable draw, computed from that draw's numbers. */
  lemma {:induction false} KeysOfValid<K>(draws: seq<Draw>, key: seq<int> -> K)
    ensures |KeysOf(draws, key)| == |ValidNumbers(draws)|
    ensures forall i :: 0 <= i < |KeysOf(draws, key)| ==> KeysOf(draws, key)[i] == key(ValidNumbers(draws)[i])
  {
    if draws != [] {
      KeysOfValid(draws[..|draws| - 1], key);
    }
  }
}
