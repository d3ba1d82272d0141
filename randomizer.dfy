/**
 * The process-wide random source, reduced to its contract. Every random
 * decision becomes an arbitrary legal choice (`:|`), so whatever is proved
 * about a caller holds for every outcome the generator could produce.
 */
module Randomizer {

  /** std::shuffle over a whole vector: the elements are permuted in place.
      Written as a Fisher-Yates walk whose swap partner is any legal position. */
  method Shuffle(a: array<int>)
    modifies a
    ensures multiset(a[..]) == old(multiset(a[..]))
  {
    var i := a.Length;
    while i > 1
      invariant 0 <= i <= a.Length
      invariant multiset(a[..]) == old(multiset(a[..]))
    {
      var j :| 0 <= j < i;
      a[i - 1], a[j] := a[j], a[i - 1];
      i := i - 1;
    }
  }

  /** Randomizer::GetRandomElement: one draw, with replacement, from `elements`. */
  method GetRandomElement(elements: seq<int>) returns (e: int)
    requires |elements| > 0
    ensures e in elements
  {
    var k :| 0 <= k < |elements|;
    e := elements[k];
  }
}
