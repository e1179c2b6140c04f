/** Sequence numbers that the database hands out as one more than the highest so far. */
module Numbering {
  /** `COALESCE(MAX(n), 0)`. */
  function Highest(numbers: seq<int>): int {
    if numbers == [] then 0
    else
      var m, n := Highest(numbers[..|numbers| - 1]), numbers[|numbers| - 1];
      if m > n then m else n
  }

  predicate FromOne(numbers: seq<int>) {
    forall i :: 0 <= i < |numbers| ==> numbers[i] == i + 1
  }

  /** On 1, 2, ..., n the highest is the count, so the next number leaves no gap. */
  lemma {:induction false} HighestFromOne(numbers: seq<int>)
    requires FromOne(numbers)
    ensures Highest(numbers) == |numbers|
  {
    if numbers != [] { HighestFromOne(numbers[..|numbers| - 1]); }
  }
}
