/** Facts about sequences that the solver does not find on its own. */
module Sequences {
  /** Concatenation is associative; stated once so proofs can regroup pieces without unfolding them. */
  lemma ConcatAssoc<T>(a: seq<T>, b: seq<T>, c: seq<T>)
    ensures a + (b + c) == (a + b) + c
  {
  }
}
