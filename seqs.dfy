/** General facts about sequences that the other modules share. */
module Seqs {

  /** Concatenation is associative; stated once so that proofs can move
      the parentheses of long concatenations one step at a time. */
  lemma AppendAssoc<T>(a: seq<T>, b: seq<T>, c: seq<T>)
    ensures a + b + c == a + (b + c)
  {
  }
}
