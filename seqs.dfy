/** Facts about sequences in general, used by the string and log reasoning. */
module Seqs {

  /** Concatenation of sequences is associative. */
  lemma AppendAssociative<T>(x: seq<T>, y: seq<T>, z: seq<T>)
    ensures x + (y + z) == (x + y) + z
  {
  }
}
