/** Facts about sequences that several modules share. */
module Seqs {

  /** Splitting the head off a concatenation whose left part is not empty. */
  lemma TailOfAppend<T>(a: seq<T>, b: seq<T>)
    requires |a| > 0
    ensures (a + b)[0] == a[0] && (a + b)[1..] == a[1..] + b
  {
  }
}
