/** A law of sequences that the solver does not apply by itself. */
module Sequences {

  lemma Concat<T>(a: seq<T>, b: seq<T>, c: seq<T>)
    ensures a + b + c == a + (b + c)
  {
  }
}
