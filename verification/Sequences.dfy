/** Facts about sequences that the solver has to be shown. */
module Sequences {
  lemma Reassociate<E>(a: seq<E>, b: seq<E>, c: seq<E>)
    ensures a + b + c == a + (b + c)
  {
  }
}
