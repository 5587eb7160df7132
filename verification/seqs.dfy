/** Sequence facts shared by the other modules. */
module Seqs {
  /** Regrouping a concatenation: stated once so that a proof can ask for
      it instead of leaving the solver to rediscover it. */
  lemma AppendAssoc<T>(a: seq<T>, b: seq<T>, c: seq<T>)
    ensures (a + b) + c == a + (b + c)
  {
  }
}
