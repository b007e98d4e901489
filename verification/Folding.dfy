/** A proof idiom. A predicate whose body is guarded by `Unfold` stays folded in proofs that
    only pass it along: the verifier expands it where a proof mentions `Unfold(0)`, or
    where it must establish the predicate. The guard is always true. */
module Folding {
  predicate Unfold(x: int) { true }
}
