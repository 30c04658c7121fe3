/**
 * A predicate of the form `forall n: nat :: Unfolding(n) ==> P` says P, but the solver only sees P where a proof
 * mentions `Unfolding`. It keeps long definitions out of proofs that do not look inside them.
 */
module Folding {
  predicate Unfolding(n: nat) { true }
}
