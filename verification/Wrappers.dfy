/** Small shared definitions. */
module Wrappers {
  datatype Option<+T> = None | Some(value: T)

  /**
   A handle for opening large invariants. An invariant written as
   `forall u {:trigger Look(u)} :: Look(u) ==> Body` says no more and no less than Body, but
   the verifier only looks at Body where a proof mentions Look, which keeps proofs that merely
   pass the invariant along small.
   */
  ghost predicate Look(u: int) {
    u == u
  }

  /** A byte holds any number below 256. */
  lemma ByteRoundTrip(x: int)
    requires 0 <= x < 256
    ensures (x as bv8) as int == x
  {
  }
}
