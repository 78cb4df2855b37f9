/** Sealed predicates. A predicate P(x) is written as forall k {:trigger Look(k)} :: Look(k) ==> Body(x): the solver
    carries P(x) around without looking inside, because nothing in a proof mentions Look. A proof that needs the
    body says so with assert Look(0); proving P(x) opens all bodies that are sealed like this. */
module Sealing {
  predicate Look(k: int) { true }

  /** The same for a predicate that stays sealed while another one is open. */
  predicate Peek(k: int) { true }

  /** Sealed by a part x of the state: only predicates about the same x are opened together. */
  predicate LookAt<T(!new)>(x: T, k: int) { true }

  predicate PeekAt<T(!new)>(x: T, k: int) { true }
}
