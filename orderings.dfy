/**
 * Properties of a "greater-than" relation that a binary heap needs from its
 * element type. priorityQ<Type> in lander.h only ever asks `a > b`; the heap
 * stays correct as long as that relation is a strict weak order, which is
 * weaker than a total order (distinct elements may tie).
 */
module Orderings {

  /** Nothing outranks something that outranks it (in particular, nothing outranks itself). */
  ghost predicate Asymmetric<T(!new)>(greater: (T, T) -> bool) {
    forall x, y :: greater(x, y) ==> !greater(y, x)
  }

  /**
   * One instance of negative transitivity: if x outranks z, then y is
   * outranked by x or outranks z.
   */
  ghost predicate NegativelyTransitiveAt<T>(greater: (T, T) -> bool, x: T, y: T, z: T) {
    greater(x, z) ==> greater(x, y) || greater(y, z)
  }

  /**
   * "Does not outrank" is transitive. The quantifier is instantiated only
   * where a proof names the instance it needs, which keeps the heap proofs
   * from chasing every chain of comparisons.
   */
  ghost predicate NegativelyTransitive<T(!new)>(greater: (T, T) -> bool) {
    forall x, y, z {:trigger NegativelyTransitiveAt(greater, x, y, z)} :: NegativelyTransitiveAt(greater, x, y, z)
  }

  ghost predicate StrictWeakOrder<T(!new)>(greater: (T, T) -> bool) {
    Asymmetric(greater) && NegativelyTransitive(greater)
  }
}
