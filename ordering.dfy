/** Orders on keys and items, as Python's `<` and `==` behave on the values a
    sorted collection holds (numbers, strings, tuples of them). */
module Ordering {

  /** `lt` is a strict total order: irreflexive, transitive, and any two
      distinct values are comparable. */
  ghost predicate StrictTotalOrder<A(!new)>(lt: (A, A) -> bool) {
    && (forall a :: !lt(a, a))
    && (forall a, b, c :: lt(a, b) && lt(b, c) ==> lt(a, c))
    && (forall a, b :: a != b ==> lt(a, b) || lt(b, a))
  }

  /** Non-decreasing: no later element is strictly below an earlier one. */
  ghost predicate Sorted<A>(s: seq<A>, lt: (A, A) -> bool) {
    forall i, j :: 0 <= i < j < |s| ==> !lt(s[j], s[i])
  }
}
