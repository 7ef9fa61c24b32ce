/** What lists of block numbers, of blocks and of list entries have in common. */
module Sequences {

  /** Nothing occurs twice. */
  predicate NoDup<T(==)>(s: seq<T>) {
    forall i, j | 0 <= i < j < |s| :: s[i] != s[j]
  }
}
