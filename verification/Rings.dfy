/** Circular lists with a dummy head, as sequences. */
module Rings {
  import opened Keys

  /** Position `j` on the way round from the head through `q` and back. */
  function Around<T>(head: T, q: seq<T>, j: nat): T {
    if 0 < j <= |q| then q[j - 1] else head
  }

  ghost predicate Distinct<T>(head: T, q: seq<T>) {
    NoRepeats(q) && head !in q
  }

  lemma AroundDiffers<T>(head: T, q: seq<T>, i: nat, j: nat)
    requires Distinct(head, q) && i < j <= |q| + 1 && !(i == 0 && j == |q| + 1)
    ensures Around(head, q, i) != Around(head, q, j)
  {
  }
}
