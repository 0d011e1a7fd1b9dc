/** Results of partial operations. */
module Wrappers {
  datatype Option<+T> = None | Some(value: T)

  /** What a call that may throw leaves behind. */
  datatype Outcome<+T> = Threw | Returned(value: T)
}

/** Parts of a sequence that keep its order. */
module Selections {
  ghost predicate Ascending(at: seq<nat>) {
    forall i, j :: 0 <= i < j < |at| ==> at[i] < at[j]
  }

  /** The part is what stands at the given places, in order. */
  ghost predicate Picks<T>(xs: seq<T>, at: seq<nat>, part: seq<T>) {
    && |at| == |part| && Ascending(at)
    && forall i :: 0 <= i < |at| ==> at[i] < |xs| && part[i] == xs[at[i]]
  }
}
