module Clocks {
  /** An operation on a shared store, and the time of the store's clock. */
  datatype Call<Op> = Call(op: Op, now: real)

  /** The clock does not go back. */
  ghost predicate Timely<Op>(calls: seq<Call<Op>>) {
    forall i :: 0 < i < |calls| ==> calls[i - 1].now <= calls[i].now
  }

  lemma {:induction false} ClockGrows<Op>(calls: seq<Call<Op>>, i: nat, j: nat)
    requires Timely(calls) && i <= j < |calls|
    ensures calls[i].now <= calls[j].now
    decreases j
  {
    if i < j {
      ClockGrows(calls, i, j - 1);
    }
  }
}
