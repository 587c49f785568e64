/**
 What a call to a store (a Postgres statement, a Redis command, a gRPC or SpiceDB
 request) can do. Every operation of the model takes the outcomes of its store calls
 as arguments, so a statement about all arguments is a statement about all failures.
 */
module Outcomes {

  /** `Refused`: no effect and an error. `Lost`: the effect happened but the caller
      still sees an error (the reply was lost). */
  datatype Outcome = Done | Refused | Lost {
    /** The write took effect. */
    predicate Applied() {
      this != Refused
    }
  }

  datatype Option<+T> = None | Some(value: T)

  /** The outcome of the `i`-th call of a loop; calls beyond the list succeed. */
  function At(outcomes: seq<Outcome>, i: nat): Outcome {
    if i < |outcomes| then outcomes[i] else Done
  }
}
