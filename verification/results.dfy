/** Failure-carrying values shared by the modules of the pub/sub model. */
module Results {

  /** The outcome of a Go call that returns only an `error`: nil or a failure value. */
  datatype Outcome<+E> = Pass | Fail(error: E)

  /** An optional value; `None` stands for "nothing happened" (e.g. a blocked receive). */
  datatype Option<+T> = None | Some(value: T)

  /** A state transition of a component together with the error the call returned. */
  datatype Transition<+S, +E> = Transition(state: S, outcome: Outcome<E>)
}
