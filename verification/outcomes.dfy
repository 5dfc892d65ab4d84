/** Errors and results of the Markov chain's operations. Python raises
    exceptions; here every operation returns what the caller would observe. */
module Outcomes {

  /** The exceptions the chain can raise. */
  datatype Error =
    | InvalidOrder       // ValueError from the constructor: `order` is not a positive integer
    | InvalidPathLength  // ValueError from add_path: the path is not longer than the order
    | InvalidStateType   // TypeError from check_state_type: a new label is neither str nor int
    | EmptyRange         // ValueError from randint(1, 0): sampling a table whose counts sum to 0

  datatype Option<+T> = None | Some(value: T)

  /** The result of a call that builds a value from nothing (the constructor, generate_path). */
  datatype Result<+T> = Ok(value: T) | Err(error: Error)

  /** The result of a call that mutates an object: the object's state once the
      call is over and, when the call raised, the exception. Python does not
      roll back, so a raising call may still have changed the state. */
  datatype Outcome<+S> = Returned(state: S) | Raised(state: S, error: Error)
}
