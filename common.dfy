/** Shared value types: Python's `Optional`, and the exceptions the modelled code raises. */
module Common {

  /** `None` or a present value, as Python's `Optional[T]`. */
  datatype Option<T> = None | Some(value: T)

  /**
   * The exceptions of the modelled code. The first three and `Malformed` are all
   * `ValueError` in the source, told apart here by the guard that raised them.
   */
  datatype Error =
    | NotFound         // no task (or archived task) with that id or queue position
    | InvalidState     // the task's status does not allow the operation
    | InvalidPosition  // a queue position outside the queue
    | IntegrityError   // sqlite3.IntegrityError: the primary key is already present
    | Malformed        // text that does not parse: a number, or a playlist
    | ForeignError     // an exception raised by a collaborator outside the model

  /** The value a call returns, or the exception it raises. */
  datatype Result<T> = Ok(value: T) | Err(error: Error)

  /** A call that returns nothing, or the exception it raises. */
  datatype Outcome = Done | Raised(error: Error)
}
