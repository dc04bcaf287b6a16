/** Failure-carrying results shared by every module of the model. */
module Wrappers {

  /** An optional value: Python's `None` or a present value. */
  datatype Option<+T> = None | Some(value: T) {

    /** The value, or `default` when absent (Python's `x if x is not None else default`). */
    function GetOr(default: T): T {
      match this
      case Some(v) => v
      case None => default
    }
  }

  /** The ways an operation of the story engine can fail. */
  datatype Error =
    | NotFound(id: string)          // a node id that is not a key of the story (Python KeyError)
    | IndexOutOfRange(index: nat)   // a choice index past the end of a choice list (Python IndexError)
    | NotAnObject(path: string)     // a JSON value that is not an object where one is read
    | MissingId(key: string)        // a node payload without an "id" field
    | BadChoice(key: string)        // a choice payload that `Choice(**c)` rejects
    | TypeMismatch(field: string)   // a JSON value of the wrong kind for a typed field
    | MissingTitle(index: nat)      // a seed entry without a "title" field

  /** The result of an operation that either yields a value or fails. */
  datatype Result<+T> = Ok(value: T) | Err(error: Error) {

    /** True if is Err; with the next two members this makes `:-` propagate the error. */
    predicate IsFailure() {
      Err?
    }

    /** The same error, as a result of another value type. */
    function PropagateFailure<U>(): Result<U>
      requires Err?
    {
      Err(error)
    }

    /** The value of an `Ok`. */
    function Extract(): T
      requires Ok?
    {
      value
    }
  }
}
