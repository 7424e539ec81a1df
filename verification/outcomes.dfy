/**
  Failure-carrying values shared by every module: an optional value (the
  source's `T | null`), the value a JavaScript `throw` can carry, and the
  settled state of a promise that either resolves or rejects.
 */
module Outcomes {

  /** `T | null` in the source. */
  datatype Option<+T> = None | Some(value: T) {
    function GetOr(default: T): T {
      match this
      case Some(v) => v
      case None => default
    }
  }

  /** What a `throw` carries: an `Error` object with its message, or any other value. */
  datatype Thrown = ErrorObject(message: string) | NonError

  /** A promise that resolved with a value or rejected with a thrown value. */
  datatype Result<+T> = Ok(value: T) | Err(thrown: Thrown) {
    predicate IsFailure() {
      Err?
    }

    function PropagateFailure<U>(): Result<U>
      requires Err?
    {
      Err(thrown)
    }

    function Extract(): T
      requires Ok?
    {
      value
    }
  }
}
