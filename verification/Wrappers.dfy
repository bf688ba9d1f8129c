/** The two result shapes every component shares, and the error classes of passd/errors.py. */
module Wrappers {

  datatype Option<+T> = None | Some(value: T)

  /** `text or fallback`, for a string that may be missing. */
  function Or(text: Option<string>, fallback: string): string {
    if text.Some? && text.value != "" then text.value else fallback
  }

  lemma OrExactly(text: Option<string>, fallback: string)
    ensures text in {None, Some("")} ==> Or(text, fallback) == fallback
    ensures text in {None, Some("")} || text == Some(Or(text, fallback))
  {
  }

  // `Internal` stands for the exceptions that are not subclasses of PassdError
  // (an integrity error of the database, a malformed envelope, ...).
  datatype Error = AuthError | PermissionDenied | NotFound | Conflict | ValidationError | TransportError | RemoteError | Internal

  datatype Result<+T> = Ok(value: T) | Err(error: Error) {
    predicate IsFailure() { Err? }

    function PropagateFailure<U>(): Result<U>
      requires Err?
    {
      Err(error)
    }

    function Extract(): T
      requires Ok?
    {
      value
    }
  }
}
