/** Failure-carrying datatypes shared by the whole model.

The Python wrappers signal failure by raising; each exception the modelled
code can raise is one constructor of `Error`, and an operation that may raise
returns a `Result`.
 */
module Outcome {

  /** A value that may be absent; used for order fields the wrapper leaves at
      their library default. */
  datatype Option<+T> = None | Some(value: T)

  /** The exceptions raised by the modelled code. */
  datatype Error =
      /** `ValueError` from unpacking `range.split('-')` into two names:
          the range split into `parts` pieces instead of two. */
    | UnpackMismatch(parts: nat)
      /** `ValueError` from `strptime(text, "%Y%m%d:%H%M")`. */
    | BadTimestamp(text: string)
      /** `KeyError` from indexing the period table with `period`. */
    | UnknownPeriod(period: string)

  datatype Result<+T> = Ok(value: T) | Err(error: Error) {

    predicate IsFailure() {
      Err?
    }

    function PropagateFailure<U>(): Result<U>
      requires Err?
    {
      Err(error)
    }

    function Extract(): T
      requires Ok?
    {
      value
    }
  }
}
