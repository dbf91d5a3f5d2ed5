/** Failure values of the generator.

    Every Python exception the generator can raise while synthesising code
    becomes a `GenError`; a synthesis step returns a `Result` so that the
    first failure aborts the whole run, as an uncaught exception does.
 */
module Errors {

  /** The exceptions generate.py raises during a run. */
  datatype GenError =
    | TypeError(typeName: string)     // "Can't convert <type> to/from string!"
    | KeyError(key: string)           // a dict lookup on a missing key
    | ValueError(what: string)        // unknown request handler / unknown target
    | RecursionLimit                  // Python's recursion limit (typedef cycles)

  datatype Option<+T> = None | Some(value: T)

  datatype Result<+T> = Ok(value: T) | Err(error: GenError) {

    predicate IsFailure() {
      Err?
    }

    function PropagateFailure<U>(): Result<U>
      requires Err?
    {
      Err(error)
    }

    function Extract(): T
      requires Ok?
    {
      value
    }
  }
}
