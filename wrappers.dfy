/** Small failure-carrying datatypes shared by the backend and the frontend model. */
module Wrappers {

  /** A value that may be absent: `null`/`undefined` in the original, or a missing JSON key. */
  datatype Option<+T> = None | Some(value: T)

  /** How an awaited call settled: it resolved with a value, or it threw an
      `Error` whose `message` is kept. */
  datatype Outcome<+T> = Ok(value: T) | Err(message: string)
}
