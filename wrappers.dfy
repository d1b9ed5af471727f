/** Optional values and the outcome of a server action. */
module Wrappers {

  datatype Option<+T> = None | Some(value: T)

  /**
    A server action either returns a value or throws an `Error` whose message
    names the operation that failed.
   */
  datatype Result<+T> = Ok(value: T) | Err(message: string)
}
