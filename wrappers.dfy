/** Optional values (JavaScript's `null`/`undefined`) and fallible results. */
module Wrappers {

  datatype Option<+T> = None | Some(value: T)

  /** The outcome of a client-side fetch: the decoded data, or the message of the thrown error. */
  datatype Result<+T> = Ok(value: T) | Failed(message: string)
}
