/** Optional values and error-carrying results, standing for Python's `None`
    and for the exceptions the bot raises and catches. */
module Wrappers {

  datatype Option<+T> = None | Some(value: T)

  /** `Err` carries the message of the exception the source raises. */
  datatype Result<+T> = Ok(value: T) | Err(message: string)
}
