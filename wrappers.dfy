/** Option and Result, used for the null / undefined values and the thrown or fatal
    errors of the modelled TypeScript code. */
module Wrappers {

  datatype Option<+T> = None | Some(value: T)

  /** `Err` stands for an exception thrown, or a process abort, in the source. */
  datatype Result<+T> = Ok(value: T) | Err(message: seq<char>)
}
