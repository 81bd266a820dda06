/** Option and Result, the two wrappers the model uses for JavaScript's
    `undefined` and for operations that throw. */
module Wrappers {

  datatype Option<+T> = None | Some(value: T)

  /** The errors the modelled code can raise: the host operations are
      total, so only a property access on undefined remains. */
  datatype Error = TypeError

  datatype Result<+T> = Ok(value: T) | Err(error: Error)
}
