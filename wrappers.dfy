/** Option and Result for the model's error paths (Java's null and runtime exceptions). */
module Wrappers {

  datatype Option<+T> = None | Some(value: T)

  /** The runtime exceptions the modelled Java code can raise. */
  datatype Error =
    | InvalidType   // GdxRuntimeException("Invalid type specified")
    | ClassCast     // a compareTo that casts the other attribute to its own class

  datatype Result<+T> = Ok(value: T) | Err(error: Error)
}
