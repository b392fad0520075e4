/** Option and Result wrappers shared by both generations of the kernel. */
module Outcomes {

  /** A value that may be absent (a null pointer, a missing map entry). */
  datatype Option<+T> = None | Some(value: T)

  /** A value, or the exception that interrupted its computation. */
  datatype Result<+T, +E> = Ok(value: T) | Err(error: E)
}
