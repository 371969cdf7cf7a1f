/** Option and Result values, and the Python exceptions the converter can raise. */
module Wrappers {

  datatype Option<+T> = None | Some(value: T)

  /** The exceptions brd2svg.py raises on malformed input; each one ends the run. */
  datatype Error =
    | TypeError   // float() applied to a missing attribute (None)
    | ValueError  // float() or int() applied to text that is not a number, or bounding_box([])

  datatype Result<+T> = Ok(value: T) | Err(error: Error)
}
