/** Small failure-compatible wrapper shared by the modules of the model. */
module Wrappers {

  /** A value that may be absent: an XML attribute that is not set, a file that could not be read. */
  datatype Option<+T> = None | Some(value: T)
}
