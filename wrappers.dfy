/** Small failure-compatible wrapper shared by the other modules. */
module Wrappers {

  /** A value that may be absent (also stands for a C# `null` reference). */
  datatype Option<+T> = None | Some(value: T)
}
