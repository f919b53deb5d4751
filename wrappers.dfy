/** A value that may be absent: how the model writes the C# `null` of a reference-typed property. */
module Wrappers {
  datatype Option<+T> = None | Some(value: T)
}
