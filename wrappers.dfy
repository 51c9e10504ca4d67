/** The optional result used wherever the Java code returns a reference that may be null. */
module Wrappers {
  datatype Option<T> = None | Some(value: T)
}
