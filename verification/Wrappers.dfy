/** An optional value: `None` stands for an error raised by the source or for a missing file. */
module Wrappers {
  datatype Option<T> = None | Some(value: T)
}
