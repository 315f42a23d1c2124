/** The optional value used wherever the scripts return `None` or may not produce a result. */
module Wrappers {
  datatype Option<+T> = None | Some(value: T)
}
