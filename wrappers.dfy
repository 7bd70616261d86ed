/** The optional value used for Python's `None` and for "no match". */
module Wrappers {
  datatype Option<+T> = None | Some(value: T)
}
