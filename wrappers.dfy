/** Option, standing in for Python's `None` and pandas' missing values. */
module Wrappers {
  datatype Option<+T> = None | Some(value: T)
}
