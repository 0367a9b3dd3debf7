/** The usual Some/None datatype: `None` stands for JavaScript's NaN or a missing value. */
module Wrappers {
  datatype Option<+T> = None | Some(value: T)
}
