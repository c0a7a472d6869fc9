/** Python's `None` and an optional value, as one datatype. */
module Wrappers {

  datatype Option<+T> = None | Some(value: T)
}
