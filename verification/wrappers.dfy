/** Python's "a value or None", as an explicit datatype. */
module Wrappers {

  datatype Option<+T> = None | Some(value: T)
}
