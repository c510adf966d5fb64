/** An optional value, standing for a Python value that may be `None`. */
module Wrappers {

  datatype Option<+T> = None | Some(value: T)
}
