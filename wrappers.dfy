/** The optional value shared by the modules of this project: Python's
    "a value or None". */
module Wrappers {

  datatype Option<+T> = None | Some(value: T)
}
