/** The optional value used for the widgets' "return nothing" results. */
module Wrappers {

  /** None where the Python code returns nothing or raises; Some otherwise. */
  datatype Option<+T> = None | Some(value: T)
}
