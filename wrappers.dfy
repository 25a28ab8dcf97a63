/** The optional value used across the model for results that may be absent. */
module Wrappers {

  datatype Option<+T> = None | Some(value: T)

}
