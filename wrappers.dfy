/** The absent-value sentinel used throughout the model (pandas' `None`). */
module Wrappers {

  datatype Option<+T> = None | Some(value: T)
}
