/** The optional-value wrapper used wherever the source has `None`. */
module Wrappers {

  datatype Option<+T> = None | Some(value: T)
}
