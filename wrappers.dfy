/** The optional-value datatype used by the selection rule and by validation. */
module Wrappers {

  datatype Option<+T> = None | Some(value: T)
}
