/** The optional-value datatype used for schedule entries and status messages. */
module Wrappers {

  datatype Option<+T> = None | Some(value: T)
}
