/** The optional value used wherever a parse can fail. */
module Wrappers {

  datatype Option<+T> = None | Some(value: T)
}
