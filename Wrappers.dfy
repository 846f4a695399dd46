/** The optional value used where the source has a nullable reference or a cancelled dialog. */
module Wrappers {

  datatype Option<+T> = None | Some(value: T)
}
