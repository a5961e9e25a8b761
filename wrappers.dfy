/** The optional value used for absent JSON fields and for provider calls that fail. */
module Wrappers {

  datatype Option<+T> = None | Some(value: T)
}
