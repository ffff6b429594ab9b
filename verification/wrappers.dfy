/** The optional value used by the parsers and the profile lookup. */
module Wrappers {

  datatype Option<+T> = None | Some(value: T)
}
