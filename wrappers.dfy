/** The optional value used for nullable references and failed parses. */
module Wrappers {
  datatype Option<+T> = None | Some(value: T)
}
