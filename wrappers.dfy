/** The optional value used by the searches of this model (a regular-expression
    match object or a format field that may be absent). */
module Wrappers {
  datatype Option<+T> = None | Some(value: T)
}
