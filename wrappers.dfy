/** The optional value used for JavaScript's `null`/`undefined` and for absent fields. */
module Wrappers {
  datatype Option<+T> = None | Some(value: T)
}
