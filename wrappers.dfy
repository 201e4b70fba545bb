/** The optional value used for JavaScript's `undefined`-or-something. */
module Wrappers {

  datatype Option<+T> = None | Some(value: T)
}
