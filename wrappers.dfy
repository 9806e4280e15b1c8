/** The optional value used throughout the model: JavaScript's `undefined`/`null`
    results of a failed `match`, a missing object property, an absent style. */
module Wrappers {
  datatype Option<+T> = None | Some(value: T)
}
