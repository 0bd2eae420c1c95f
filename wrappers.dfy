/** The Option datatype that stands for JavaScript's `null` (or `undefined`) beside a value. */
module Wrappers {

  datatype Option<+T> = None | Some(value: T)
}
