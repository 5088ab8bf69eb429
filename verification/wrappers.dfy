/** Failure-compatible optional value, used wherever the route yields `undefined`
    or a JavaScript exception is caught. */
module Wrappers {

  datatype Option<+T> = None | Some(value: T)
}
