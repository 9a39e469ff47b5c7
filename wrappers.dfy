/** Option, for the places where the source returns None or a row may be missing. */
module Wrappers {

  datatype Option<+T> = None | Some(value: T)
}
