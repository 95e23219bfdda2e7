/** An optional value: a scanner that finds no match returns None. */
module Wrappers {
  datatype Option<+T> = None | Some(value: T)
}
