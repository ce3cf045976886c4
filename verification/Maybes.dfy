/** A value that may be missing, in place of a null pointer or a sentinel. */
module Maybes {
  datatype Maybe<T> = None | Some(value: T)
}
