/** Python's `None`-or-value, used for an optional header value and for a
    decoder that may raise. */
module Wrappers {

  datatype Option<+T> = None | Some(value: T)
}
