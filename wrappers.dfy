/** The optional value used where the source has `Option` (a parsed number,
    a map lookup, the first match of a search). */
module Wrappers {
  datatype Option<T> = None | Some(value: T)
}
