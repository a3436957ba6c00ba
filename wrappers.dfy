/** The optional value used where the source has a nullable reference or a
    lookup that may fail. */
module Wrappers {
  datatype Option<T> = None | Some(value: T)
}
