/** The usual optional-value datatype, used for absent map, marker and match results. */
module Wrappers {
  datatype Option<T> = None | Some(value: T)
}
