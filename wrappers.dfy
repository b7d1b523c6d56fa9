/** The `T | null` values of the source, written as an option type. */
module Wrappers {

  datatype Option<+T> = None | Some(value: T)
}
