/** The Some/None datatype used for every "found or not found" result of the core. */
module Wrappers {

  datatype Option<+T> = None | Some(value: T)

}
