/** The optional value shared by the mask helpers and the registration handler. */
module Wrappers {
  datatype Option<T> = None | Some(value: T)
}
