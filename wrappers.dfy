/** The optional value used for lookups that can miss and for conversions that can throw. */
module Wrappers {
  datatype Option<T> = None | Some(value: T)
}
