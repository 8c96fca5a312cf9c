/** Option type used for the store's nullable rows and for inputs that may fail to parse. */
module Wrappers {
  datatype Option<+T> = None | Some(value: T)
}
