/** The optional value used for lookups that may find nothing and for inputs that may fail to parse. */
module Wrappers {

  datatype Option<+T> = None | Some(value: T)
}
