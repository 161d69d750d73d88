/** The optional value shared by every module: a nullable column or an absent record. */
module Wrappers {
  datatype Option<+T> = None | Some(value: T)
}
