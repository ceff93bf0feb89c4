/** A value or nothing, where the source has a nullable column or result. */
module Wrappers {

  datatype Optional<T> = None | Some(value: T)
}
