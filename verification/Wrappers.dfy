/** The usual optional value, used for `std::optional` slots and nullable results. */
module Wrappers {
  datatype Option<+T> = None | Some(value: T)
}
