/** An optional value, standing for a column or a field that may be absent. */
module Wrappers {
  datatype Option<+T> = None | Some(value: T)
}
