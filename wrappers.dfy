/** The Option type, standing for a cell that may be missing (pandas NaN). */
module Wrappers {
  datatype Option<+T> = None | Some(value: T)
}
