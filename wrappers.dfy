/** Nullable values: PHP's `?T` typed properties and results. */
module Wrappers {
  datatype Option<+T> = None | Some(value: T)
}
