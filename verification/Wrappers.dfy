/** A value that may be missing: `undefined`, `null`, NaN and failed searches of the source. */
module Wrappers {
  datatype Option<+T> = None | Some(value: T)
}
