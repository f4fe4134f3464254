/** The missing-value wrapper: `None` plays the part of a pandas NaN label. */
module Wrappers {
  datatype Option<+T> = None | Some(value: T)
}
