/** The option type used for the source's "value or nothing" and "succeeded or raised" results. */
module Wrappers {
  datatype Option<+T> = None | Some(value: T)
}
