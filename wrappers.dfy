/** The conventional optional value: a timestamp that may have failed to parse,
    or a dashboard that may not be shown. */
module Wrappers {
  datatype Option<+T> = None | Some(value: T)
}
