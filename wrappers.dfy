/** The optional-value wrapper shared by the other modules. */
module Wrappers {

  /** A value that may be missing: an absent dictionary key, a pattern that did not match, a line that did not parse. */
  datatype Option<+T> = None | Some(value: T)
}
