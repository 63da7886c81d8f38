/** The optional value used where the script relies on an exception. */
module Wrappers {

  /** `None` stands for `int(...)` raising `ValueError`. */
  datatype Option<+T> = None | Some(value: T)
}
