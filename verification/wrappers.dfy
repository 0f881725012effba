/** The optional-value wrapper shared by every module of the model. */
module Wrappers {

  /** `None` plays the part of Python's `None` where the source returns an optional value. */
  datatype Option<+T> = None | Some(value: T)
}
