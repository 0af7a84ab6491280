/** The optional-value type used throughout the model. */
module Wrappers {

  /** `None` stands for JavaScript's `null` result where the script returns one. */
  datatype Option<+T> = None | Some(value: T)
}
