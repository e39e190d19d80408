/** The optional-value datatype the model uses for operations that may raise. */
module Wrappers {

  /** `None` stands for an exception the operation raises; `Some(v)` for a value. */
  datatype Option<+T> = None | Some(value: T)
}
