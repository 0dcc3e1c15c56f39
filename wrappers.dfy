/** The optional-value wrapper used throughout the model for Python calls that may raise. */
module Wrappers {

  /** `None` stands for "the Python expression raised"; `Some(v)` for "it produced v". */
  datatype Option<+T> = None | Some(value: T)
}
