/** The optional-value datatype used to model a Python call that may raise. */
module Wrappers {

  /** `None` stands for a call that raised; `Some(v)` for one that returned `v`. */
  datatype Option<+T> = None | Some(value: T)
}
