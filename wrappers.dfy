/** The stock optional-value datatype shared by every module of the model. */
module Wrappers {

  /** `None` stands for a value that is absent (a missing attribute, a masked sample). */
  datatype Option<+T> = None | Some(value: T)
}
