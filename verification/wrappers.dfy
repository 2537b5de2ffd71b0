/** The optional-value type shared by the rest of the model. */
module Wrappers {

  /** `None` stands for an absent value (a missing array key in the stored data). */
  datatype Option<+T> = None | Some(value: T)
}
