/** The optional-value datatype shared by the wizard and the submission client. */
module Wrappers {

  /** `None` stands for JavaScript's `undefined`. */
  datatype Option<+T> = None | Some(value: T)
}
