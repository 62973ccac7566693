/** The optional-value datatype used for the program's validation and allocation outcomes. */
module Wrappers {

  /** `None` stands for the path on which the program reports an error and exits. */
  datatype Option<+T> = None | Some(value: T)
}
