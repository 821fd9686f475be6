/** Small failure-carrying datatypes shared by the form models. */
module Wrappers {

  /** An optional value: `None` stands for JavaScript's `''`, `null`, `undefined` or `NaN`. */
  datatype Option<+T> = None | Some(value: T)
}
