/** The optional value used wherever the analysed code tests for a missing or
    unusable value (`undefined`, `NaN`, a field that is not an array). */
module Wrappers {

  datatype Option<+T> = None | Some(value: T)
}
