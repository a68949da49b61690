/** The optional-value datatype used wherever the JavaScript code returns `null`
    or `undefined` for "nothing". */
module Wrappers {

  datatype Option<+T> = None | Some(value: T)
}
