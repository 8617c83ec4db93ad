/** The optional value used wherever the JavaScript code returns `false`,
    `undefined` or an empty object instead of a result. */
module Wrappers {

  datatype Option<+T> = None | Some(value: T)
}
