/** The optional value used for Go's nil-able results: a nil `error` or a nil
    `*Error` is `None`, anything else is `Some`. */
module Wrappers {

  datatype Option<+T> = None | Some(value: T)
}
