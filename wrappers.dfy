/** Optional values: JavaScript's `undefined` and `NaN` outcomes are `None`. */
module Wrappers {

  datatype Option<+T> = None | Some(value: T)
}

/** The part of a schema-validation failure the model keeps: which field, and the message. */
module Zod {

  datatype Issue = Issue(path: string, message: string)
}
