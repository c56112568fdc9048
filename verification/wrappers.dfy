/** The optional value the engine uses for fields that JavaScript leaves `undefined`
    or `null`. */
module Wrappers {

  datatype Option<+T> = None | Some(value: T)
}
